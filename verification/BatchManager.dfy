/**
 The batch manager of an NVMe queue: which batch a completed command belongs to, when a
 batch is finished, and in which order batches leave the ring.
 */
module BatchManagers {
  import opened Circular
  import opened RingBuffers
  import opened CommandIds

  const BATCH_INFO_BUFFER_SIZE := 256

  datatype Batch = Batch(
    startCmdid: Word, endCmdid: Word, total: Word, counter: Word,
    notify: bool, ready: bool, complete: bool)

  predicate Covers(b: Batch, id: Word) {
    b.startCmdid <= id <= b.endCmdid
  }

  predicate IsComplete(b: Batch) {
    b.ready && b.counter == b.total
  }

  /** One more command of the batch is done. */
  function Counted(b: Batch): Batch
    requires b.counter < b.total
  {
    b.(counter := b.counter + 1)
  }

  /** And if that was the last, the batch is complete. */
  function Credit(b: Batch): Batch
    requires b.counter < b.total
  {
    if IsComplete(Counted(b)) then Counted(b).(complete := true) else Counted(b)
  }

  /** The position of the first batch that covers the id, or the length if there is none. */
  function Find(live: seq<Batch>, id: Word): (i: nat)
    ensures i <= |live|
    ensures i < |live| ==> Covers(live[i], id)
    ensures forall k :: 0 <= k < i ==> !Covers(live[k], id)
  {
    if live == [] || Covers(live[0], id) then 0 else 1 + Find(live[1..], id)
  }

  /** How many batches at the front are finished. */
  function Finished(live: seq<Batch>): (n: nat)
    ensures n <= |live|
  {
    if live == [] || !IsComplete(live[0]) then 0 else 1 + Finished(live[1..])
  }

  lemma {:induction false} FinishedMeans(live: seq<Batch>)
    ensures forall k :: 0 <= k < Finished(live) ==> IsComplete(live[k])
    ensures Finished(live) < |live| ==> !IsComplete(live[Finished(live)])
  {
    if live != [] && IsComplete(live[0]) {
      FinishedMeans(live[1..]);
    }
  }

  lemma FinishedIs(live: seq<Batch>, n: nat)
    requires n <= |live| && forall k :: 0 <= k < n ==> IsComplete(live[k])
    requires n < |live| ==> !IsComplete(live[n])
    ensures Finished(live) == n
  {
    FinishedMeans(live);
  }

  /** A completion can be credited: its batch still expects one. */
  predicate Expected(live: seq<Batch>, id: Word) {
    var i := Find(live, id);
    i < |live| ==> live[i].counter < live[i].total && !live[i].complete
  }

  /** The live batches once the completion is credited but nothing has left. */
  function AfterCredit(live: seq<Batch>, id: Word): (r: seq<Batch>)
    requires Expected(live, id)
    ensures |r| == |live|
  {
    var i := Find(live, id);
    if i == |live| then live else live[i := Credit(live[i])]
  }

  /** How many batches leave: none unless the credited batch was the head and is now done. */
  function Leaving(live: seq<Batch>, id: Word): (n: nat)
    requires Expected(live, id)
    ensures n <= |live|
  {
    if Find(live, id) == 0 && live != [] then Finished(AfterCredit(live, id)) else 0
  }

  ghost predicate HeadUnfinished(live: seq<Batch>) {
    live != [] ==> !IsComplete(live[0])
  }

  /** Batches leave in push order and only when finished; afterwards the head is unfinished or
      nothing is left; and nothing but the credited batch changes. */
  lemma UpdateKeepsOrder(live: seq<Batch>, id: Word)
    requires Expected(live, id) && HeadUnfinished(live)
    ensures var done := AfterCredit(live, id);
            var n := Leaving(live, id);
            && (forall k :: 0 <= k < n ==> IsComplete(done[k]))
            && HeadUnfinished(done[n..])
            && (forall k :: 0 <= k < |live| && k != Find(live, id) ==> done[k] == live[k])
            && n == Finished(done)
  {
    FinishedMeans(AfterCredit(live, id));
    if Find(live, id) != 0 || live == [] {
      assert Finished(AfterCredit(live, id)) == 0;
    }
  }

  /** The marker after `n` of the batches have left. */
  function MarkerAfter(marker: Word, done: seq<Batch>, n: nat): Word
    requires n <= |done|
  {
    if n == 0 then marker else done[n - 1].endCmdid
  }

  /** The ids the live batches hold. */
  function HeldRanges(live: seq<Batch>): (r: seq<Range>)
    ensures |r| == |live|
  {
    seq(|live|, i requires 0 <= i < |live| => Range(live[i].startCmdid, live[i].endCmdid))
  }

  lemma {:induction false} MarkerGivenBack(marker: Word, done: seq<Batch>, n: nat, last: Word)
    requires n <= |done|
    ensures GiveBackMany(IdSpace(marker, HeldRanges(done), last), n)
            == IdSpace(MarkerAfter(marker, done, n), HeldRanges(done[n..]), last)
    decreases n
  {
    if n == 0 {
      assert done[0..] == done;
    } else {
      var s := IdSpace(marker, HeldRanges(done), last);
      assert GiveBack(s) == IdSpace(done[0].endCmdid, HeldRanges(done[1..]), last);
      MarkerGivenBack(done[0].endCmdid, done[1..], n - 1, last);
      assert done[1..][n - 1..] == done[n..];
    }
  }

  /** The marker after an update is the last id of the last batch gone, as it was before the update,
      and stays if none leaves.  To the id space the update is giving back that many ranges. */
  lemma UpdateGivesBack(marker: Word, live: seq<Batch>, id: Word, last: Word)
    requires Expected(live, id)
    ensures var n, done := Leaving(live, id), AfterCredit(live, id);
            && MarkerAfter(marker, done, n) == (if n > 0 then live[n - 1].endCmdid else marker)
            && GiveBackMany(IdSpace(marker, HeldRanges(live), last), n)
               == IdSpace(MarkerAfter(marker, done, n), HeldRanges(done[n..]), last)
  {
    assert HeldRanges(live) == HeldRanges(AfterCredit(live, id));
    MarkerGivenBack(marker, AfterCredit(live, id), Leaving(live, id), last);
  }

  /** So updates keep the ids of live batches disjoint, and what fitted before still fits. */
  lemma UpdateKeepsIds(marker: Word, live: seq<Batch>, id: Word, last: Word)
    requires Expected(live, id) && IdInv(IdSpace(marker, HeldRanges(live), last))
    ensures var n, done := Leaving(live, id), AfterCredit(live, id);
            IdInv(IdSpace(MarkerAfter(marker, done, n), HeldRanges(done[n..]), last))
  {
    UpdateGivesBack(marker, live, id, last);
    GiveBackManyPreserves(IdSpace(marker, HeldRanges(live), last), Leaving(live, id));
  }

  /** The batch whose notification this completion triggers, if any. */
  function Notifies(live: seq<Batch>, id: Word): (r: seq<Batch>)
    requires Expected(live, id)
  {
    var i := Find(live, id);
    if i < |live| && IsComplete(AfterCredit(live, id)[i]) && live[i].notify then [Counted(live[i])] else []
  }

  /** A batch is notified exactly when the completion is the last one it waits for.  It is then marked,
      so no later completion can be credited to it. */
  lemma NotifiesExact(live: seq<Batch>, id: Word)
    requires Expected(live, id)
    ensures var i := Find(live, id);
            && (Notifies(live, id) != [] <==>
                  i < |live| && live[i].notify && live[i].ready && live[i].counter + 1 == live[i].total)
            && (Notifies(live, id) != [] ==>
                  && Notifies(live, id) == [live[i].(counter := live[i].total)]
                  && !Expected(AfterCredit(live, id), id))
  {
    var i, done := Find(live, id), AfterCredit(live, id);
    if i < |live| {
      var j := Find(done, id);
      assert Covers(done[i], id);
      assert forall k :: 0 <= k < i ==> done[k] == live[k];
      assert j == i;
    }
  }

  // ------------------------------------------------------------------ the object

  class BatchManager {
    const buffer: RingBuffer<Batch>
    var lastAvailableCmdid: Word
    var notified: seq<Batch>

    ghost predicate Valid()
      reads this, buffer, buffer.data
    {
      buffer.Valid() == true && buffer.data.Length == BATCH_INFO_BUFFER_SIZE
    }

    constructor ()
      ensures Valid() && fresh(buffer) && fresh(buffer.data)
      ensures buffer.entries == [] && lastAvailableCmdid == 0 && notified == []
    {
      buffer := new RingBuffer(BATCH_INFO_BUFFER_SIZE, Batch(0, 0, 0, 0, false, false, false));
      lastAvailableCmdid := 0;
      notified := [];
    }

    /** The consumer credits one completed command and lets finished batches leave. */
    method Update(cmdid: Word)
      requires Valid() && Expected(buffer.entries, cmdid)
      modifies this, buffer, buffer.data
      ensures Valid()
      ensures buffer.entries == AfterCredit(old(buffer.entries), cmdid)[Leaving(old(buffer.entries), cmdid)..]
      ensures lastAvailableCmdid
           == MarkerAfter(old(lastAvailableCmdid), AfterCredit(old(buffer.entries), cmdid), Leaving(old(buffer.entries), cmdid))
      ensures var n := Leaving(old(buffer.entries), cmdid);
              lastAvailableCmdid == if n > 0 then old(buffer.entries)[n - 1].endCmdid else old(lastAvailableCmdid)
      ensures notified == old(notified) + Notifies(old(buffer.entries), cmdid)
    {
      ghost var live := buffer.entries;
      UpdateGivesBack(lastAvailableCmdid, live, cmdid, 0);
      var head, tail := buffer.head, buffer.tail;
      buffer.Extent();
      if head > tail {
        tail := tail + BATCH_INFO_BUFFER_SIZE;
      }
      var idx := Search(head, tail, cmdid);
      if idx < tail {
        var idx2 := Fold(idx);
        ProcessUpdate(idx2, head, tail, cmdid, idx - head);
      }
    }

    /** The first index from the head on whose batch covers the id, or `tail`. */
    method Search(head: nat, tail: nat, cmdid: Word) returns (idx: nat)
      requires Valid() && head == buffer.head && tail == head + |buffer.entries|
      ensures idx == head + Find(buffer.entries, cmdid)
    {
      ghost var live := buffer.entries;
      idx := head;
      while idx < tail
        invariant head <= idx <= tail
        invariant forall k :: 0 <= k < idx - head ==> !Covers(live[k], cmdid)
      {
        buffer.EntryAt(idx - head);
        var idx2 := Fold(idx);
        if Covers(buffer.data[idx2], cmdid) {
          return;
        }
        idx := idx + 1;
      }
    }

    /** Credit the batch in slot `idx`, which is `k` batches behind the head. */
    method ProcessUpdate(idx: nat, head: nat, tail: nat, cmdid: Word, ghost k: nat)
      requires Valid() && Expected(buffer.entries, cmdid)
      requires k < |buffer.entries| && k == Find(buffer.entries, cmdid)
      requires head == buffer.head && tail == head + |buffer.entries|
      requires idx == Slot(head + k, BATCH_INFO_BUFFER_SIZE)
      modifies this, buffer, buffer.data
      ensures Valid()
      ensures buffer.entries == AfterCredit(old(buffer.entries), cmdid)[Leaving(old(buffer.entries), cmdid)..]
      ensures lastAvailableCmdid
           == MarkerAfter(old(lastAvailableCmdid), AfterCredit(old(buffer.entries), cmdid), Leaving(old(buffer.entries), cmdid))
      ensures notified == old(notified) + Notifies(old(buffer.entries), cmdid)
    {
      var finished := CreditSlot(idx, k);
      buffer.Extent();
      HeadSlot(head, k);
      if finished && idx == head {
        PopFinished(head, tail);
      }
    }

    /** Count the completion in the batch of slot `idx`; notify and mark the batch if that finished it. */
    method CreditSlot(idx: nat, ghost k: nat) returns (finished: bool)
      requires Valid() && k < |buffer.entries| && buffer.entries[k].counter < buffer.entries[k].total
      requires idx == Slot(buffer.head + k, BATCH_INFO_BUFFER_SIZE)
      modifies this`notified, buffer`model, buffer`entries, buffer.data
      ensures Valid()
      ensures buffer.entries == old(buffer.entries)[k := Credit(old(buffer.entries)[k])]
      ensures finished == IsComplete(buffer.entries[k])
      ensures notified == old(notified) + if finished && old(buffer.entries)[k].notify then [Counted(old(buffer.entries)[k])] else []
    {
      buffer.EntryAt(k);
      var b;
      b, finished := CreditOne(buffer.data[idx]);
      buffer.Rewrite(idx, b, k);
    }

    /** Count one completion in a batch. */
    method CreditOne(was: Batch) returns (b: Batch, finished: bool)
      requires was.counter < was.total
      modifies this`notified
      ensures b == Credit(was) && finished == IsComplete(b)
      ensures notified == old(notified) + if finished && was.notify then [Counted(was)] else []
    {
      b := was.(counter := was.counter + 1);
      finished := IsComplete(b);
      if finished {
        if b.notify {
          notified := notified + [b];
        }
        b := b.(complete := true);
      }
    }

    /** Let the finished batches at the front leave, each moving the marker to its end. */
    method PopFinished(head: nat, tail: nat)
      requires Valid() && head == buffer.head && tail == head + |buffer.entries|
      modifies this`lastAvailableCmdid, buffer
      ensures Valid()
      ensures buffer.entries == old(buffer.entries)[Finished(old(buffer.entries))..]
      ensures lastAvailableCmdid == MarkerAfter(old(lastAvailableCmdid), old(buffer.entries), Finished(old(buffer.entries)))
    {
      ghost var done, marker := buffer.entries, lastAvailableCmdid;
      buffer.Extent();
      var idx := head;
      while idx < tail
        invariant Popping(done, marker, head, idx) == true
      {
        var popped := PopIfFinished(idx, head, done, marker);
        if !popped {
          break;
        }
        idx := idx + 1;
      }
      FinishedIs(done, idx - head);
    }

    /** The batches before index `idx` have left. */
    ghost predicate Popping(done: seq<Batch>, marker: Word, head: nat, idx: nat)
      reads this, buffer, buffer.data
    {
      && Valid() && head <= idx <= head + |done| && buffer.entries == done[idx - head..]
      && buffer.head == Slot(idx, BATCH_INFO_BUFFER_SIZE)
      && (forall k :: 0 <= k < idx - head ==> IsComplete(done[k]))
      && lastAvailableCmdid == MarkerAfter(marker, done, idx - head)
    }

    /** Pop the head if it is finished and publish its last id as the marker. */
    method PopIfFinished(idx: nat, ghost head: nat, ghost done: seq<Batch>, ghost marker: Word) returns (popped: bool)
      requires Popping(done, marker, head, idx) == true && idx < head + |done|
      modifies this`lastAvailableCmdid, buffer
      ensures popped == IsComplete(done[idx - head])
      ensures Popping(done, marker, head, if popped then idx + 1 else idx) == true
    {
      SuffixStep(done, idx - head);
      buffer.HeadEntry();
      var idx2 := Fold(idx);
      popped := IsComplete(buffer.data[idx2]);
      if popped {
        SlotNext(idx, BATCH_INFO_BUFFER_SIZE);
        var ok, bi := buffer.Pop();
        lastAvailableCmdid := bi.endCmdid;
      }
    }
  }

  lemma SuffixStep(s: seq<Batch>, i: nat)
    requires i < |s|
    ensures s[i..][0] == s[i] && s[i..][1..] == s[i + 1..]
  {
  }

  /** The slot of an index that may run one lap past the end. */
  method Fold(idx: nat) returns (idx2: nat)
    ensures idx2 == Slot(idx, BATCH_INFO_BUFFER_SIZE)
  {
    SlotIsRemainder(idx, BATCH_INFO_BUFFER_SIZE);
    idx2 := idx % BATCH_INFO_BUFFER_SIZE;
  }

  /** Among fewer than a lap of positions, only the head itself is in the head's slot. */
  lemma HeadSlot(head: nat, k: nat)
    requires head < BATCH_INFO_BUFFER_SIZE && k < BATCH_INFO_BUFFER_SIZE
    ensures Slot(head + k, BATCH_INFO_BUFFER_SIZE) == head <==> k == 0
  {
  }
}
