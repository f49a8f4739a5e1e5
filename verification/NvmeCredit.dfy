/**
 The crediting step: the search finds exactly the batch that issued the command, and counting
 the completion there keeps the invariant.
 */
module NvmeCredit {
  import opened Circular
  import opened CommandIds
  import opened BatchManagers
  import opened Ledgers
  import opened NvmeSystem
  import NvmeProofs
  import Comp = CompletionQueues
  import Rb = RingBuffers

  /** The entry in the completion thread's hand. */
  ghost function EntryHeld(s: State): Completion
    requires Good(s) && s.consumer.Crediting?
  {
    s.cq.log[s.creditCount].entry
  }

  /** The batch that issued the command of the entry in hand. */
  ghost function OwnerHeld(s: State): (i: nat)
    requires Good(s) && s.consumer.Crediting?
    ensures i < s.consumer.seen
  {
    s.ledger.owner[EntryHeld(s).request]
  }

  lemma HeldIsFresh(log: seq<Comp.Tagged<Completion>>, count: nat, credited: set<nat>)
    requires CreditInv(log, count, credited) && PostOrder(log) && count < |log|
    ensures log[count].entry.request !in credited
    ensures CreditInv(log, count + 1, credited + {log[count].entry.request})
  {
  }

  /** A batch with an uncredited request is unfinished, so it has not been popped. */
  lemma OwnerIsLive(log: seq<Batch>, popped: nat, finished: seq<nat>, l: Ledger, credited: set<nat>, r: nat)
    requires LedgerInv(l) && RecordsMatch(log, l, credited) && FinishedInv(log, popped, finished)
    requires r < |l.owner| && r !in credited
    ensures var i := l.owner[r];
            popped <= i < |log| && log[i].counter < log[i].total && !log[i].complete
  {
    var i := l.owner[r];
    assert RecordMatches(log[i], l, i, credited);
    assert Owns(l, i, r);
    FullyCredited(l, i, credited);
    assert i < popped ==> IsComplete(log[i]);
  }

  /** Among the live batches, only the owner's range covers the id. */
  lemma OwnerIsUnique(log: seq<Batch>, popped: nat, marker: Word, last: Word, l: Ledger, credited: set<nat>,
                      r: nat, id: Word)
    requires LedgerInv(l) && RecordsMatch(log, l, credited) && IdsInv(marker, l.ranges, popped, last)
    requires r < |l.owner| && id == IdOf(l, r) && popped <= l.owner[r]
    ensures forall j :: popped <= j < |log| ==> (Covers(log[j], id) <==> j == l.owner[r])
  {
  }

  /** The slots the search walks hold the live records in order. */
  lemma WalkedRecord(r: Rb.Ring<Batch>, k: nat)
    requires Rb.Inv(r) && r.popped + k < |r.log|
    ensures r.slots[Slot(r.head + k, |r.slots|)] == r.log[r.popped + k]
  {
    SlotShift(r.popped, k, |r.slots|);
    assert r.log[r.popped + k] == r.log[r.popped + k];
  }

  lemma {:induction false} SearchFinds(slots: seq<Batch>, idx: nat, stop: nat, id: Word, target: nat)
    requires |slots| > 0 && idx <= target < stop
    requires forall k :: idx <= k <= target ==> (Covers(slots[Slot(k, |slots|)], id) <==> k == target)
    ensures SearchSlots(slots, idx, stop, id) == target
    decreases stop - idx
  {
    if idx < target {
      SearchFinds(slots, idx + 1, stop, id, target);
    }
  }

  /** The search over the ring finds the owner, whatever order completions arrive in. */
  lemma SearchHitsOwner(r: Rb.Ring<Batch>, stop: nat, id: Word, i: nat)
    requires Rb.Inv(r) && r.popped <= i < |r.log| && i < r.popped + (stop - r.head)
    requires forall j :: r.popped <= j <= i ==> (Covers(r.log[j], id) <==> j == i)
    ensures FoundHit(r, r.head, stop, id) == Hit(r.head + (i - r.popped), i)
  {
    var target := r.head + (i - r.popped);
    forall k | r.head <= k <= target ensures Covers(r.slots[Slot(k, |r.slots|)], id) <==> k == target {
      WalkedRecord(r, k - r.head);
      assert Covers(r.log[r.popped + (k - r.head)], id) <==> r.popped + (k - r.head) == i;
    }
    SearchFinds(r.slots, r.head, stop, id, target);
  }

  lemma SearchFindsOwner(ring: Rb.Ring<Batch>, stop: nat, marker: Word, last: Word, l: Ledger, credited: set<nat>,
                         r: nat, id: Word)
    requires Rb.Inv(ring) && LedgerInv(l) && RecordsMatch(ring.log, l, credited)
    requires IdsInv(marker, l.ranges, ring.popped, last)
    requires r < |l.owner| && id == IdOf(l, r)
    requires ring.popped <= l.owner[r] < ring.popped + (stop - ring.head)
    ensures l.owner[r] < |ring.log|
    ensures FoundHit(ring, ring.head, stop, id) == Hit(ring.head + (l.owner[r] - ring.popped), l.owner[r])
    ensures ring.slots[Slot(ring.head + (l.owner[r] - ring.popped), |ring.slots|)] == ring.log[l.owner[r]]
  {
    WalkedRecord(ring, l.owner[r] - ring.popped);
    OwnerIsUnique(ring.log, ring.popped, marker, last, l, credited, r, id);
    SearchHitsOwner(ring, stop, id, l.owner[r]);
  }

  /** The entry in hand: where it lies, and that its batch is live and expects it. */
  lemma HeldExpected(s: State)
    requires Good(s) && s.consumer.Crediting?
    ensures s.consumer.slot < |s.cq.slots| && s.cq.slots[s.consumer.slot].entry == EntryHeld(s)
    ensures EntryHeld(s).request < |s.ledger.owner| && EntryHeld(s).id == IdOf(s.ledger, EntryHeld(s).request)
    ensures var i := OwnerHeld(s);
            && s.ring.popped <= i < |s.ring.log|
            && s.ring.log[i].counter < s.ring.log[i].total && !s.ring.log[i].complete
  {
    NvmeProofs.EntryInHand(s.cq, s.creditCount);
    HeldIsFresh(s.cq.log, s.creditCount, s.credited);
    var e, r := EntryHeld(s), EntryHeld(s).request;
    assert EntryMatches(e, s.sq.log, s.sq.fetched, |s.sq.slots|);
    OwnerIsLive(s.ring.log, s.ring.popped, s.finished, s.ledger, s.credited, r);
    assert s.sq.log[r].id == IdOf(s.ledger, r);
  }

  /** Every completion is found, whatever order completions arrive in: the search stops at the
      batch that issued the command. */
  lemma CreditHitsOwner(s: State)
    requires Good(s) && s.consumer.Crediting?
    ensures |s.ring.slots| > 0 && s.consumer.head <= s.consumer.stop
    ensures var i := OwnerHeld(s);
            && s.ring.popped <= i < |s.ring.log|
            && s.ring.slots[Slot(s.ring.head + (i - s.ring.popped), |s.ring.slots|)] == s.ring.log[i]
            && FoundHit(s.ring, s.consumer.head, s.consumer.stop, EntryHeld(s).id)
               == Hit(s.consumer.head + (i - s.ring.popped), i)
  {
    HeldExpected(s);
    var e := EntryHeld(s);
    assert s.published == s.ring.popped && s.consumer.head == s.ring.head;
    SearchFindsOwner(s.ring, s.consumer.stop, s.marker, LastId(s.producer, s.counter), s.ledger, s.credited,
                     e.request, e.id);
  }

  /** The assertions around crediting hold: the batch found expects a completion and is not
      complete, so the completion thread never stops there. */
  lemma CreditNeverStops(s: State)
    requires Good(s) && s.consumer.Crediting?
    ensures CanCredit(s)
  {
    HeldExpected(s);
    CreditHitsOwner(s);
  }

  // ------------------------------------------------------------------ the step

  lemma RecordsAfterCredit(log: seq<Batch>, l: Ledger, credited: set<nat>, r: nat)
    requires LedgerInv(l) && RecordsMatch(log, l, credited) && r < |l.owner| && r !in credited
    requires log[l.owner[r]].counter < log[l.owner[r]].total
    ensures RecordsMatch(log[l.owner[r] := Credit(log[l.owner[r]])], l, credited + {r})
  {
    var i := l.owner[r];
    var log' := log[i := Credit(log[i])];
    forall j | 0 <= j < |log| ensures RecordMatches(log'[j], l, j, credited + {r}) {
      assert RecordMatches(log[j], l, j, credited);
      CreditOne(l, r, j, credited);
    }
  }

  lemma FinishedAfterCredit(log: seq<Batch>, popped: nat, finished: seq<nat>, i: nat, b: Batch)
    requires FinishedInv(log, popped, finished) && popped <= i < |log|
    requires !log[i].complete && (b.complete <==> IsComplete(b))
    ensures FinishedInv(log[i := b], popped, if IsComplete(b) then finished + [i] else finished)
  {
    var log' := log[i := b];
    var finished' := if IsComplete(b) then finished + [i] else finished;
    assert i !in finished;
    forall k ensures k in finished' <==> 0 <= k < |log'| && log'[k].complete {
      assert k in finished <==> 0 <= k < |log| && log[k].complete;
    }
  }

  /** After crediting, either the head was finished and popping starts, or it is unfinished. */
  lemma ScanAfterCredit(c: ConsumerPc, popping: Rb.Consumer<Batch>, log: seq<Batch>, popped: nat, ranges: seq<Range>,
                        i: nat, b: Batch)
    requires ScanInv(c, popping, log, popped, ranges) && c.Crediting?
    requires popped <= i < |log| && i < c.seen
    ensures var c' := if IsComplete(b) && i == popped then Popping(c.head, c.stop, c.seen) else Ringing;
            ScanInv(c', popping, log[i := b], popped, ranges)
  {
  }

  lemma HeadSlotIsHead(r: Rb.Ring<Batch>, i: nat)
    requires Rb.Inv(r) && r.popped <= i < |r.log|
    ensures Slot(r.head + (i - r.popped), |r.slots|) == r.head <==> i == r.popped
  {
  }

  /** The ring after a live record is rewritten. */
  lemma RingAfterAmend(r: Rb.Ring<Batch>, i: nat, b: Batch)
    requires Rb.Inv(r) && Rb.Enabled(r, Rb.Amend(i, b))
    ensures var r' := Rb.Apply(r, Rb.Amend(i, b));
            && Rb.Inv(r') && |r'.slots| == |r.slots| && r'.log == r.log[i := b]
            && r'.popped == r.popped && r'.producer == r.producer && r'.consumer == r.consumer
  {
    Rb.ActionRefines(r, Rb.Amend(i, b));
  }

  /** What the crediting step does, in terms of the owner of the entry in hand. */
  lemma CreditEffect(s: State)
    requires Good(s) && CanCredit(s)
    ensures var i := OwnerHeld(s);
            && i < |s.ring.log| && s.ring.log[i].counter < s.ring.log[i].total
            && Rb.Enabled(s.ring, Rb.Amend(i, Credit(s.ring.log[i])))
            && var b := Credit(s.ring.log[i]);
               CreditEntry(s) == s.(
                 ring := Rb.Apply(s.ring, Rb.Amend(i, b)),
                 credited := s.credited + {EntryHeld(s).request}, creditCount := s.creditCount + 1,
                 finished := if IsComplete(b) then s.finished + [i] else s.finished,
                 consumer := if IsComplete(b) && i == s.ring.popped
                             then Popping(s.consumer.head, s.consumer.stop, s.consumer.seen) else Ringing)
  {
    HeldExpected(s);
    CreditHitsOwner(s);
    HeadSlotIsHead(s.ring, OwnerHeld(s));
  }

  lemma CreditPreserves(s: State)
    requires Good(s) && CanCredit(s)
    ensures Good(CreditEntry(s))
  {
    CreditedQueues(s);
    CreditedBatches(s);
    CreditedThreads(s);
  }

  lemma CreditedQueues(s: State)
    requires Good(s) && CanCredit(s)
    ensures QueuesInv(CreditEntry(s)) == true
  {
    CreditEffect(s);
    var i := OwnerHeld(s);
    QueuesAfterCredit(s, CreditEntry(s), i, Credit(s.ring.log[i]));
  }

  lemma QueuesAfterCredit(s: State, s': State, i: nat, b: Batch)
    requires QueuesInv(s) && s.creditCount < |s.cq.log|
    requires Rb.Enabled(s.ring, Rb.Amend(i, b)) && s'.ring == Rb.Apply(s.ring, Rb.Amend(i, b))
    requires s'.sq == s.sq && s'.cq == s.cq && s'.inflight == s.inflight && s'.posted == s.posted
    requires s'.creditCount == s.creditCount + 1
    requires s'.credited == s.credited + {s.cq.log[s.creditCount].entry.request}
    ensures QueuesInv(s') == true
  {
    RingAfterAmend(s.ring, i, b);
    HeldIsFresh(s.cq.log, s.creditCount, s.credited);
  }

  lemma CreditedBatches(s: State)
    requires Good(s) && CanCredit(s)
    ensures BatchesInv(CreditEntry(s)) == true
  {
    CreditEffect(s);
    HeldIsFresh(s.cq.log, s.creditCount, s.credited);
    var i, r := OwnerHeld(s), EntryHeld(s).request;
    OwnerIsLive(s.ring.log, s.ring.popped, s.finished, s.ledger, s.credited, r);
    assert RecordMatches(s.ring.log[i], s.ledger, i, s.credited);
    RecordsAfterCredit(s.ring.log, s.ledger, s.credited, r);
    FinishedAfterCredit(s.ring.log, s.ring.popped, s.finished, i, Credit(s.ring.log[i]));
  }

  lemma CreditedThreads(s: State)
    requires Good(s) && CanCredit(s)
    ensures ThreadsInv(CreditEntry(s)) == true
  {
    CreditEffect(s);
    var i := OwnerHeld(s);
    ScanAfterCredit(s.consumer, s.ring.consumer, s.ring.log, s.ring.popped, s.ledger.ranges, i, Credit(s.ring.log[i]));
  }
}
