/**
 Every step of the NVMe queue pair keeps the invariant.
 */
module NvmeProofs {
  import opened Circular
  import opened CommandIds
  import opened BatchManagers
  import opened Ledgers
  import opened NvmeSystem
  import Sub = SubmissionQueues
  import Comp = CompletionQueues
  import Rb = RingBuffers

  lemma InitInv(n: nat, zero: Command)
    requires n > 0
    ensures Good(Init(n, zero))
  {
    var s := Init(n, zero);
    Sub.FreshInv(s.sq.slots);
    Comp.FreshInv(n, Completion(0, 0, 0, 0));
    Rb.EmptyInv(s.ring.slots);
  }

  // ------------------------------------------------------------------ producer

  lemma BeginPreserves(s: State, length: Word)
    requires Good(s) && CanBegin(s, length) && (Wraps(s.counter, length) ==> s.marker != 0)
    ensures Good(Begin(s, length))
  {
    PlanIsContiguous(s.counter, length);
  }

  lemma FinishResetPreserves(s: State)
    requires Good(s) && CanFinishReset(s)
    ensures Good(FinishReset(s))
  {
    PlanIsContiguous(0, s.producer.length);
    ResetPreserves(IdsOf(s));
    assert IdsOf(FinishReset(s)) == IdsOf(s).(last := 0);
  }

  lemma PassCheckPreserves(s: State)
    requires Good(s) && CanPassCheck(s)
    ensures Good(PassCheck(s))
  {
  }

  /** A step inside `push`: only the last one changes what the ring holds. */
  lemma RingAfterPush(r: Rb.Ring<Batch>, job: Job)
    requires Rb.Inv(r) && (!r.producer.NotPushing? ==> r.producer.item == NewBatch(job))
    requires Rb.Enabled(r, NextPush(r, job))
    ensures var r' := Rb.Apply(r, NextPush(r, job));
            && Rb.Inv(r') && |r'.slots| == |r.slots|
            && r'.popped == r.popped && r'.consumer == r.consumer && r'.head == r.head
            && r'.log == (if r.producer.ItemStored? then r.log + [NewBatch(job)] else r.log)
            && (r.producer.ItemStored? ==> r'.producer.NotPushing?)
            && (!r'.producer.NotPushing? ==> r'.producer.item == NewBatch(job))
  {
    Rb.ActionRefines(r, NextPush(r, job));
  }

  lemma PushPreserves(s: State)
    requires Good(s) && CanPush(s)
    ensures Good(Push(s))
  {
    if s.ring.producer.ItemStored? {
      PushStorePreserves(s);
    } else {
      RingAfterPush(s.ring, s.producer.job);
    }
  }

  lemma PushStorePreserves(s: State)
    requires Good(s) && CanPush(s) && s.ring.producer.ItemStored?
    ensures Good(Push(s))
  {
    PlanIsContiguous(s.counter, s.producer.job.length);
    RingAfterPush(s.ring, s.producer.job);
    PushStoreBatches(s);
    PushStoreThreads(s);
  }

  lemma PushStoreBatches(s: State)
    requires Good(s) && CanPush(s) && s.ring.producer.ItemStored?
    ensures BatchesInv(Push(s)) == true
  {
    var job := s.producer.job;
    var range := Range(job.start, job.end);
    PlanIsContiguous(s.counter, job.length);
    AddPreserves(s.ledger, range);
    PushIds(s.marker, s.ledger.ranges, s.published, s.counter, range);
    CreditedIssued(s.cq.log, s.creditCount, s.credited, s.sq.log, s.sq.fetched, |s.sq.slots|, s.inflight, s.posted);
    PushedRecords(s.ring.log, s.ledger, s.credited, job);
    PushedCommands(s.sq.log, s.ledger, range);
    FinishedAfterPush(s.ring.log, s.ring.popped, s.finished, NewBatch(job));
  }

  lemma PushStoreThreads(s: State)
    requires Good(s) && CanPush(s) && s.ring.producer.ItemStored?
    ensures ThreadsInv(Push(s)) == true
  {
    var job := s.producer.job;
    var range := Range(job.start, job.end);
    PlanIsContiguous(s.counter, job.length);
    PushedIssue(s.ledger, job, |s.sq.log|);
    ScanAfterPush(s.consumer, s.ring.consumer, s.ring.log, s.ring.popped, s.ledger.ranges, NewBatch(job), range);
    OwnerAfterPush(s.consumer, s.cq.log, s.creditCount, s.ledger, range);
  }

  lemma PushIds(marker: Word, ranges: seq<Range>, published: nat, last: Word, range: Range)
    requires IdsInv(marker, ranges, published, last) && Fits(Ids(marker, ranges, published, last), range)
    ensures IdsInv(marker, ranges + [range], published, range.end)
  {
  }

  lemma PushedIssue(l: Ledger, job: Job, issued: nat)
    requires LedgerInv(l) && issued == |l.owner|
    requires 0 < job.start <= job.end && job.length == job.end - job.start + 1
    ensures IssueInv(issued, AddBatch(l, Range(job.start, job.end)), job, 0, 0)
  {
  }

  lemma OwnerAfterPush(c: ConsumerPc, log: seq<Comp.Tagged<Completion>>, creditCount: nat, l: Ledger, range: Range)
    requires OwnerSeen(c, log, creditCount, l.owner)
    ensures OwnerSeen(c, log, creditCount, AddBatch(l, range).owner)
  {
  }

  lemma PushedRecords(log: seq<Batch>, l: Ledger, credited: set<nat>, job: Job)
    requires RecordsMatch(log, l, credited) && LedgerInv(l) && forall r :: r in credited ==> r < |l.owner|
    requires 0 < job.start <= job.end && job.length == job.end - job.start + 1
    ensures RecordsMatch(log + [NewBatch(job)], AddBatch(l, Range(job.start, job.end)), credited)
  {
    var range := Range(job.start, job.end);
    NoCredits(l, range, credited);
    var log', l' := log + [NewBatch(job)], AddBatch(l, range);
    forall i | 0 <= i < |log'| ensures RecordMatches(log'[i], l', i, credited) {
      if i < |log| {
        AddKeeps(l, range, i, credited);
        assert RecordMatches(log[i], l, i, credited);
      }
    }
  }

  lemma PushedCommands(cmds: seq<Command>, l: Ledger, range: Range)
    requires CommandsMatch(cmds, l) && 0 < range.start <= range.end < WORD
    ensures CommandsMatch(cmds, AddBatch(l, range))
  {
    AddPreserves(l, range);
    forall r | 0 <= r < |cmds| ensures cmds[r].id == IdOf(AddBatch(l, range), r) {
      assert cmds[r].id == IdOf(l, r);
    }
  }

  /** What the completion thread relies on survives a push. */
  lemma ScanAfterPush(c: ConsumerPc, popping: Rb.Consumer<Batch>, log: seq<Batch>, popped: nat,
                      ranges: seq<Range>, b: Batch, r: Range)
    requires ScanInv(c, popping, log, popped, ranges) && b.counter == 0 < b.total && popped <= |log|
    ensures ScanInv(c, popping, log + [b], popped, ranges + [r])
  {
  }

  lemma FinishedAfterPush(log: seq<Batch>, popped: nat, finished: seq<nat>, b: Batch)
    requires FinishedInv(log, popped, finished) && !b.complete && popped <= |log|
    ensures FinishedInv(log + [b], popped, finished)
  {
  }

  /** Only fetched requests are credited. */
  lemma CreditedIssued(log: seq<Comp.Tagged<Completion>>, creditCount: nat, credited: set<nat>,
                       cmds: seq<Command>, fetched: nat, n: nat, inflight: set<Command>, posted: set<nat>)
    requires CreditInv(log, creditCount, credited) && FlightInv(cmds, fetched, n, log, inflight, posted)
    ensures forall r :: r in credited ==> r < fetched
  {
  }

  lemma AllocPreserves(s: State)
    requires Good(s) && s.producer.Allocating?
    ensures Good(Alloc(s))
  {
  }

  lemma ReservePreserves(s: State)
    requires Good(s) && CanReserve(s)
    ensures Good(Reserve(s))
  {
    Sub.ActionPreserves(s.sq, Sub.Reserve);
  }

  lemma WritePreserves(s: State)
    requires Good(s) && CanWrite(s)
    ensures Good(Write(s))
  {
    var cmd := Command(s.counter, |s.sq.log|);
    Sub.ActionPreserves(s.sq, Sub.Write(cmd));
    WrittenCommands(s.sq.log, s.ledger, s.producer.job, s.producer.k, cmd);
    WrittenFlight(s.sq.log, cmd, s.sq.fetched, |s.sq.slots|, s.cq.log, s.inflight, s.posted);
  }

  /** The command written is the planned one. */
  lemma WrittenCommands(cmds: seq<Command>, l: Ledger, job: Job, k: nat, cmd: Command)
    requires CommandsMatch(cmds, l) && IssueInv(|cmds|, l, job, k, k)
    requires cmd.request == |cmds| && cmd.id == job.start + k
    ensures CommandsMatch(cmds + [cmd], l)
  {
    var last, r := |l.ranges| - 1, |cmds|;
    assert Owns(l, last, r);
    assert l.owner[r] == last;
  }

  lemma WrittenFlight(cmds: seq<Command>, cmd: Command, fetched: nat, n: nat,
                      log: seq<Comp.Tagged<Completion>>, inflight: set<Command>, posted: set<nat>)
    requires FlightInv(cmds, fetched, n, log, inflight, posted)
    ensures FlightInv(cmds + [cmd], fetched, n, log, inflight, posted)
  {
  }

  lemma RingSqPreserves(s: State)
    requires Good(s) && CanRingSq(s)
    ensures Good(RingSq(s))
  {
    Sub.ActionPreserves(s.sq, Sub.Ring);
    var s' := RingSq(s);
    assert LastId(s'.producer, s'.counter) == LastId(s.producer, s.counter);
    assert ProducerInv(s'.producer, s'.counter, s'.marker, |s'.sq.log|, s'.sq.reserved, s'.ledger);
  }

  lemma BeginWaitPreserves(s: State)
    requires Good(s) && s.producer.Idle?
    ensures Good(BeginWait(s))
  {
  }

  lemma WaitRingPreserves(s: State)
    requires Good(s) && CanWaitRing(s)
    ensures Good(WaitRing(s))
  {
    Sub.ActionPreserves(s.sq, Sub.Ring);
  }

  lemma WaitReturnPreserves(s: State)
    requires Good(s) && CanWaitReturn(s)
    ensures Good(WaitReturn(s))
  {
  }

  // ------------------------------------------------------------------ controller

  lemma FetchPreserves(s: State)
    requires Good(s) && CanFetch(s)
    ensures Good(Fetch(s))
  {
    Sub.FetchReady(s.sq);
    Sub.ActionPreserves(s.sq, Sub.Fetch);
    PostedFetched(s.cq.log, s.posted, s.sq.log, s.sq.fetched, |s.sq.slots|, s.inflight);
    FetchedFlight(s.sq.log, s.sq.fetched, |s.sq.slots|, s.cq.log, s.inflight, s.posted);
  }

  lemma PostedFetched(log: seq<Comp.Tagged<Completion>>, posted: set<nat>, cmds: seq<Command>, fetched: nat, n: nat,
                      inflight: set<Command>)
    requires FlightInv(cmds, fetched, n, log, inflight, posted) && posted == RequestsOf(log, |log|)
    ensures forall r :: r in posted ==> r < fetched
  {
  }

  lemma FetchedFlight(cmds: seq<Command>, fetched: nat, n: nat,
                      log: seq<Comp.Tagged<Completion>>, inflight: set<Command>, posted: set<nat>)
    requires FlightInv(cmds, fetched, n, log, inflight, posted) && fetched < |cmds| && fetched !in posted
    requires forall r {:trigger cmds[r]} :: 0 <= r < |cmds| ==> cmds[r].request == r
    ensures FlightInv(cmds, fetched + 1, n, log, inflight + {cmds[fetched]}, posted)
  {
  }

  lemma PostPreserves(s: State, cmd: Command)
    requires Good(s) && CanPost(s, cmd)
    ensures Good(Post(s, cmd))
  {
    PostedQueues(s, cmd);
    PostedThreads(s, cmd);
  }

  /** The traffic between host and controller with one more completion posted. */
  lemma TrafficAfterPost(cmds: seq<Command>, fetched: nat, n: nat, log: seq<Comp.Tagged<Completion>>,
                         inflight: set<Command>, posted: set<nat>, creditCount: nat, headPos: nat, credited: set<nat>,
                         cmd: Command, x: Comp.Tagged<Completion>)
    requires FlightInv(cmds, fetched, n, log, inflight, posted) && cmd in inflight && headPos <= fetched
    requires forall r {:trigger cmds[r]} :: 0 <= r < |cmds| ==> cmds[r].request == r
    requires x.entry == Completion(cmd.id, Slot(fetched, n), cmd.request, fetched)
    requires posted == RequestsOf(log, |log|) && PostOrder(log)
    requires HeadsAhead(log, creditCount, headPos) && CreditInv(log, creditCount, credited)
    ensures FlightInv(cmds, fetched, n, log + [x], inflight - {cmd}, posted + {cmd.request}) == true
    ensures posted + {cmd.request} == RequestsOf(log + [x], |log| + 1)
    ensures PostOrder(log + [x]) == true && HeadsAhead(log + [x], creditCount, headPos) == true
    ensures CreditInv(log + [x], creditCount, credited) == true
  {
    PostedFlight(cmds, fetched, n, log, inflight, posted, cmd, x);
    OrderAfterPost(log, x, cmds, fetched, n, inflight, posted);
    HeadsAfterPost(log, x, creditCount, headPos);
    RequestsPrefix(log, x, creditCount);
  }

  lemma PostedQueues(s: State, cmd: Command)
    requires QueuesInv(s) && CommandsMatch(s.sq.log, s.ledger) && CanPost(s, cmd)
    ensures QueuesInv(Post(s, cmd)) == true
  {
    var e := Posted(s, cmd);
    Comp.ActionPreserves(s.cq, Comp.Post(e));
    TrafficAfterPost(s.sq.log, s.sq.fetched, |s.sq.slots|, s.cq.log, s.inflight, s.posted, s.creditCount, s.sq.headPos,
                     s.credited, cmd, Comp.Tagged(e, s.cq.postPhase));
  }

  lemma PostedThreads(s: State, cmd: Command)
    requires ThreadsInv(s) && s.creditCount <= |s.cq.log| && CanPost(s, cmd)
    ensures ThreadsInv(Post(s, cmd)) == true
  {
  }

  lemma OrderAfterPost(log: seq<Comp.Tagged<Completion>>, x: Comp.Tagged<Completion>,
                       cmds: seq<Command>, fetched: nat, n: nat, inflight: set<Command>, posted: set<nat>)
    requires PostOrder(log) && FlightInv(cmds, fetched, n, log, inflight, posted)
    requires x.entry.headPos == fetched && x.entry.request !in posted
    ensures PostOrder(log + [x])
  {
  }

  lemma HeadsAfterPost(log: seq<Comp.Tagged<Completion>>, x: Comp.Tagged<Completion>, creditCount: nat, headPos: nat)
    requires HeadsAhead(log, creditCount, headPos) && headPos <= x.entry.headPos
    ensures HeadsAhead(log + [x], creditCount, headPos)
  {
  }

  lemma RequestsPrefix(log: seq<Comp.Tagged<Completion>>, x: Comp.Tagged<Completion>, count: nat)
    requires count <= |log|
    ensures RequestsOf(log + [x], count) == RequestsOf(log, count)
    ensures RequestsOf(log + [x], |log| + 1) == RequestsOf(log, |log|) + {x.entry.request}
  {
    forall r | r in RequestsOf(log, count) ensures r in RequestsOf(log + [x], count) {
      var k :| 0 <= k < count && log[k].entry.request == r;
      assert (log + [x])[k].entry.request == r;
    }
    var all := log + [x];
    forall r | r in RequestsOf(log, |log|) + {x.entry.request} ensures r in RequestsOf(all, |log| + 1) {
      if r == x.entry.request {
        assert all[|log|].entry.request == r;
      } else {
        var k :| 0 <= k < |log| && log[k].entry.request == r;
        assert all[k].entry.request == r;
      }
    }
  }

  lemma PostedFlight(cmds: seq<Command>, fetched: nat, n: nat, log: seq<Comp.Tagged<Completion>>,
                     inflight: set<Command>, posted: set<nat>, cmd: Command, x: Comp.Tagged<Completion>)
    requires FlightInv(cmds, fetched, n, log, inflight, posted) && cmd in inflight
    requires forall r {:trigger cmds[r]} :: 0 <= r < |cmds| ==> cmds[r].request == r
    requires x.entry == Completion(cmd.id, Slot(fetched, n), cmd.request, fetched)
    ensures FlightInv(cmds, fetched, n, log + [x], inflight - {cmd}, posted + {cmd.request})
  {
  }

  // ------------------------------------------------------------------ completion thread

  lemma PollPreserves(s: State)
    requires Good(s) && CanPoll(s)
    ensures Good(Poll(s))
  {
    Comp.TagExact(s.cq);
    Comp.ActionPreserves(s.cq, Comp.Poll);
  }

  /** The entry in hand is still the one polled: its slot has not been given back. */
  lemma EntryInHand(q: Comp.Cq<Completion>, creditCount: nat)
    requires Comp.Inv(q) && q.released <= creditCount < q.consumed
    ensures creditCount < |q.log| && q.slots[Slot(creditCount, |q.slots|)] == q.log[creditCount]
  {
  }

  lemma SetSqHeadPreserves(s: State)
    requires Good(s) && CanSetSqHead(s)
    ensures Good(SetSqHead(s))
  {
    EntryInHand(s.cq, s.creditCount);
    var e := s.cq.log[s.creditCount].entry;
    assert EntryMatches(e, s.sq.log, s.sq.fetched, |s.sq.slots|);
    Sub.ActionPreserves(s.sq, Sub.UpdateHead(e.headPos));
    HeadsStayAhead(s.cq.log, s.creditCount);
    assert SetSqHead(s).sq == Sub.Apply(s.sq, Sub.UpdateHead(e.headPos));
  }

  lemma HeadsStayAhead(log: seq<Comp.Tagged<Completion>>, count: nat)
    requires PostOrder(log) && count < |log|
    ensures HeadsAhead(log, count, log[count].entry.headPos)
  {
  }

  lemma LoadRingPreserves(s: State)
    requires Good(s) && s.consumer.Loading?
    ensures Good(LoadRing(s))
  {
    EntryInHand(s.cq, s.creditCount);
    WalkFromHead(s.ring);
    ScanAfterLoad(s.consumer, LoadRing(s).consumer, s.ring.consumer, s.ring.log, s.ring.popped, s.ledger.ranges);
    assert EntryMatches(s.cq.log[s.creditCount].entry, s.sq.log, s.sq.fetched, |s.sq.slots|);
  }

  lemma ScanAfterLoad(c: ConsumerPc, c': ConsumerPc, popping: Rb.Consumer<Batch>, log: seq<Batch>, popped: nat,
                      ranges: seq<Range>)
    requires ScanInv(c, popping, log, popped, ranges) && c.Loading? && c'.Crediting?
    requires c'.head == Slot(popped, BATCH_INFO_BUFFER_SIZE) && c'.seen == |log|
    requires Walks(popped, c'.head, c'.stop, |log|)
    ensures ScanInv(c', popping, log, popped, ranges)
  {
  }

  /** The loop bound computed from head and tail is one past the newest batch. */
  lemma WalkFromHead(r: Rb.Ring<Batch>)
    requires Rb.Inv(r) && |r.slots| == BATCH_INFO_BUFFER_SIZE
    ensures Walks(r.popped, r.head, Stop(r.head, r.tail), |r.log|)
  {
    SlotShift(r.popped, |r.log| - r.popped, BATCH_INFO_BUFFER_SIZE);
  }

  lemma PopCheckPreserves(s: State)
    requires Good(s) && CanPopCheck(s)
    ensures Good(PopCheck(s))
  {
  }

  /** A step inside `pop`: it never finds the ring empty, and only its last store removes. */
  lemma RingAfterPop(r: Rb.Ring<Batch>)
    requires Rb.Inv(r) && r.popped < |r.log| && Rb.Enabled(r, NextPop(r))
    ensures var r' := Rb.Apply(r, NextPop(r));
            && Rb.Inv(r') && |r'.slots| == |r.slots|
            && r'.log == r.log && r'.producer == r.producer
            && r'.popped == (if r.consumer.ItemCopied? then r.popped + 1 else r.popped)
            && (r.consumer.ItemCopied? ==> r'.consumer.NotPopping? && r.consumer.item == r.log[r.popped])
            && (r.consumer.HeadLoaded? ==> r'.consumer.TailChecked?)
  {
    Rb.ActionRefines(r, NextPop(r));
    Rb.IndicesDecide(r);
  }

  lemma PopPreserves(s: State)
    requires Good(s) && CanPop(s)
    ensures Good(Pop(s))
  {
    RingAfterPop(s.ring);
    if s.ring.consumer.ItemCopied? {
      var c, i := s.consumer, s.ring.popped;
      assert RecordMatches(s.ring.log[i], s.ledger, i, s.credited);
      ScanAfterPop(c, s.ring.consumer, s.ring.log, i, s.ledger.ranges);
      FinishedAfterPop(s.ring.log, i, s.finished);
    }
  }

  lemma ScanAfterPop(c: ConsumerPc, popping: Rb.Consumer<Batch>, log: seq<Batch>, popped: nat, ranges: seq<Range>)
    requires ScanInv(c, popping, log, popped, ranges) && c.PopRunning?
    requires |ranges| == |log| && log[popped].endCmdid == ranges[popped].end
    ensures ScanInv(Publishing(c.idx, c.stop, c.seen, log[popped].endCmdid), Rb.NotPopping, log, popped + 1, ranges)
  {
    SlotNext(c.idx, BATCH_INFO_BUFFER_SIZE);
    SlotNext(popped, BATCH_INFO_BUFFER_SIZE);
  }

  lemma FinishedAfterPop(log: seq<Batch>, popped: nat, finished: seq<nat>)
    requires FinishedInv(log, popped, finished) && popped < |log| && IsComplete(log[popped])
    ensures FinishedInv(log, popped + 1, finished)
  {
  }

  lemma PublishPreserves(s: State)
    requires Good(s) && s.consumer.Publishing?
    ensures Good(Publish(s))
  {
    PublishedBatches(s);
    PublishedThreads(s);
  }

  lemma PublishedBatches(s: State)
    requires BatchesInv(s) && ThreadsInv(s) && s.consumer.Publishing?
    ensures BatchesInv(Publish(s)) == true
  {
    PublishIds(s.marker, s.ledger.ranges, s.published, LastId(s.producer, s.counter));
  }

  lemma PublishedThreads(s: State)
    requires IdsInv(s.marker, s.ledger.ranges, s.published, LastId(s.producer, s.counter))
    requires ThreadsInv(s) && s.consumer.Publishing?
    ensures ThreadsInv(Publish(s)) == true
  {
    PublishIds(s.marker, s.ledger.ranges, s.published, LastId(s.producer, s.counter));
  }

  lemma PublishIds(marker: Word, ranges: seq<Range>, published: nat, last: Word)
    requires IdsInv(marker, ranges, published, last) && published < |ranges|
    ensures 0 < ranges[published].end < WORD
    ensures IdsInv(ranges[published].end, ranges, published + 1, last)
    ensures forall r: Range :: Fits(Ids(marker, ranges, published, last), r)
                           ==> Fits(Ids(ranges[published].end, ranges, published + 1, last), r)
  {
  }

  lemma RingCqPreserves(s: State)
    requires Good(s) && CanRingCq(s)
    ensures Good(RingCq(s))
  {
  }
}
