/**
 The producer's waits end.  Controller and completion thread can take only boundedly many
 steps while the producer spins, and when neither can take another the condition the producer
 spins on holds, except for one exactly described case: a batch that is too long for the ids.
 */
module NvmeProgress {
  import opened Sets
  import opened Circular
  import opened CommandIds
  import opened BatchManagers
  import opened Ledgers
  import opened NvmeSystem
  import opened NvmeProofs
  import opened NvmeCredit
  import opened NvmeRuns
  import Sub = SubmissionQueues
  import Comp = CompletionQueues
  import Rb = RingBuffers

  /** The steps of the controller and of the completion thread. */
  predicate Background(step: Step) {
    || step.SFetch? || step.SPost? || step.SPoll? || step.SSetSqHead? || step.SLoadRing? || step.SCredit?
    || step.SPopCheck? || step.SPop? || step.SPublish? || step.SRingCq?
  }

  // ------------------------------------------------------------------ what waiting relies on

  /** The submission head the host adopts from the first `m` completion entries. */
  function HeadAfter(log: seq<Comp.Tagged<Completion>>, m: nat): nat
    requires m <= |log|
  {
    if m == 0 then 0 else log[m - 1].entry.headPos
  }

  /** How many entries' submission heads the host has adopted. */
  function Adopted(c: ConsumerPc, creditCount: nat): nat {
    creditCount + if c.Loading? || c.Crediting? then 1 else 0
  }

  /** The end of the newest batch, 0 before there is one. */
  function LastEnd(ranges: seq<Range>): nat {
    if ranges == [] then 0 else ranges[|ranges| - 1].end
  }

  ghost predicate RungInv(p: ProducerPc, doorbellPos: nat, issued: nat) {
    p.Belling? || doorbellPos == issued
  }

  ghost predicate ReleasedInv(c: ConsumerPc, released: nat, consumed: nat) {
    c.Polling? ==> released == consumed
  }

  /** The host's head is the one reported last, and the controller's last report is current
      once nothing is in flight. */
  ghost predicate HeadInv(log: seq<Comp.Tagged<Completion>>, adopted: nat, headPos: nat, fetched: nat, inflight: set<Command>) {
    && adopted <= |log|
    && headPos == HeadAfter(log, adopted)
    && (inflight == {} ==> fetched == HeadAfter(log, |log|))
  }

  /** The counter stands at the end of the newest batch, or was just reset because the next
      batch would pass 0xffff. */
  ghost predicate CounterInv(p: ProducerPc, counter: Word, ranges: seq<Range>) {
    match p
    case Checking(job) => counter == LastEnd(ranges) || (counter == 0 && LastEnd(ranges) + job.length > 0xffff)
    case Pushing(job) => counter == LastEnd(ranges) || (counter == 0 && LastEnd(ranges) + job.length > 0xffff)
    case Allocating(_, _) => true
    case Reserving(_, _) => true
    case Writing(_, _) => true
    case Belling(_, _) => true
    case _ => counter == LastEnd(ranges)
  }

  ghost predicate LiveInv(s: State) {
    && RungInv(s.producer, s.sq.doorbellPos, |s.sq.log|)
    && ReleasedInv(s.consumer, s.cq.released, s.cq.consumed)
    && HeadInv(s.cq.log, Adopted(s.consumer, s.creditCount), s.sq.headPos, s.sq.fetched, s.inflight)
    && CounterInv(s.producer, s.counter, s.ledger.ranges)
  }

  lemma InitLive(n: nat, zero: Command)
    requires n > 0
    ensures LiveInv(Init(n, zero))
  {
  }

  lemma BackgroundKeepsLive(s: State, step: Step)
    requires Good(s) && LiveInv(s) && Enabled(s, step) && Background(step)
    ensures LiveInv(After(s, step))
  {
    match step
    case SPost(cmd) => PostKeepsLive(s, cmd);
    case SPoll => PollKeepsLive(s);
    case SSetSqHead => SetSqHeadKeepsLive(s);
    case SCredit => CreditKeepsLive(s);
    case SFetch => FetchKeepsLive(s);
    case SRingCq => RingCqKeepsLive(s);
    case _ => RingOnlyKeepsLive(s, step);
  }

  lemma RingOnlyKeepsLive(s: State, step: Step)
    requires LiveInv(s) && Enabled(s, step) && (step.SLoadRing? || step.SPopCheck? || step.SPop? || step.SPublish?)
    ensures LiveInv(After(s, step))
  {
  }

  lemma FetchKeepsLive(s: State)
    requires LiveInv(s) && CanFetch(s)
    ensures LiveInv(Fetch(s))
  {
  }

  lemma RingCqKeepsLive(s: State)
    requires LiveInv(s) && CanRingCq(s)
    ensures LiveInv(RingCq(s))
  {
  }

  lemma PostKeepsLive(s: State, cmd: Command)
    requires Comp.Inv(s.cq) && ThreadsInv(s) && LiveInv(s) && CanPost(s, cmd)
    ensures LiveInv(Post(s, cmd)) == true
  {
  }

  lemma PollKeepsLive(s: State)
    requires Comp.Inv(s.cq) && ThreadsInv(s) && LiveInv(s) && CanPoll(s)
    ensures LiveInv(Poll(s)) == true
  {
  }

  lemma SetSqHeadKeepsLive(s: State)
    requires Comp.Inv(s.cq) && SizesInv(s) && ThreadsInv(s) && LiveInv(s) && CanSetSqHead(s)
    ensures LiveInv(SetSqHead(s)) == true
  {
  }

  lemma CreditKeepsLive(s: State)
    requires LiveInv(s) && CanCredit(s)
    ensures LiveInv(CreditEntry(s))
  {
  }

  lemma PlanningKeepsLive(s: State, step: Step)
    requires ThreadsInv(s) && LiveInv(s) && Enabled(s, step)
    requires step.SBegin? || step.SFinishReset? || step.SPassCheck? || step.SPush? || step.SAlloc?
    ensures LiveInv(After(s, step)) == true
  {
    match step
    case SFinishReset => PlanIsContiguous(s.counter, s.producer.length);
    case _ =>
  }

  lemma IssuingKeepsLive(s: State, step: Step)
    requires ThreadsInv(s) && LiveInv(s) && Enabled(s, step)
    requires step.SReserve? || step.SWrite? || step.SRingSq? || step.SBeginWait? || step.SWaitRing? || step.SWaitReturn?
    ensures LiveInv(After(s, step)) == true
  {
  }

  lemma ProducerKeepsLive(s: State, step: Step)
    requires Good(s) && LiveInv(s) && Enabled(s, step) && !Background(step)
    ensures LiveInv(After(s, step)) == true
  {
    if step.SBegin? || step.SFinishReset? || step.SPassCheck? || step.SPush? || step.SAlloc? {
      PlanningKeepsLive(s, step);
    } else {
      IssuingKeepsLive(s, step);
    }
  }

  lemma {:induction false} RunKeepsLive(s: State, steps: seq<Step>)
    requires Good(s) && LiveInv(s) && Run(s, steps)
    ensures Good(Final(s, steps)) && LiveInv(Final(s, steps))
    decreases |steps|
  {
    if steps != [] {
      StepPreserves(s, steps[0]);
      if Background(steps[0]) {
        BackgroundKeepsLive(s, steps[0]);
      } else {
        ProducerKeepsLive(s, steps[0]);
      }
      RunKeepsLive(After(s, steps[0]), steps[1..]);
    }
  }

  // ------------------------------------------------------------------ bounded background work

  /** Steps left before the completion thread polls again, not counting the pops. */
  function Rank(c: ConsumerPc, popping: Rb.Consumer<Batch>): nat {
    match c
    case Polling => 0
    case Ringing => 1
    case PopRunning(_, _, _) =>
      (match popping
       case NotPopping => 5
       case HeadLoaded(_) => 4
       case TailChecked(_) => 3
       case ItemCopied(_, _) => 2)
    case Popping(_, _, _) => 6
    case Publishing(_, _, _, _) => 7
    case Crediting(_, _, _, _) => 8
    case Loading(_) => 9
    case Holding(_) => 10
  }

  /** An upper bound on the steps controller and completion thread can still take. */
  function Work(s: State): int {
    13 * (|s.sq.log| - s.sq.fetched) + 12 * (s.sq.fetched - |s.cq.log|) + 11 * (|s.cq.log| - s.cq.consumed)
    + 7 * (|s.ring.log| - s.ring.popped) + Rank(s.consumer, s.ring.consumer)
  }

  lemma PostedCount(s: State)
    requires Good(s)
    ensures |s.cq.log| <= s.sq.fetched
  {
    DistinctCount(s.cq.log, |s.cq.log|);
    PostedFetched(s.cq.log, s.posted, s.sq.log, s.sq.fetched, |s.sq.slots|, s.inflight);
    SubsetCount(s.posted, Below(s.sq.fetched));
  }

  lemma PollWork(s: State)
    requires Good(s) && CanPoll(s)
    ensures Work(Poll(s)) < Work(s)
  {
  }

  lemma CreditWork(s: State)
    requires CanCredit(s)
    ensures Work(CreditEntry(s)) < Work(s)
  {
  }

  lemma PopWork(s: State)
    requires Good(s) && CanPop(s)
    ensures Work(Pop(s)) < Work(s)
  {
    RingAfterPop(s.ring);
  }

  lemma WorkDecreases(s: State, step: Step)
    requires Good(s) && Enabled(s, step) && Background(step)
    ensures Work(After(s, step)) < Work(s)
  {
    match step
    case SPoll => PollWork(s);
    case SCredit => CreditWork(s);
    case SPop => PopWork(s);
    case _ => SimpleWork(s, step);
  }

  lemma SimpleWork(s: State, step: Step)
    requires Enabled(s, step) && Background(step) && !step.SPoll? && !step.SCredit? && !step.SPop?
    requires s.consumer.Popping? || s.consumer.Publishing? ==> s.ring.consumer.NotPopping?
    ensures Work(After(s, step)) < Work(s)
  {
  }

  predicate BackgroundRun(s: State, steps: seq<Step>)
    decreases |steps|
  {
    steps == [] || (Background(steps[0]) && Enabled(s, steps[0]) && BackgroundRun(After(s, steps[0]), steps[1..]))
  }

  /** While the producer spins, controller and completion thread take at most `Work` steps. */
  lemma {:induction false} BackgroundBounded(s: State, steps: seq<Step>)
    requires Good(s) && BackgroundRun(s, steps)
    ensures |steps| <= Work(s)
    decreases |steps|
  {
    PostedCount(s);
    if steps != [] {
      WorkDecreases(s, steps[0]);
      StepPreserves(s, steps[0]);
      BackgroundBounded(After(s, steps[0]), steps[1..]);
    }
  }

  // ------------------------------------------------------------------ when nobody can step

  /** Everything rung has been fetched, completed, consumed and credited. */
  ghost predicate Drained(s: State) {
    && s.consumer.Polling? && s.cq.consumed == |s.cq.log|
    && s.inflight == {} && s.sq.fetched == s.sq.doorbellPos
  }

  /** As long as the system is not drained, controller or completion thread can take a step. */
  lemma SomeoneCanStep(s: State) returns (step: Step)
    requires Good(s) && LiveInv(s) && |s.cq.slots| >= 2 && !Drained(s)
    ensures Background(step) && Enabled(s, step)
  {
    match s.consumer
    case Polling =>
      if s.cq.consumed < |s.cq.log| {
        Comp.TagExact(s.cq);
        step := SPoll;
      } else if s.inflight != {} {
        var cmd :| cmd in s.inflight;
        Comp.PostReady(s.cq);
        step := SPost(cmd);
      } else {
        Sub.FetchReady(s.sq);
        step := SFetch;
      }
    case Holding(_) => EntryInHand(s.cq, s.creditCount); step := SSetSqHead;
    case Loading(_) => step := SLoadRing;
    case Crediting(_, _, _, _) => CreditNeverStops(s); step := SCredit;
    case Popping(_, _, _) => step := SPopCheck;
    case PopRunning(_, _, _) => step := SPop;
    case Publishing(_, _, _, _) => step := SPublish;
    case Ringing => step := SRingCq;
  }

  /** A drained system has credited every issued request and reported every slot free. */
  lemma DrainedCredits(s: State)
    requires Good(s) && LiveInv(s) && Drained(s) && !s.producer.Belling?
    ensures forall r :: 0 <= r < |s.sq.log| ==> r in s.credited
    ensures s.sq.headPos == |s.sq.log|
  {
    forall r | 0 <= r < |s.sq.log| ensures r in s.credited {
      ExactlyOnePlace(s, r);
      assert IsIn(s, r, PlaceOf(s, r));
    }
  }

  /** Between batches a drained system has popped every batch, and the marker is the end of the
      newest one. */
  lemma DrainedPopped(s: State)
    requires Good(s) && LiveInv(s) && Drained(s) && !s.producer.Belling? && |s.sq.log| == |s.ledger.owner|
    ensures s.ring.popped == |s.ring.log| && s.marker == LastEnd(s.ledger.ranges)
  {
    DrainedCredits(s);
    var i := s.ring.popped;
    if i < |s.ring.log| {
      assert RecordMatches(s.ring.log[i], s.ledger, i, s.credited);
      forall r: nat | Owns(s.ledger, i, r) ensures r in s.credited {
        assert s.ledger.ranges[i] == s.ledger.ranges[i];
      }
      FullyCredited(s.ledger, i, s.credited);
      assert false;
    }
  }

  /** The producer is spinning and the condition it waits for does not hold. */
  predicate Spins(s: State) {
    match s.producer
    case Resetting(_) => !CanFinishReset(s)
    case Checking(_) => !CanPassCheck(s)
    case Pushing(_) => s.ring.producer.TailLoaded? && s.ring.producer.at < |s.ring.slots|
                       && Circular.Next(s.ring.producer.at, |s.ring.slots|) == s.ring.head
    case Reserving(_, _) => !CanReserve(s)
    case Waiting => !CanWaitReturn(s)
    case _ => false
  }

  /** The batch needs ids that its predecessor's end forbids: it starts again at 1 and is not
      shorter than the newest end. */
  predicate TooLong(s: State) {
    s.producer.Checking? &&
    var last := LastEnd(s.ledger.ranges);
    last + s.producer.job.length > 0xffff && s.producer.job.length >= last
  }

  /** Once drained, the producer still spins exactly when its batch is too long. */
  lemma DrainedUnblocks(s: State)
    requires Good(s) && LiveInv(s) && Drained(s) && |s.cq.slots| >= 2
    ensures Spins(s) <==> TooLong(s)
  {
    match s.producer
    case Resetting(_) => DrainedPopped(s);
    case Checking(job) => DrainedPopped(s); PlanIsContiguous(s.counter, job.length);
    case Pushing(_) => DrainedPopped(s); Rb.IndicesDecide(s.ring);
    case Reserving(_, _) => DrainedCredits(s); Sub.ReserveReady(s.sq);
    case Waiting => DrainedPopped(s); Rb.IndicesDecide(s.ring);
    case _ =>
  }

  /** A producer that does not spin can take a step. */
  lemma ProducerCanStep(s: State) returns (step: Step)
    requires Sub.Inv(s.sq) && Rb.Inv(s.ring) && !Spins(s)
    requires ProducerInv(s.producer, s.counter, s.marker, |s.sq.log|, s.sq.reserved, s.ledger)
    ensures !Background(step) && Enabled(s, step)
  {
    match s.producer
    case Idle => step := SBegin(1);
    case Resetting(_) => step := SFinishReset;
    case Checking(_) => step := SPassCheck;
    case Pushing(_) => step := SPush;
    case Allocating(_, _) => step := SAlloc;
    case Reserving(_, _) => step := SReserve;
    case Writing(_, _) => step := SWrite;
    case Belling(_, _) => step := SRingSq;
    case WaitRinging => step := SWaitRing;
    case Waiting => step := SWaitReturn;
  }

  /** Then nobody can ever take a step again. */
  lemma TooLongStops(s: State, step: Step)
    requires Good(s) && LiveInv(s) && Drained(s) && TooLong(s) && |s.cq.slots| >= 2
    ensures !Enabled(s, step)
  {
    DrainedUnblocks(s);
    if step.SPoll? {
      Comp.TagExact(s.cq);
    } else if step.SFetch? {
      Sub.FetchReady(s.sq);
    }
  }

  /** In every run, on a queue of at least two entries: whenever the producer spins, either
      controller or completion thread can take a step, or the batch is too long; and no batch of
      at most 0x7fff commands is ever too long. */
  lemma NoDeadlock(n: nat, zero: Command, steps: seq<Step>)
    requires n >= 2 && Run(Init(n, zero), steps)
    ensures var f := Final(Init(n, zero), steps);
            && (Spins(f) ==> TooLong(f) || exists step :: Background(step) && Enabled(f, step))
            && (TooLong(f) ==> f.producer.job.length > 0x7fff)
  {
    InitInv(n, zero);
    InitLive(n, zero);
    RunKeepsLive(Init(n, zero), steps);
    SlotsKept(Init(n, zero), steps);
    var f := Final(Init(n, zero), steps);
    if !Drained(f) {
      var step := SomeoneCanStep(f);
    } else {
      DrainedUnblocks(f);
    }
  }

  lemma {:induction false} BackgroundIsRun(s: State, steps: seq<Step>)
    requires BackgroundRun(s, steps)
    ensures Run(s, steps)
    decreases |steps|
  {
    if steps != [] {
      BackgroundIsRun(After(s, steps[0]), steps[1..]);
    }
  }

  /** Waits end: after any run let controller and completion thread go on as long as they can.  They
      stop after at most `Work` steps, and then the producer does not spin and can take a step, unless
      its batch is too long. */
  lemma WaitsEnd(n: nat, zero: Command, steps: seq<Step>, more: seq<Step>)
    requires n >= 2 && Run(Init(n, zero), steps) && BackgroundRun(Final(Init(n, zero), steps), more)
    ensures var f := Final(Init(n, zero), steps);
            && |more| <= Work(f) && Run(f, more)
            && var g := Final(f, more);
               (exists step :: Background(step) && Enabled(g, step))
               || TooLong(g) || (!Spins(g) && exists step :: !Background(step) && Enabled(g, step))
  {
    InitInv(n, zero);
    InitLive(n, zero);
    RunKeepsLive(Init(n, zero), steps);
    SlotsKept(Init(n, zero), steps);
    var f := Final(Init(n, zero), steps);
    BackgroundBounded(f, more);
    BackgroundIsRun(f, more);
    RunKeepsLive(f, more);
    SlotsKept(f, more);
    SomeoneOrProducer(Final(f, more));
  }

  lemma SomeoneOrProducer(g: State)
    requires Good(g) && LiveInv(g) && |g.cq.slots| >= 2
    ensures (exists step :: Background(step) && Enabled(g, step))
            || TooLong(g) || (!Spins(g) && exists step :: !Background(step) && Enabled(g, step))
  {
    if !Drained(g) {
      var step := SomeoneCanStep(g);
    } else {
      DrainedUnblocks(g);
      if !Spins(g) {
        var step := ProducerCanStep(g);
      }
    }
  }

  lemma {:induction false} SlotsKept(s: State, steps: seq<Step>)
    requires Run(s, steps)
    ensures |Final(s, steps).cq.slots| == |s.cq.slots|
    decreases |steps|
  {
    if steps != [] {
      SlotsKept(After(s, steps[0]), steps[1..]);
    }
  }
}
