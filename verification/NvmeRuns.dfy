/**
 What holds in every run of the NVMe queue pair.
 */
module NvmeRuns {
  import opened Sets
  import opened CommandIds
  import opened BatchManagers
  import opened Ledgers
  import opened NvmeSystem
  import opened NvmeProofs
  import opened NvmeCredit
  import Comp = CompletionQueues
  import Rb = RingBuffers

  /** The one hypothesis on use: a batch whose ids wrap is begun only after some batch has
      finished and its end was published as the marker. */
  predicate StartsInTime(s: State, step: Step) {
    step.SBegin? ==> (Wraps(s.counter, step.length) ==> s.marker != 0)
  }

  lemma HostStepPreserves(s: State, step: Step)
    requires Good(s) && Enabled(s, step) && StartsInTime(s, step)
    requires step.SBegin? || step.SFinishReset? || step.SPassCheck? || step.SPush? || step.SAlloc? || step.SReserve?
          || step.SWrite? || step.SRingSq? || step.SBeginWait? || step.SWaitRing? || step.SWaitReturn?
    ensures Good(After(s, step))
  {
    match step
    case SBegin(length) => BeginPreserves(s, length);
    case SFinishReset => FinishResetPreserves(s);
    case SPassCheck => PassCheckPreserves(s);
    case SPush => PushPreserves(s);
    case SAlloc => AllocPreserves(s);
    case SReserve => ReservePreserves(s);
    case SWrite => WritePreserves(s);
    case SRingSq => RingSqPreserves(s);
    case SBeginWait => BeginWaitPreserves(s);
    case SWaitRing => WaitRingPreserves(s);
    case SWaitReturn => WaitReturnPreserves(s);
  }

  /** Every step of every party keeps the invariant. */
  lemma StepPreserves(s: State, step: Step)
    requires Good(s) && Enabled(s, step) && StartsInTime(s, step)
    ensures Good(After(s, step))
  {
    match step
    case SFetch => FetchPreserves(s);
    case SPost(cmd) => PostPreserves(s, cmd);
    case SPoll => PollPreserves(s);
    case SSetSqHead => SetSqHeadPreserves(s);
    case SLoadRing => LoadRingPreserves(s);
    case SCredit => CreditPreserves(s);
    case SPopCheck => PopCheckPreserves(s);
    case SPop => PopPreserves(s);
    case SPublish => PublishPreserves(s);
    case SRingCq => RingCqPreserves(s);
    case _ => HostStepPreserves(s, step);
  }

  // ------------------------------------------------------------------ runs

  /** Any interleaving of the three parties' steps that meets the hypothesis on use. */
  predicate Run(s: State, steps: seq<Step>)
    decreases |steps|
  {
    steps == [] || (Enabled(s, steps[0]) && StartsInTime(s, steps[0]) && Run(After(s, steps[0]), steps[1..]))
  }

  function Final(s: State, steps: seq<Step>): State
    requires Run(s, steps)
    decreases |steps|
  {
    if steps == [] then s else Final(After(s, steps[0]), steps[1..])
  }

  lemma {:induction false} RunPreserves(s: State, steps: seq<Step>)
    requires Good(s) && Run(s, steps)
    ensures Good(Final(s, steps))
    decreases |steps|
  {
    if steps != [] {
      StepPreserves(s, steps[0]);
      RunPreserves(After(s, steps[0]), steps[1..]);
    }
  }

  // ------------------------------------------------------------------ where a command is

  datatype Place = Unfetched | InFlight | Uncredited | Credited

  /** Some completion entry that has not been credited carries the request. */
  ghost predicate InQueue(log: seq<Comp.Tagged<Completion>>, creditCount: nat, r: nat) {
    exists k :: creditCount <= k < |log| && log[k].entry.request == r
  }

  ghost predicate IsIn(s: State, r: nat, p: Place)
    requires r < |s.sq.log|
  {
    match p
    case Unfetched => r >= s.sq.fetched
    case InFlight => s.sq.log[r] in s.inflight
    case Uncredited => InQueue(s.cq.log, s.creditCount, r)
    case Credited => r in s.credited
  }

  ghost function PlaceOf(s: State, r: nat): Place {
    if r >= s.sq.fetched then Unfetched
    else if r !in s.posted then InFlight
    else if r in s.credited then Credited
    else Uncredited
  }

  /** At every moment each issued command is in exactly one place: still in the submission
      queue, in the controller, in the completion queue, or credited to its batch. */
  lemma ExactlyOnePlace(s: State, r: nat)
    requires Good(s) && r < |s.sq.log|
    ensures forall p :: IsIn(s, r, p) <==> p == PlaceOf(s, r)
  {
  }

  // ------------------------------------------------------------------ waiting

  lemma {:induction false} DistinctCount(log: seq<Comp.Tagged<Completion>>, count: nat)
    requires PostOrder(log) && count <= |log|
    ensures |RequestsOf(log, count)| == count
    decreases count
  {
    if count == 0 {
      assert RequestsOf(log, 0) == {};
    } else {
      DistinctCount(log, count - 1);
      var credited := RequestsOf(log, count - 1);
      HeldIsFresh(log, count - 1, credited);
    }
  }

  /** Once the batch ring is empty every batch is finished, so every request was credited. */
  lemma EmptyMeansCredited(s: State, r: nat)
    requires Good(s) && s.ring.popped == |s.ring.log| && r < |s.ledger.owner|
    ensures r in s.credited
  {
    var i := s.ledger.owner[r];
    assert IsComplete(s.ring.log[i]);
    assert RecordMatches(s.ring.log[i], s.ledger, i, s.credited);
    assert Owns(s.ledger, i, r);
    FullyCredited(s.ledger, i, s.credited);
  }

  /** In every run, when `wait_io_completion` returns, every command of every batch pushed so
      far has been issued and its completion has been processed exactly once: the requests
      credited are all the requests, and there were exactly as many credits as requests. */
  lemma WaitMeansDone(n: nat, zero: Command, steps: seq<Step>)
    requires n > 0 && Run(Init(n, zero), steps) && CanWaitReturn(Final(Init(n, zero), steps))
    ensures var f := Final(Init(n, zero), steps);
            && |f.sq.log| == |f.ledger.owner|
            && (forall r :: r in f.credited <==> 0 <= r < |f.sq.log|)
            && f.creditCount == |f.sq.log|
            && (forall i :: 0 <= i < |f.ring.log| ==> f.ring.log[i].counter == f.ring.log[i].total)
            && f.ring.output == f.ring.log
  {
    InitInv(n, zero);
    RunPreserves(Init(n, zero), steps);
    var f := Final(Init(n, zero), steps);
    Rb.IndicesDecide(f.ring);
    AllCredited(f);
    forall i | 0 <= i < |f.ring.log| ensures f.ring.log[i].counter == f.ring.log[i].total {
      assert IsComplete(f.ring.log[i]);
    }
  }

  lemma AllCredited(s: State)
    requires Good(s) && s.ring.popped == |s.ring.log| && |s.sq.log| == |s.ledger.owner|
    ensures forall r :: r in s.credited <==> 0 <= r < |s.sq.log|
    ensures s.creditCount == |s.sq.log|
  {
    CreditedIssued(s.cq.log, s.creditCount, s.credited, s.sq.log, s.sq.fetched, |s.sq.slots|, s.inflight, s.posted);
    forall r | 0 <= r < |s.sq.log| ensures r in s.credited {
      EmptyMeansCredited(s, r);
    }
    assert s.credited == Below(|s.sq.log|);
    DistinctCount(s.cq.log, s.creditCount);
  }

  /** In every run the last id allocated for a batch is the end recorded for it, and the ids
      of the batches the marker has not passed are pairwise disjoint. */
  lemma RunKeepsIds(n: nat, zero: Command, steps: seq<Step>)
    requires n > 0 && Run(Init(n, zero), steps)
    ensures var f := Final(Init(n, zero), steps);
            && (f.producer.Belling? && f.producer.k + 1 == f.producer.job.length ==> f.counter == f.producer.job.end)
            && (forall i, j :: f.published <= i < j < |f.ledger.ranges| ==>
                  Disjoint(f.ledger.ranges[i], f.ledger.ranges[j]))
  {
    InitInv(n, zero);
    RunPreserves(Init(n, zero), steps);
    var f := Final(Init(n, zero), steps);
    HeldDisjoint(IdsOf(f));
    forall i, j | f.published <= i < j < |f.ledger.ranges|
      ensures Disjoint(f.ledger.ranges[i], f.ledger.ranges[j])
    {
      assert Disjoint(IdsOf(f).held[i - f.published], IdsOf(f).held[j - f.published]);
    }
  }

  /** In every run each batch is reported finished at most once, exactly when all its requests
      have been credited; and no unfinished batch ever leaves the ring. */
  lemma FinishedExactly(n: nat, zero: Command, steps: seq<Step>, i: nat)
    requires n > 0 && Run(Init(n, zero), steps) && i < |Final(Init(n, zero), steps).ledger.ranges|
    ensures var f := Final(Init(n, zero), steps);
            && |f.ledger.ranges| == |f.ledger.bases|
            && (i in f.finished <==> forall r: nat :: Owns(f.ledger, i, r) ==> r in f.credited)
            && (forall j, k :: 0 <= j < k < |f.finished| ==> f.finished[j] != f.finished[k])
            && (i < f.ring.popped ==> i in f.finished)
  {
    InitInv(n, zero);
    RunPreserves(Init(n, zero), steps);
    var f := Final(Init(n, zero), steps);
    assert RecordMatches(f.ring.log[i], f.ledger, i, f.credited);
    FullyCredited(f.ledger, i, f.credited);
    assert i < f.ring.popped ==> IsComplete(f.ring.log[i]);
  }
}
