/**
 The 16-bit command identifiers of an NVMe queue: the counter arithmetic of the queue, and
 the single marker by which the batch manager decides that a range of ids is free.
 */
module CommandIds {

  const WORD := 0x10000

  /** A 16-bit unsigned value. */
  type Word = x: nat | x < WORD

  function Wrap(x: nat): Word {
    x % WORD
  }

  // ------------------------------------------------------------------ the counter

  /** Advance the counter, skipping 0, and use the new value as the id. */
  function AllocCmdid(counter: Word): Word {
    var c := Wrap(counter + 1);
    if c == 0 then 1 else c
  }

  /** The first id of the next batch, without allocating it. */
  function NextCmdid(counter: Word): Word {
    var id := Wrap(counter + 1);
    if id == 0 then 1 else id
  }

  /** The last id of the next batch of `length` commands, without allocating it. */
  function NextCmdidAfter(counter: Word, length: Word): Word
    requires length < 0xffff
  {
    var id := Wrap(counter + length);
    if id == 0 || id < counter then Wrap(id + 1) else id
  }

  /** The range of ids a batch will take: `reset` when the counter must go back to 0 first. */
  datatype Plan = Plan(reset: bool, start: Word, end: Word)

  function PlanBatch(counter: Word, length: Word): Plan
    requires length < 0xffff
  {
    var start, end := NextCmdid(counter), NextCmdidAfter(counter, length);
    if end < start then Plan(true, NextCmdid(0), NextCmdidAfter(0, length)) else Plan(false, start, end)
  }

  /** The ids run past the largest 16-bit value, so the batch starts again at 1. */
  predicate Wraps(counter: Word, length: Word) {
    counter + length > 0xffff
  }

  /** Whatever the counter, the planned ids are `length` consecutive non-zero ids; they follow
      the counter unless that would pass 0xffff, and then they are 1 to `length`. */
  lemma PlanIsContiguous(counter: Word, length: Word)
    requires 0 < length < 0xffff
    ensures var p := PlanBatch(counter, length);
            && 0 < p.start <= p.end
            && p.end - p.start + 1 == length
            && p.start == (if Wraps(counter, length) then 1 else counter + 1)
            && (p.reset ==> Wraps(counter, length))
  {
  }

  /** The value of the counter when the batch's ids are allocated. */
  function CounterAfterPlan(counter: Word, length: Word): Word
    requires length < 0xffff
  {
    if PlanBatch(counter, length).reset then 0 else counter
  }

  /** The ids handed out by `k` successive allocations. */
  function Allocate(counter: Word, k: nat): (ids: seq<Word>)
    ensures |ids| == k
    decreases k
  {
    if k == 0 then [] else
      var id := AllocCmdid(counter);
      [id] + Allocate(id, k - 1)
  }

  lemma {:induction false} AllocateAscends(counter: Word, k: nat)
    requires counter + k <= 0xffff
    ensures forall i :: 0 <= i < k ==> Allocate(counter, k)[i] == counter + 1 + i
    decreases k
  {
    if k > 0 {
      AllocateAscends(AllocCmdid(counter), k - 1);
    }
  }

  /** Allocating one id per command hands out exactly the planned range, in order, so the last
      id is the recorded end of the batch. */
  lemma AllocationFollowsPlan(counter: Word, length: Word)
    requires 0 < length < 0xffff
    ensures var p := PlanBatch(counter, length);
            var ids := Allocate(CounterAfterPlan(counter, length), length);
            && (forall i :: 0 <= i < length ==> ids[i] == p.start + i)
            && ids[length - 1] == p.end
  {
    PlanIsContiguous(counter, length);
    var c := CounterAfterPlan(counter, length);
    if c + length <= 0xffff {
      AllocateAscends(c, length);
    } else {
      assert c == 0xffff;
      AllocateAscends(AllocCmdid(c), length - 1);
    }
  }

  // ------------------------------------------------------------------ the marker

  /** The range lies entirely on one side of the marker. */
  predicate IsAvailable(start: Word, end: Word, marker: Word) {
    (start < marker && end < marker) || (start > marker && end > marker)
  }

  predicate CanReset(counter: Word, marker: Word) {
    marker <= counter
  }

  /** Once every earlier batch has drained the marker equals the counter; then the guards let
      the next batch through exactly when it does not wrap or is shorter than the counter. */
  lemma DrainedProgress(counter: Word, length: Word)
    requires 0 < length < 0xffff
    ensures var p := PlanBatch(counter, length);
            && CanReset(counter, counter)
            && (IsAvailable(p.start, p.end, counter) <==> !Wraps(counter, length) || length < counter)
  {
    PlanIsContiguous(counter, length);
  }

  /** A batch length is safe for every counter exactly when it is at most 0x7fff. */
  lemma ProgressBound(length: Word)
    requires 0 < length < 0xffff
    ensures (forall counter: Word :: DrainedPasses(counter, length)) <==> length <= 0x7fff
  {
    if length <= 0x7fff {
      forall counter: Word ensures DrainedPasses(counter, length) {
        DrainedProgress(counter, length);
      }
    } else {
      var counter: Word := WORD - length;
      DrainedProgress(counter, length);
      assert !DrainedPasses(counter, length);
    }
  }

  predicate DrainedPasses(counter: Word, length: Word)
    requires 0 < length < 0xffff
  {
    var p := PlanBatch(counter, length);
    && (p.reset ==> CanReset(counter, counter))
    && IsAvailable(p.start, p.end, counter)
  }

  /** The first failing case: a batch of 0x8000 commands at counter 0x8000 can never start. */
  lemma HalfRangeStuck()
    ensures !DrainedPasses(0x8000, 0x8000)
  {
  }

  // ------------------------------------------------------------------ the id space

  /** A contiguous range of ids held by a batch. */
  datatype Range = Range(start: nat, end: nat)

  predicate Disjoint(a: Range, b: Range) {
    a.end < b.start || b.end < a.start
  }

  /** The ranges handed out and not yet given back in order, the marker (the end of the last
      range given back, 0 before that), and the last id that is spoken for. */
  datatype IdSpace = IdSpace(marker: Word, held: seq<Range>, last: Word)

  /** Ids above the marker; when the ids have not wrapped they also end by `last`. */
  predicate High(s: IdSpace, r: Range) {
    s.marker < r.start && (s.marker <= s.last ==> r.end <= s.last)
  }

  /** Ids below the marker, taken since the ids wrapped. */
  predicate Low(s: IdSpace, r: Range) {
    s.last < s.marker && r.end <= s.last
  }

  /** An earlier range lies before a later one, or the ids wrapped between the two. */
  predicate Ordered(s: IdSpace, a: Range, b: Range) {
    || (High(s, a) && High(s, b) && a.end < b.start)
    || (Low(s, a) && Low(s, b) && a.end < b.start)
    || (High(s, a) && Low(s, b))
  }

  ghost predicate IdInv(s: IdSpace) {
    && (forall i :: 0 <= i < |s.held| ==>
          && 0 < s.held[i].start <= s.held[i].end < WORD
          && (High(s, s.held[i]) || Low(s, s.held[i])))
    && (forall i, j :: 0 <= i < j < |s.held| ==> Ordered(s, s.held[i], s.held[j]))
  }

  /** Held ranges never share an id. */
  lemma HeldDisjoint(s: IdSpace)
    requires IdInv(s)
    ensures forall i, j :: 0 <= i < j < |s.held| ==> Disjoint(s.held[i], s.held[j])
  {
  }

  /** A range that may be added: above everything, or below the marker and above `last`,
      or below the marker on the first lap after a wrap. */
  predicate Fits(s: IdSpace, r: Range) {
    && 0 < r.start <= r.end < WORD
    && (|| (s.marker <= s.last && s.last < r.start)
        || (s.last < s.marker && s.last < r.start && r.end < s.marker)
        || (s.marker <= s.last && r.end < s.marker))
  }

  function Take(s: IdSpace, r: Range): IdSpace
    requires r.end < WORD
  {
    IdSpace(s.marker, s.held + [r], r.end)
  }

  /** Give back the oldest range: the marker moves to its end. */
  function GiveBack(s: IdSpace): IdSpace
    requires |s.held| > 0 && s.held[0].end < WORD
  {
    IdSpace(s.held[0].end, s.held[1..], s.last)
  }

  lemma TakePreserves(s: IdSpace, r: Range)
    requires IdInv(s) && Fits(s, r)
    ensures IdInv(Take(s, r))
    ensures forall i :: 0 <= i < |s.held| ==> Disjoint(s.held[i], r)
  {
  }

  lemma GiveBackPreserves(s: IdSpace)
    requires IdInv(s) && |s.held| > 0
    ensures IdInv(GiveBack(s))
    ensures forall r: Range :: Fits(s, r) ==> Fits(GiveBack(s), r)
  {
  }

  /** After the reset check the counter may go back to 0 while the held ranges stay: it is
      safe once some range has been given back. */
  lemma ResetPreserves(s: IdSpace)
    requires IdInv(s) && CanReset(s.last, s.marker) && s.marker != 0
    ensures IdInv(s.(last := 0))
  {
  }

  /** Comparing the planned range with the single marker decides exactly whether it fits, provided a
      range has been given back before the ids first wrap. */
  lemma AvailableFits(s: IdSpace, length: Word)
    requires IdInv(s) && 0 < length < 0xffff
    requires Wraps(s.last, length) ==> s.marker != 0 && !PlanBatch(s.last, length).reset
    ensures var p := PlanBatch(s.last, length);
            IsAvailable(p.start, p.end, s.marker) <==> Fits(s, Range(p.start, p.end))
  {
    PlanIsContiguous(s.last, length);
  }

  /** One whole batch: plan, reset if needed, compare with the marker, take the range. */
  predicate PassesGuards(s: IdSpace, length: Word)
    requires 0 < length < 0xffff
  {
    var p := PlanBatch(s.last, length);
    (p.reset ==> CanReset(s.last, s.marker)) && IsAvailable(p.start, p.end, s.marker)
  }

  /** What must pass, whatever is still held.  A batch whose ids do not wrap waits only for ids ahead of
      it that are held since the ids last wrapped; one whose ids wrap waits until its ids are below the
      marker, and for a reset until nothing above the counter is held. */
  lemma GuardsPass(s: IdSpace, length: Word)
    requires 0 < length < 0xffff
    ensures PassesGuards(s, length) <==>
            if s.last + length <= 0xffff then s.marker <= s.last || s.last + length < s.marker
            else (length < s.marker || s.marker == 0) && (s.last < 0xffff ==> s.marker <= s.last)
  {
    PlanIsContiguous(s.last, length);
  }

  /** So a second batch need not wait for the first. */
  lemma SecondPasses(first: Word, second: Word)
    requires 0 < first && 0 < second && first + second <= 0xffff
    ensures first < 0xffff && second < 0xffff && PassesGuards(IdSpace(0, [Range(1, first)], first), second)
  {
    GuardsPass(IdSpace(0, [Range(1, first)], first), second);
  }

  /** Give back the `n` oldest ranges one after the other. */
  function GiveBackMany(s: IdSpace, n: nat): IdSpace
    requires n <= |s.held| && forall i {:trigger s.held[i]} :: 0 <= i < |s.held| ==> s.held[i].end < WORD
    decreases n
  {
    if n == 0 then s else GiveBackMany(GiveBack(s), n - 1)
  }

  lemma {:induction false} GiveBackManyPreserves(s: IdSpace, n: nat)
    requires IdInv(s) && n <= |s.held|
    ensures IdInv(GiveBackMany(s, n)) && GiveBackMany(s, n).held == s.held[n..]
    decreases n
  {
    if n > 0 {
      GiveBackPreserves(s);
      GiveBackManyPreserves(GiveBack(s), n - 1);
    }
  }

  /** Before any range was given back the marker is 0 and the held ranges are the ids 1 to `last`. */
  ghost predicate NothingGivenBack(s: IdSpace) {
    && s.marker == 0
    && (s.last > 0 ==> |s.held| > 0 && s.held[0].start == 1)
  }

  /** Exactly when the guards are enough.  For a batch that passed them, the new range is
      disjoint from every held range if and only if it does not wrap or some range has
      already been given back. */
  lemma GuardsExact(s: IdSpace, length: Word)
    requires IdInv(s) && 0 < length < 0xffff && PassesGuards(s, length)
    requires s.marker == 0 ==> NothingGivenBack(s)
    ensures var p := PlanBatch(s.last, length);
            (forall i :: 0 <= i < |s.held| ==> Disjoint(s.held[i], Range(p.start, p.end)))
              <==> (Wraps(s.last, length) ==> s.marker != 0)
  {
    PlanIsContiguous(s.last, length);
  }

  // ------------------------------------------------------------------ runs of the id space

  datatype IdStep = TakeIds(length: Word) | ReturnIds

  predicate CanStep(s: IdSpace, step: IdStep) {
    match step
    case TakeIds(length) => 0 < length < 0xffff && PassesGuards(s, length)
    case ReturnIds => |s.held| > 0 && s.held[0].end < WORD
  }

  function StepTo(s: IdSpace, step: IdStep): IdSpace
    requires CanStep(s, step)
  {
    match step
    case TakeIds(length) =>
      var p := PlanBatch(s.last, length);
      Take(s, Range(p.start, p.end))
    case ReturnIds => GiveBack(s)
  }

  predicate IdRun(s: IdSpace, steps: seq<IdStep>)
    decreases |steps|
  {
    steps == [] || (CanStep(s, steps[0]) && IdRun(StepTo(s, steps[0]), steps[1..]))
  }

  ghost predicate AlwaysDisjoint(s: IdSpace, steps: seq<IdStep>)
    requires IdRun(s, steps)
    decreases |steps|
  {
    && (forall i, j :: 0 <= i < j < |s.held| ==> Disjoint(s.held[i], s.held[j]))
    && (steps == [] || AlwaysDisjoint(StepTo(s, steps[0]), steps[1..]))
  }

  /** Somewhere in the run the ids wrap while the marker still has its initial value. */
  predicate WrapsEarly(s: IdSpace, steps: seq<IdStep>)
    requires IdRun(s, steps)
    decreases |steps|
  {
    && steps != []
    && (|| (steps[0].TakeIds? && Wraps(s.last, steps[0].length) && s.marker == 0)
        || WrapsEarly(StepTo(s, steps[0]), steps[1..]))
  }

  ghost predicate RunInv(s: IdSpace) {
    IdInv(s) && (s.marker == 0 ==> NothingGivenBack(s))
  }

  lemma IdStepPreserves(s: IdSpace, step: IdStep)
    requires RunInv(s) && CanStep(s, step)
    requires step.TakeIds? && Wraps(s.last, step.length) ==> s.marker != 0
    ensures RunInv(StepTo(s, step))
  {
    match step
    case TakeIds(length) =>
      var p := PlanBatch(s.last, length);
      PlanIsContiguous(s.last, length);
      if p.reset {
        ResetPreserves(s);
        var t := s.(last := 0);
        AvailableFits(t, length);
        TakePreserves(t, Range(p.start, p.end));
      } else {
        AvailableFits(s, length);
        TakePreserves(s, Range(p.start, p.end));
      }
    case ReturnIds => GiveBackPreserves(s);
  }

  /** Over whole runs: live ranges are pairwise disjoint at every moment if and only if the ids
      never wrap before the first range has been given back. */
  lemma {:induction false} DisjointForever(s: IdSpace, steps: seq<IdStep>)
    requires RunInv(s) && IdRun(s, steps)
    ensures AlwaysDisjoint(s, steps) <==> !WrapsEarly(s, steps)
    decreases |steps|
  {
    HeldDisjoint(s);
    if steps != [] {
      var t := StepTo(s, steps[0]);
      if steps[0].TakeIds? && Wraps(s.last, steps[0].length) && s.marker == 0 {
        PlanIsContiguous(s.last, steps[0].length);
        assert !Disjoint(t.held[0], t.held[|s.held|]);
      } else {
        IdStepPreserves(s, steps[0]);
        DisjointForever(t, steps[1..]);
      }
    }
  }

  /** The failing case from the start: two batches of 0x8000 commands, none given back.  Both
      pass the guards and receive the same ids. */
  lemma WrapBeforeFirstReturn()
    ensures var s0 := IdSpace(0, [], 0);
            var s1 := Take(s0, Range(1, 0x8000));
            && PassesGuards(s0, 0x8000) && PlanBatch(0, 0x8000) == Plan(false, 1, 0x8000)
            && IdInv(s1)
            && PassesGuards(s1, 0x8000) && PlanBatch(0x8000, 0x8000) == Plan(true, 1, 0x8000)
            && !Disjoint(s1.held[0], Range(1, 0x8000))
            && IdRun(s0, [TakeIds(0x8000), TakeIds(0x8000)]) && WrapsEarly(s0, [TakeIds(0x8000), TakeIds(0x8000)])
  {
  }
}
