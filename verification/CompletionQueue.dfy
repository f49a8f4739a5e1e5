/**
 The completion queue that NVMe controller and host share (NVM Express 1.1, section 4.6):
 the controller posts entries tagged with its phase, the host follows the tag and rings a
 doorbell to give slots back.
 */
module CompletionQueues {
  import opened Circular
  import CommandIds

  datatype Tagged<T> = Tagged(entry: T, phase: bool)

  /** The controller's tail, phase and known head; the host's head and phase; and history:
      everything posted, everything the host took, and how much it took and gave back. */
  datatype Cq<T> = Cq(
    slots: seq<Tagged<T>>, postAt: nat, postPhase: bool, doorbell: nat,
    head: nat, phase: bool,
    log: seq<Tagged<T>>, taken: seq<Tagged<T>>, consumed: nat, released: nat)

  datatype Action<T> =
    | Post(entry: T)
    | Poll
    | Ring

  /** A queue of `n` zeroed slots; the first lap uses phase 1. */
  function Fresh<T>(n: nat, zero: T): Cq<T> {
    Cq(seq(n, _ => Tagged(zero, false)), 0, true, 0, 0, true, [], [], 0, 0)
  }

  /** The controller posts only while the queue is not full. */
  predicate Enabled<T>(q: Cq<T>, a: Action<T>) {
    && q.postAt < |q.slots| && q.head < |q.slots|
    && (a.Post? ==> Next(q.postAt, |q.slots|) != q.doorbell)
  }

  /** The host finds an entry when the tag in its head slot is the phase it expects. */
  predicate Found<T>(q: Cq<T>)
    requires q.head < |q.slots|
  {
    q.slots[q.head].phase == q.phase
  }

  /** Advance an index and flip the phase at the end of the ring. */
  function Advance(at: nat, phase: bool, n: nat): (nat, bool)
    requires at < n
  {
    if at + 1 == n then (0, !phase) else (at + 1, phase)
  }

  function Apply<T>(q: Cq<T>, a: Action<T>): Cq<T>
    requires Enabled(q, a)
  {
    var n := |q.slots|;
    match a
    case Post(e) =>
      var x := Tagged(e, q.postPhase);
      var (at, phase) := Advance(q.postAt, q.postPhase, n);
      q.(slots := q.slots[q.postAt := x], postAt := at, postPhase := phase, log := q.log + [x])
    case Poll =>
      if !Found(q) then q else
        var (at, phase) := Advance(q.head, q.phase, n);
        q.(head := at, phase := phase, consumed := q.consumed + 1,
           taken := q.taken + [q.slots[q.head]])
    case Ring => q.(doorbell := q.head, released := q.consumed)
  }

  ghost predicate Inv<T>(q: Cq<T>) {
    var n := |q.slots|;
    && n > 0
    && q.released <= q.consumed <= |q.log| < q.released + n
    && q.postAt == Slot(|q.log|, n) && q.postPhase == OddLap(|q.log|, n)
    && q.head == Slot(q.consumed, n) && q.phase == OddLap(q.consumed, n)
    && q.doorbell == Slot(q.released, n)
    && Window(q.slots, q.log, q.released)
    && q.taken == q.log[..q.consumed]
    && Laps(q.log, n) && Stale(q.slots, |q.log|)
  }

  /** Every entry carries the tag of its lap. */
  ghost predicate Laps<T>(log: seq<Tagged<T>>, n: nat)
    requires n > 0
  {
    forall i {:trigger log[i]} :: 0 <= i < |log| ==> log[i].phase == OddLap(i, n)
  }

  /** From position `top` on for a lap, the slots carry the tag of the lap before. */
  ghost predicate Stale<T>(slots: seq<Tagged<T>>, top: nat)
    requires |slots| > 0
  {
    forall i {:trigger slots[Slot(i, |slots|)]} :: top <= i < top + |slots| ==>
      slots[Slot(i, |slots|)].phase == !OddLap(i, |slots|)
  }

  lemma FreshInv<T>(n: nat, zero: T)
    requires n > 0
    ensures Inv(Fresh(n, zero))
  {
  }

  /** The tag test is exact: it succeeds if and only if an unconsumed entry was posted, and
      then the head slot holds the oldest such entry. */
  lemma TagExact<T>(q: Cq<T>)
    requires Inv(q)
    ensures Found(q) <==> q.consumed < |q.log|
    ensures Found(q) ==> q.slots[q.head] == q.log[q.consumed]
  {
    if q.consumed == |q.log| {
      assert q.slots[Slot(q.consumed, |q.slots|)].phase == !OddLap(q.consumed, |q.slots|);
    } else {
      assert q.log[q.consumed].phase == OddLap(q.consumed, |q.slots|);
    }
  }

  /** The controller finds room exactly when fewer than `n - 1` entries are not given back. */
  lemma PostReady<T>(q: Cq<T>)
    requires Inv(q)
    ensures Next(q.postAt, |q.slots|) != q.doorbell <==> |q.log| + 1 < q.released + |q.slots|
  {
    var n := |q.slots|;
    SlotNext(|q.log|, n);
    if |q.log| + 1 < q.released + n {
      SlotDistinct(q.released, |q.log| + 1, n);
    } else {
      assert Slot(q.released + n, n) == Slot(q.released, n);
    }
  }

  lemma StaleAfterPost<T>(slots: seq<Tagged<T>>, top: nat, x: Tagged<T>)
    requires |slots| > 0 && Stale(slots, top) && x.phase == OddLap(top, |slots|)
    ensures Stale(slots[Slot(top, |slots|) := x], top + 1)
  {
    var n, slots' := |slots|, slots[Slot(top, |slots|) := x];
    forall i | top + 1 <= i < top + 1 + n ensures slots'[Slot(i, n)].phase == !OddLap(i, n) {
      if i < top + n {
        SlotDistinct(top, i, n);
        assert slots[Slot(i, n)].phase == !OddLap(i, n);
      } else {
        assert Slot(i, n) == Slot(top, n) && OddLap(i, n) == !OddLap(top, n);
      }
    }
  }

  lemma PostPreserves<T>(q: Cq<T>, e: T)
    requires Inv(q) && Enabled(q, Post(e))
    ensures Inv(Apply(q, Post(e))) == true
  {
    PostReady(q);
    SlotNext(|q.log|, |q.slots|);
    WindowExtends(q.slots, q.log, q.released, Tagged(e, q.postPhase));
    StaleAfterPost(q.slots, |q.log|, Tagged(e, q.postPhase));
  }

  lemma ActionPreserves<T>(q: Cq<T>, a: Action<T>)
    requires Inv(q) && Enabled(q, a)
    ensures Inv(Apply(q, a)) && |Apply(q, a).slots| == |q.slots|
  {
    match a
    case Post(e) => PostPreserves(q, e);
    case Poll =>
      TagExact(q);
      SlotNext(q.consumed, |q.slots|);
    case Ring =>
  }

  // ------------------------------------------------------------------ runs

  ghost predicate Schedule<T>(q: Cq<T>, actions: seq<Action<T>>)
    decreases |actions|
  {
    actions == [] || (Enabled(q, actions[0]) && Schedule(Apply(q, actions[0]), actions[1..]))
  }

  function Final<T>(q: Cq<T>, actions: seq<Action<T>>): Cq<T>
    requires Schedule(q, actions)
    decreases |actions|
  {
    if actions == [] then q else Final(Apply(q, actions[0]), actions[1..])
  }

  lemma {:induction false} RunPreserves<T>(q: Cq<T>, actions: seq<Action<T>>)
    requires Inv(q) && Schedule(q, actions)
    ensures Inv(Final(q, actions)) && |Final(q, actions).slots| == |q.slots|
    decreases |actions|
  {
    if actions != [] {
      ActionPreserves(q, actions[0]);
      RunPreserves(Apply(q, actions[0]), actions[1..]);
    }
  }

  /** Over any number of laps the host takes exactly the entries the controller posted, in
      order: never a stale one, never skipping one, and it stops only when none is left; its
      head and phase are the slot and the lap parity of the number taken. */
  lemma TakenInPostOrder<T>(n: nat, zero: T, actions: seq<Action<T>>)
    requires n > 0 && Schedule(Fresh(n, zero), actions)
    ensures var f := Final(Fresh(n, zero), actions);
            && f.taken <= f.log
            && f.head < |f.slots|
            && (Found(f) <==> |f.taken| < |f.log|)
            && f.head == Slot(|f.taken|, n)
            && f.phase == OddLap(|f.taken|, n)
  {
    FreshInv(n, zero);
    RunPreserves(Fresh(n, zero), actions);
    TagExact(Final(Fresh(n, zero), actions));
  }

  // ------------------------------------------------------------------ 16-bit head

  /** `increment_completion_head` on its 16-bit field. */
  function IncrementHead16(at: nat, phase: bool, n: nat): (nat, bool)
    requires at < CommandIds.WORD
  {
    var next := (at + 1) % CommandIds.WORD;
    if next == n then (0, !phase) else (next, phase)
  }

  /** The 16-bit increment advances the head and flips the phase as the protocol needs for
      every head, exactly for queues of at most 65535 entries; the standard allows 65536. */
  lemma HeadWidth(n: nat)
    requires 0 < n <= CommandIds.WORD
    ensures (forall at: nat, phase: bool :: at < n ==> IncrementHead16(at, phase, n) == Advance(at, phase, n))
            <==> n <= 0xffff
  {
    if n == CommandIds.WORD {
      assert IncrementHead16(0xffff, true, n) != Advance(0xffff, true, n);
    }
  }
}
