/**
 Circular indexing, shared by every ring in the model.

 A ring of `n` slots is described by unbounded positions: position `i` lives in slot
 `Slot(i, n)`.  The drivers never compute a remainder; they add one and compare, which
 is `Next`.  `Window` says that the slots still hold the entries of a log from some
 position on, and the lemmas say what writing a slot does to such a window.
 */
module Circular {

  /** The slot of position `i` in a ring of `n` slots. */
  function Slot(i: nat, n: nat): (r: nat)
    requires n > 0
    ensures r < n
  {
    if i < n then i else Slot(i - n, n)
  }

  /** The parity of the lap on which position `i` lies: true on the first lap. */
  predicate OddLap(i: nat, n: nat)
    requires n > 0
  {
    if i < n then true else !OddLap(i - n, n)
  }

  /** Increment and compare, as the drivers step an index. */
  function Next(x: nat, n: nat): (r: nat)
    requires x < n
    ensures r < n
  {
    if x + 1 == n then 0 else x + 1
  }

  /** The slot is the remainder, which is how the receive path computes it. */
  lemma {:induction false} SlotIsRemainder(i: nat, n: nat)
    requires n > 0
    ensures Slot(i, n) == i % n
  {
    if i >= n {
      SlotIsRemainder(i - n, n);
      RemainderOfLap(i, n);
    }
  }

  lemma NextIsRemainder(x: nat, n: nat)
    requires x < n
    ensures (x + 1) % n == Next(x, n)
  {
  }

  lemma RemainderOfLap(i: nat, n: nat)
    requires 0 < n <= i
    ensures i % n == (i - n) % n
  {
    var q, r, q', r' := i / n, i % n, (i - n) / n, (i - n) % n;
    assert i == q * n + r && i - n == q' * n + r';
    var d := q - q' - 1;
    assert d * n == r' - r by {
      assert d * n == q * n - q' * n - n;
    }
    if d >= 1 {
      MulAtLeast(d, n);
    } else if d <= -1 {
      MulAtLeast(-d, n);
    }
  }

  lemma MulAtLeast(d: int, n: nat)
    requires d >= 1
    ensures d * n >= n
  {
  }

  lemma {:induction false} SlotNext(i: nat, n: nat)
    requires n > 0
    ensures Slot(i + 1, n) == Next(Slot(i, n), n)
    ensures OddLap(i + 1, n) == (if Slot(i, n) + 1 == n then !OddLap(i, n) else OddLap(i, n))
  {
    if i >= n {
      SlotNext(i - n, n);
    }
  }

  lemma {:induction false} SlotDistinct(i: nat, j: nat, n: nat)
    requires n > 0 && i < j < i + n
    ensures Slot(i, n) != Slot(j, n)
  {
    if i >= n {
      SlotDistinct(i - n, j - n, n);
    }
  }

  lemma {:induction false} SlotShift(i: nat, k: nat, n: nat)
    requires n > 0
    ensures Slot(Slot(i, n) + k, n) == Slot(i + k, n)
  {
    if i >= n {
      SlotShift(i - n, k, n);
    }
  }

  /** How far apart two positions are can be read off their slots. */
  lemma {:induction false} SlotDistance(a: nat, b: nat, n: nat)
    requires n > 0 && a <= b < a + n
    ensures b - a == if Slot(a, n) > Slot(b, n) then n - Slot(a, n) + Slot(b, n) else Slot(b, n) - Slot(a, n)
  {
    if a >= n {
      SlotDistance(a - n, b - n, n);
    }
  }

  /** From position `lo` on, the slots hold the entries of the log. */
  ghost predicate Window<T>(slots: seq<T>, log: seq<T>, lo: nat)
    requires |slots| > 0
  {
    forall i {:trigger log[i]} :: lo <= i < |log| ==> slots[Slot(i, |slots|)] == log[i]
  }

  /** Writing the slot of the next position extends a window that does not fill the ring. */
  lemma WindowExtends<T>(slots: seq<T>, log: seq<T>, lo: nat, x: T)
    requires |slots| > 0 && Window(slots, log, lo)
    requires lo <= |log| < lo + |slots|
    ensures Window(slots[Slot(|log|, |slots|) := x], log + [x], lo)
  {
    var n := |slots|;
    forall i | lo <= i < |log| ensures Slot(i, n) != Slot(|log|, n) {
      SlotDistinct(i, |log|, n);
    }
  }

  /** Replacing one entry of a window that fits the ring replaces exactly that entry. */
  lemma WindowAmends<T>(slots: seq<T>, log: seq<T>, lo: nat, k: nat, x: T)
    requires |slots| > 0 && Window(slots, log, lo)
    requires lo <= k < |log| <= lo + |slots|
    ensures Window(slots[Slot(k, |slots|) := x], log[k := x], lo)
  {
    var n := |slots|;
    forall i | lo <= i < |log| && i != k ensures Slot(i, n) != Slot(k, n) {
      SlotDistinct(if i < k then i else k, if i < k then k else i, n);
    }
  }
}
