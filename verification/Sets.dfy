/** Finite sets of numbers. */
module Sets {

  /** The numbers below `n`. */
  function Below(n: nat): (s: set<nat>)
    ensures forall r :: r in s <==> 0 <= r < n
    ensures |s| == n
  {
    if n == 0 then {} else Below(n - 1) + {n - 1}
  }

  lemma {:induction false} SubsetCount(a: set<nat>, b: set<nat>)
    requires a <= b
    ensures |a| <= |b|
    decreases |a|
  {
    if a != {} {
      var x :| x in a;
      SubsetCount(a - {x}, b - {x});
    }
  }
}
