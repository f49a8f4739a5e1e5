/**
 History of the batches of one queue: which ids and which requests each batch was given.
 Requests are numbered in issue order; batch `i` owns the requests from `bases[i]` on, as
 many as its range has ids.
 */
module Ledgers {
  import opened CommandIds

  datatype Ledger = Ledger(ranges: seq<Range>, bases: seq<nat>, owner: seq<nat>)

  const EMPTY := Ledger([], [], [])

  function Size(r: Range): nat {
    if r.start <= r.end then r.end - r.start + 1 else 0
  }

  /** Request `r` belongs to batch `i`. */
  predicate Owns(l: Ledger, i: nat, r: nat)
    requires i < |l.ranges| == |l.bases|
  {
    l.bases[i] <= r < l.bases[i] + Size(l.ranges[i])
  }

  /** The id that request `r` is issued under. */
  function IdOf(l: Ledger, r: nat): int
    requires LedgerInv(l) && r < |l.owner|
  {
    l.ranges[l.owner[r]].start + (r - l.bases[l.owner[r]])
  }

  ghost predicate LedgerInv(l: Ledger) {
    && |l.ranges| == |l.bases|
    && (forall i {:trigger l.ranges[i]} :: 0 <= i < |l.ranges| ==>
          0 < l.ranges[i].start <= l.ranges[i].end < WORD && l.bases[i] + Size(l.ranges[i]) <= |l.owner|)
    && (forall r {:trigger l.owner[r]} :: 0 <= r < |l.owner| ==> l.owner[r] < |l.ranges| && Owns(l, l.owner[r], r))
    && (forall i, r {:trigger Owns(l, i, r)} :: 0 <= i < |l.ranges| && 0 <= r && Owns(l, i, r) ==> l.owner[r] == i)
  }

  /** Record a new batch that takes the ids of `r` and the next `Size(r)` requests. */
  function AddBatch(l: Ledger, r: Range): Ledger {
    Ledger(l.ranges + [r], l.bases + [|l.owner|], l.owner + seq(Size(r), _ => |l.ranges|))
  }

  lemma AddPreserves(l: Ledger, r: Range)
    requires LedgerInv(l) && 0 < r.start <= r.end < WORD
    ensures LedgerInv(AddBatch(l, r))
    ensures |AddBatch(l, r).owner| == |l.owner| + Size(r)
  {
    var l' := AddBatch(l, r);
    forall q | 0 <= q < |l'.owner| ensures l'.owner[q] < |l'.ranges| && Owns(l', l'.owner[q], q) {
      if q < |l.owner| {
        assert Owns(l, l.owner[q], q);
      }
    }
    forall i, q | 0 <= i < |l'.ranges| && 0 <= q && Owns(l', i, q) ensures l'.owner[q] == i {
      if i < |l.ranges| {
        assert Owns(l, i, q);
      }
    }
  }

  // ------------------------------------------------------------------ credits

  /** How many of the requests from `lo` up to `hi` are credited. */
  function CountIn(credited: set<nat>, lo: nat, hi: nat): (n: nat)
    requires lo <= hi
    ensures n <= hi - lo
    decreases hi - lo
  {
    if lo == hi then 0 else CountIn(credited, lo, hi - 1) + if hi - 1 in credited then 1 else 0
  }

  lemma {:induction false} CountAdds(credited: set<nat>, r: nat, lo: nat, hi: nat)
    requires lo <= hi && r !in credited
    ensures CountIn(credited + {r}, lo, hi) == CountIn(credited, lo, hi) + if lo <= r < hi then 1 else 0
    decreases hi - lo
  {
    if lo < hi {
      CountAdds(credited, r, lo, hi - 1);
    }
  }

  lemma {:induction false} CountFull(credited: set<nat>, lo: nat, hi: nat)
    requires lo <= hi
    ensures CountIn(credited, lo, hi) == hi - lo <==> forall r :: lo <= r < hi ==> r in credited
    decreases hi - lo
  {
    if lo < hi {
      CountFull(credited, lo, hi - 1);
    }
  }

  lemma {:induction false} CountNone(credited: set<nat>, lo: nat, hi: nat)
    requires lo <= hi && forall r :: r in credited ==> r < lo
    ensures CountIn(credited, lo, hi) == 0
    decreases hi - lo
  {
    if lo < hi {
      CountNone(credited, lo, hi - 1);
    }
  }

  /** How many of the batch's requests are credited. */
  function Credits(l: Ledger, i: nat, credited: set<nat>): (n: nat)
    requires i < |l.ranges| == |l.bases|
    ensures n <= Size(l.ranges[i])
  {
    CountIn(credited, l.bases[i], l.bases[i] + Size(l.ranges[i]))
  }

  /** A batch has all its credits exactly when every one of its requests is credited. */
  lemma FullyCredited(l: Ledger, i: nat, credited: set<nat>)
    requires i < |l.ranges| == |l.bases|
    ensures Credits(l, i, credited) == Size(l.ranges[i]) <==> forall r: nat :: Owns(l, i, r) ==> r in credited
  {
    CountFull(credited, l.bases[i], l.bases[i] + Size(l.ranges[i]));
    if forall r: nat :: Owns(l, i, r) ==> r in credited {
      forall r | l.bases[i] <= r < l.bases[i] + Size(l.ranges[i]) ensures r in credited {
        assert Owns(l, i, r);
      }
    }
  }

  /** Crediting a new request adds one to its own batch and nothing to any other. */
  lemma CreditOne(l: Ledger, r: nat, i: nat, credited: set<nat>)
    requires LedgerInv(l) && r < |l.owner| && i < |l.ranges| && r !in credited
    ensures Credits(l, i, credited + {r}) == Credits(l, i, credited) + if i == l.owner[r] then 1 else 0
  {
    CountAdds(credited, r, l.bases[i], l.bases[i] + Size(l.ranges[i]));
    assert Owns(l, l.owner[r], r);
    assert Owns(l, i, r) <==> i == l.owner[r];
  }

  /** Requests not issued yet have no credits. */
  lemma NoCredits(l: Ledger, range: Range, credited: set<nat>)
    requires |l.ranges| == |l.bases| && forall r :: r in credited ==> r < |l.owner|
    ensures Credits(AddBatch(l, range), |l.ranges|, credited) == 0
  {
    CountNone(credited, |l.owner|, |l.owner| + Size(range));
  }

  /** Adding a batch changes nothing about the earlier ones. */
  lemma AddKeeps(l: Ledger, range: Range, i: nat, credited: set<nat>)
    requires |l.ranges| == |l.bases| && i < |l.ranges|
    ensures AddBatch(l, range).ranges[i] == l.ranges[i]
    ensures Credits(AddBatch(l, range), i, credited) == Credits(l, i, credited)
  {
  }
}
