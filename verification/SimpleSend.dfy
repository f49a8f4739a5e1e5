/**
 The simple send path of the X540 driver: one descriptor per packet, a status request on the last
 descriptor of every block of 64, and whole blocks reclaimed by one done bit.
 */
module SimpleSend {
  import opened Circular
  import opened TxThresholds

  /** The last slot of the block a slot or position lies in. */
  function BlockEnd(x: nat): nat {
    x - Offset(x) + 63
  }

  /** The place in its block. */
  function Offset(x: nat): (o: nat)
    ensures o < 64 && o <= x
  {
    OffsetBound(x);
    Slot(x, 64)
  }

  lemma {:induction false} OffsetBound(x: nat)
    ensures Slot(x, 64) <= x
  {
  }

  predicate IsEnd(x: nat) {
    Offset(x) == 63
  }

  // ------------------------------------------------------------------ one call's requests

  datatype Cursor = Cursor(tail: nat, nextRs: nat)

  /** Where the tail and the next request are after the tail moved, and the slots requested: at most
      one, however far the tail moved. */
  function Request(tail: nat, nextRs: nat, n: nat): (Cursor, seq<nat>) {
    var next := if nextRs + 64 >= n then 63 else nextRs + 64;
    var c := if tail > nextRs then Cursor(tail, next) else Cursor(tail, nextRs);
    (c.(tail := if tail >= n then 0 else tail), if tail > nextRs then [nextRs] else [])
  }

  /** What a call that sends `nb` packets does to the cursor, and the slots it requests. */
  function Advance(c: Cursor, nb: nat, n: nat): (Cursor, seq<nat>)
    requires c.tail < n
  {
    if c.tail + nb > n then
      var (c', rs) := Request(c.tail + nb - n, 63, n);
      (c', [c.nextRs] + rs)
    else Request(c.tail + nb, c.nextRs, n)
  }

  /** The block ends from `lo` up to `hi`. */
  function Ends(lo: nat, hi: nat): seq<nat> {
    if hi <= lo then [] else Ends(lo, hi - 1) + if IsEnd(hi - 1) then [hi - 1] else []
  }

  /** The block ends the tail passes. */
  function Passed(tail: nat, nb: nat, n: nat): seq<nat> {
    if tail + nb > n then Ends(tail, n) + Ends(0, tail + nb - n) else Ends(tail, tail + nb)
  }

  /** The tail passes at most one block end, or one at the end of the ring and one after it. */
  predicate Fits(tail: nat, nb: nat, n: nat) {
    if tail + nb > n then n - tail <= 64 && tail + nb - n < 128 else Offset(tail) + nb < 128
  }

  lemma {:induction false} EndsAre(lo: nat, hi: nat)
    requires lo <= hi
    ensures Offset(lo) + (hi - lo) < 64 ==> Ends(lo, hi) == []
    ensures 64 <= Offset(lo) + (hi - lo) < 128 ==> Ends(lo, hi) == [BlockEnd(lo)]
    ensures 128 <= Offset(lo) + (hi - lo) ==> |Ends(lo, hi)| >= 2
    ensures |Ends(lo, hi)| > 0 ==> Ends(lo, hi)[|Ends(lo, hi)| - 1] <= hi - 1
    decreases hi
  {
    if lo < hi {
      EndsAre(lo, hi - 1);
      OffsetOf(lo, hi - 1 - lo);
    }
  }

  /** The offset `k` places on. */
  lemma {:induction false} OffsetOf(x: nat, k: nat)
    ensures Offset(x) + k < 64 ==> Offset(x + k) == Offset(x) + k
    ensures 64 <= Offset(x) + k < 128 ==> Offset(x + k) == Offset(x) + k - 64
    ensures Offset(x + k) == Slot(Offset(x) + k, 64)
  {
    SlotShift(x, k, 64);
  }

  /** In a ring of whole blocks, from a slot to the end. */
  lemma ToTheEnd(tail: nat, n: nat)
    requires Offset(n) == 0 && tail < n
    ensures BlockEnd(tail) < n
    ensures if n - tail <= 64 then BlockEnd(tail) == n - 1 else Offset(tail) + (n - tail) >= 128
  {
    OffsetOf(tail, n - tail);
  }

  lemma LockstepNoWrap(tail: nat, nb: nat, n: nat)
    requires Offset(n) == 0 && tail < n && 0 < nb && tail + nb <= n
    ensures var (c', rs) := Request(tail + nb, BlockEnd(tail), n);
            && c'.tail == (if tail + nb == n then 0 else tail + nb)
            && (rs == Ends(tail, tail + nb) && c'.nextRs == BlockEnd(c'.tail) <==> Offset(tail) + nb < 128)
  {
    ToTheEnd(tail, n);
    EndsAre(tail, tail + nb);
    OffsetOf(tail, nb);
    OffsetOf(BlockEnd(tail), 1);
  }

  /** A call keeps the requests in lockstep with the blocks, that is, it requests exactly the block
      ends it passes and points at the end of the tail's new block, if and only if the packets fit. */
  lemma LockstepExact(tail: nat, nb: nat, n: nat)
    requires Offset(n) == 0 && tail < n && 0 < nb < n
    ensures var (c', rs) := Advance(Cursor(tail, BlockEnd(tail)), nb, n);
            && c'.tail == Slot(tail + nb, n)
            && (rs == Passed(tail, nb, n) && c'.nextRs == BlockEnd(c'.tail) <==> Fits(tail, nb, n))
  {
    if tail + nb > n {
      ToTheEnd(tail, n);
      EndsAre(tail, n);
      var rest := tail + nb - n;
      EndsAre(0, rest);
      LockstepNoWrap(0, rest, n);
    } else {
      LockstepNoWrap(tail, nb, n);
    }
  }

  lemma {:induction false} EndsMember(lo: nat, hi: nat, e: nat)
    ensures e in Ends(lo, hi) <==> lo <= e < hi && IsEnd(e)
    decreases hi
  {
    if lo < hi {
      EndsMember(lo, hi - 1, e);
    }
  }

  lemma MissedBefore(tail: nat, nb: nat, n: nat) returns (e: nat)
    requires tail + nb <= n && Offset(tail) + nb >= 128
    ensures e in Ends(tail, tail + nb) && e != BlockEnd(tail)
  {
    OffsetOf(tail, 63 - Offset(tail));
    OffsetOf(BlockEnd(tail), 64);
    e := BlockEnd(tail) + 64;
    EndsMember(tail, tail + nb, e);
  }

  lemma MissedAtTop(tail: nat, n: nat)
    requires Offset(n) == 0 && tail + 64 < n
    ensures n - 1 in Ends(tail, n) && BlockEnd(tail) != n - 1 && n - 1 > 63
  {
    ToTheEnd(tail, n);
    OffsetOf(n - 1, 1);
    EndsMember(tail, n, n - 1);
    OffsetOf(tail, 63 - Offset(tail));
  }

  /** When the burst does not fit, a block end is passed that was not requested. */
  lemma MissedEnd(tail: nat, nb: nat, n: nat) returns (e: nat)
    requires Offset(n) == 0 && n >= 128 && tail < n && 0 < nb < n && !Fits(tail, nb, n)
    ensures e in Passed(tail, nb, n) && e !in Advance(Cursor(tail, BlockEnd(tail)), nb, n).1
  {
    if tail + nb <= n {
      e := MissedBefore(tail, nb, n);
    } else if n - tail > 64 {
      e := n - 1;
      MissedAtTop(tail, n);
    } else {
      e := 127;
      ToTheEnd(tail, n);
      EndsMember(0, tail + nb - n, e);
    }
  }

  /** Bursts of at most a block always fit. */
  lemma BlockBurstFits(tail: nat, nb: nat, n: nat)
    requires nb <= TX_RS_THRESH && tail < n
    ensures Fits(tail, nb, n)
  {
  }

  /** A burst of 128 from the start of the ring does not: of the two block ends it passes one is not
      requested by this call. */
  lemma LargeBurstSlips(n: nat)
    requires Offset(n) == 0 && n > 128
    ensures !Fits(0, 128, n) && Advance(Cursor(0, 63), 128, n) == (Cursor(128, 127), [63])
  {
  }
}
