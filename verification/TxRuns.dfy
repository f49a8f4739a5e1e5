/**
 Cleaning, whole runs and progress of the X540 transmit queue.
 */
module TxRuns {
  import opened Circular
  import opened TxThresholds
  import opened TxRings
  import opened TxSystem

  // ------------------------------------------------------------------ the other steps

  /** The hardware finds something to fetch exactly when a rung descriptor is unfetched, and
      reads the descriptor written for that position. */
  lemma FetchReady(t: Tx)
    requires Inv(t)
    ensures CanFetch(t) <==> t.hwPos < t.tdtPos
    ensures CanFetch(t) ==> t.ring.desc[t.hwHead] == t.ring.log[t.hwPos]
  {
    if t.hwPos < t.tdtPos {
      SlotDistinct(t.hwPos, t.tdtPos, |t.ring.desc|);
      ReportPreserves(t.ring, Cleaned(t), t.hwPos);
    }
  }

  lemma FetchPreserves(t: Tx)
    requires Inv(t) && CanFetch(t)
    ensures Inv(Fetch(t)) == true
  {
    FetchReady(t);
    SlotNext(t.hwPos, |t.ring.desc|);
    ReportPreserves(t.ring, Cleaned(t), t.hwPos);
    assert t.ring.log[..t.hwPos + 1] == t.ring.log[..t.hwPos] + [t.ring.log[t.hwPos]];
  }

  lemma WriteTailPreserves(t: Tx)
    requires Inv(t)
    ensures Inv(WriteTail(t)) == true
  {
  }

  // ------------------------------------------------------------------ cleaning

  /** The slot 64 on from the last cleaned one is that of the position 63 after the first in
      flight. */
  lemma LookupSlot(c: nat, n: nat)
    requires n >= TX_RS_THRESH
    ensures var to := Slot(c + n - 1, n) + TX_RS_THRESH;
            (if to >= n then to - n else to) == Slot(c + TX_RS_THRESH - 1, n)
  {
    SlotShift(c + n - 1, TX_RS_THRESH, n);
    assert Slot(c + n - 1 + TX_RS_THRESH, n) == Slot(c + TX_RS_THRESH - 1, n);
  }

  /** With a threshold ahead, cleaning tests that threshold's own done bit. */
  lemma TestsThreshold(r: Ring, c: nat, e: nat, fetched: nat)
    requires RingInv(r, c, fetched) && SpanInv(r.log, r.entries, c, e, |r.desc|) && |r.desc| >= TX_RS_THRESH
    ensures Tested(r.sw, Slot(c + |r.sw| - 1, |r.sw|)) == Slot(e - 1, |r.sw|)
    ensures r.dd[Slot(e - 1, |r.dd|)] <==> e <= fetched
  {
    LookupSlot(c, |r.sw|);
    assert r.sw[Slot(c + TX_RS_THRESH - 1, |r.sw|)] == r.entries[c + TX_RS_THRESH - 1];
    assert r.log[e - 1].rs;
  }

  /** With none ahead, cleaning tests a blank slot, which is not done. */
  lemma TestsBlank(r: Ring, c: nat, fetched: nat)
    requires RingInv(r, c, fetched) && |r.log| < c + TX_RS_THRESH <= c + |r.desc|
    ensures var to := Tested(r.sw, Slot(c + |r.sw| - 1, |r.sw|)); to < |r.dd| && !r.dd[to]
  {
    LookupSlot(c, |r.sw|);
    assert r.sw[Slot(c + TX_RS_THRESH - 1, |r.sw|)] == Blank(Slot(c + TX_RS_THRESH - 1, |r.sw|), |r.sw|);
    assert !r.dd[Slot(c + TX_RS_THRESH - 1, |r.dd|)];
  }

  lemma NextSpan(t: Tx)
    requires Inv(t)
    ensures t.mark + 1 < |t.marks| ==>
              SpanInv(t.ring.log, t.ring.entries, Cleaned(t), t.marks[t.mark + 1].pos, |t.ring.desc|)
    ensures t.mark + 1 == |t.marks| ==> |t.ring.log| == Cleaned(t) + t.used
  {
  }

  /** One done bit decides: cleaning succeeds exactly when the next threshold descriptor has been
      fetched, whatever else is in the ring. */
  lemma CleanExact(t: Tx)
    requires Inv(t)
    ensures t.lastCleaned < |t.ring.sw| && Tested(t.ring.sw, t.lastCleaned) < |t.ring.dd|
    ensures CanClean(t) <==> t.mark + 1 < |t.marks| && t.marks[t.mark + 1].pos <= t.hwPos
    ensures CanClean(t) ==> Tested(t.ring.sw, t.lastCleaned) == Slot(t.marks[t.mark + 1].pos - 1, |t.ring.desc|)
  {
    NextSpan(t);
    if t.mark + 1 < |t.marks| {
      TestsThreshold(t.ring, Cleaned(t), t.marks[t.mark + 1].pos, t.hwPos);
    } else {
      TestsBlank(t.ring, Cleaned(t), t.hwPos);
    }
  }

  /** The count the driver adds to its free descriptors. */
  lemma CountIs(c: nat, e: nat, n: nat)
    requires n > 0 && c < e < c + n
    ensures CleanCount(Slot(c + n - 1, n), Slot(e - 1, n), n) == e - c
  {
    SlotDistance(c + n - 1, e - 1 + n, n);
    assert Slot(e - 1 + n, n) == Slot(e - 1, n);
  }

  /** The next threshold to reclaim is at `e`, and it has been fetched. */
  ghost predicate CleansTo(t: Tx, e: nat) {
    && CanClean(t) && t.mark + 1 < |t.marks| && e == t.marks[t.mark + 1].pos && Cleaned(t) < e <= t.hwPos
    && |t.ring.desc| > 0 && Tested(t.ring.sw, t.lastCleaned) == Slot(e - 1, |t.ring.desc|)
  }

  lemma CleanMoves(t: Tx, e: nat)
    requires RingInv(t.ring, Cleaned(t), t.hwPos) && PlaceInv(t) && CleansTo(t, e)
    ensures Clean(t).free == t.free + (e - Cleaned(t)) && Cleaned(Clean(t)) == e
    ensures PlaceInv(Clean(t)) == true
  {
    CountIs(Cleaned(t), e, |t.ring.desc|);
    assert Slot(e + |t.ring.desc| - 1, |t.ring.desc|) == Slot(e - 1, |t.ring.desc|);
  }

  lemma CleanReclaims(t: Tx, e: nat)
    requires RingInv(t.ring, Cleaned(t), t.hwPos) && PlaceInv(t) && CleansTo(t, e)
    ensures Clean(t).reclaimed == t.reclaimed + t.ring.entries[Cleaned(t)..e]
  {
    SweepReclaims(t.ring.sw, t.ring.entries, Cleaned(t), e);
  }

  lemma CleanRing(t: Tx, e: nat)
    requires RingInv(t.ring, Cleaned(t), t.hwPos) && PlaceInv(t) && CleansTo(t, e)
    requires SpanInv(t.ring.log, t.ring.entries, Cleaned(t), e, |t.ring.desc|)
    ensures RingInv(Clean(t).ring, e, t.hwPos) == true
  {
    SweepPreserves(t.ring, Cleaned(t), e, t.hwPos);
  }

  lemma CleansToNext(t: Tx)
    requires Inv(t) && CanClean(t)
    ensures t.mark + 1 < |t.marks|
    ensures var e := t.marks[t.mark + 1].pos;
            CleansTo(t, e) && SpanInv(t.ring.log, t.ring.entries, Cleaned(t), e, |t.ring.desc|)
  {
    CleanExact(t);
    NextSpan(t);
  }

  /** A clean that succeeds reclaims exactly the descriptors up to the next threshold: all of them
      fetched, and at least 64, so that the packet waiting for them fits. */
  lemma CleanFrees(t: Tx)
    requires Inv(t) && CanClean(t)
    ensures var c, c' := Cleaned(t), Cleaned(Clean(t));
            && c + 64 <= c' <= c + 67 && c' <= t.hwPos && Clean(t).free == t.free + (c' - c)
            && Clean(t).reclaimed == t.reclaimed + t.ring.entries[c..c']
  {
    CleansToNext(t);
    CleanMoves(t, t.marks[t.mark + 1].pos);
    CleanReclaims(t, t.marks[t.mark + 1].pos);
  }

  lemma CleanPreserves(t: Tx)
    requires Inv(t) && CanClean(t)
    ensures Inv(Clean(t)) == true
  {
    CleansToNext(t);
    var c, e := Cleaned(t), t.marks[t.mark + 1].pos;
    CleanMoves(t, e);
    CleanReclaims(t, e);
    CleanRing(t, e);
    Rejoin(t.ring.entries, 0, c, e);
  }

  // ------------------------------------------------------------------ runs

  datatype Step = SendStep(m: Mbuf) | CleanStep | TailStep | FetchStep

  predicate Enabled(t: Tx, s: Step) {
    match s
    case SendStep(m) => CanSend(t, m)
    case CleanStep => CanClean(t)
    case TailStep => true
    case FetchStep => CanFetch(t)
  }

  function Apply(t: Tx, s: Step): Tx
    requires Enabled(t, s)
  {
    match s
    case SendStep(m) => Send(t, m)
    case CleanStep => Clean(t)
    case TailStep => WriteTail(t)
    case FetchStep => Fetch(t)
  }

  /** The state after these steps; a step that is not enabled does nothing. */
  function After(t: Tx, steps: seq<Step>): Tx {
    if steps == [] then t else
      var t1 := After(t, steps[..|steps| - 1]);
      var s := steps[|steps| - 1];
      if Enabled(t1, s) then Apply(t1, s) else t1
  }

  lemma AfterAppend(t: Tx, steps: seq<Step>, s: Step)
    requires Enabled(After(t, steps), s)
    ensures After(t, steps + [s]) == Apply(After(t, steps), s)
  {
  }

  lemma StepPreserves(t: Tx, s: Step)
    requires Inv(t) && Enabled(t, s)
    ensures Inv(Apply(t, s)) == true
  {
    match s
    case SendStep(m) => SendPreserves(t, m);
    case CleanStep => CleanPreserves(t);
    case TailStep => WriteTailPreserves(t);
    case FetchStep => FetchPreserves(t);
  }

  lemma {:induction false} RunPreserves(t: Tx, steps: seq<Step>)
    requires Inv(t)
    ensures Inv(After(t, steps)) == true
  {
    if steps != [] {
      RunPreserves(t, steps[..|steps| - 1]);
      var t1, s := After(t, steps[..|steps| - 1]), steps[|steps| - 1];
      if Enabled(t1, s) {
        StepPreserves(t1, s);
      }
    }
  }
}
