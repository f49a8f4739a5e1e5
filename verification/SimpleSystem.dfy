/**
 The simple send path as a step system: every write to the ring or to a register is a step of the
 driver, and the hardware may take a descriptor between any two of them.
 */
module SimpleSystem {
  import opened Circular
  import opened TxThresholds
  import opened SimpleSend

  datatype Frame = Frame(addr: nat, len: nat)

  // ------------------------------------------------------------------ bits by positions

  /** The oldest position whose slot has not been written again. */
  function Oldest(top: nat, n: nat): nat {
    if top < n then 0 else top - n
  }

  /** Among the written slots, the bit is set exactly on the block ends before `m`. */
  ghost predicate Bits(b: seq<bool>, top: nat, m: nat)
    requires |b| > 0
  {
    forall p {:trigger b[Slot(p, |b|)]} :: Oldest(top, |b|) <= p < top ==> (b[Slot(p, |b|)] <==> p < m && IsEnd(p))
  }

  lemma BitsAfterWrite(b: seq<bool>, top: nat, m: nat)
    requires |b| > 0 && Bits(b, top, m) && m <= top
    ensures Bits(b[Slot(top, |b|) := false], top + 1, m)
  {
    var n, b' := |b|, b[Slot(top, |b|) := false];
    forall p | Oldest(top + 1, n) <= p < top + 1 ensures b'[Slot(p, n)] <==> p < m && IsEnd(p) {
      if p < top {
        SlotDistinct(p, top, n);
        assert b[Slot(p, n)] <==> p < m && IsEnd(p);
      }
    }
  }

  /** Setting the bit of the only block end from `m` to `m'` takes `m` to `m'`. */
  lemma BitsAfterSet(b: seq<bool>, top: nat, m: nat, e: nat, m': nat)
    requires |b| > 0 && Bits(b, top, m) && Oldest(top, |b|) <= m <= e < m' <= top && IsEnd(e)
    requires forall p {:trigger IsEnd(p)} :: m <= p < m' && IsEnd(p) ==> p == e
    ensures Bits(b[Slot(e, |b|) := true], top, m')
  {
    var n, b' := |b|, b[Slot(e, |b|) := true];
    forall p | Oldest(top, n) <= p < top ensures b'[Slot(p, n)] <==> p < m' && IsEnd(p) {
      if p != e {
        SlotDistinct(if p < e then p else e, if p < e then e else p, n);
      }
      assert b[Slot(p, n)] <==> p < m && IsEnd(p);
    }
  }

  /** With no block end from `m` to `m'` there is nothing to set. */
  lemma BitsKept(b: seq<bool>, top: nat, m: nat, m': nat)
    requires |b| > 0 && Bits(b, top, m) && m <= m' <= top
    requires forall p {:trigger IsEnd(p)} :: m <= p < m' ==> !IsEnd(p)
    ensures Bits(b, top, m')
  {
  }

  /** Whole blocks: a position and its slot have the same place in their blocks. */
  lemma {:induction false} OffsetOfSlot(p: nat, n: nat)
    requires n > 0 && Offset(n) == 0
    ensures Offset(Slot(p, n)) == Offset(p)
  {
    if p >= n {
      OffsetOfSlot(p - n, n);
      SlotShift(n, p - n, 64);
    }
  }

  /** Within less than two blocks from `p` there is one block end, at the end of `p`'s block. */
  lemma OneEnd(p: nat, k: nat)
    requires Offset(p) + k < 128
    ensures IsEnd(BlockEnd(p)) && forall q {:trigger IsEnd(q)} :: p <= q < p + k && IsEnd(q) ==> q == BlockEnd(p)
  {
    OffsetOf(p, 63 - Offset(p));
    forall q | p <= q < p + k && IsEnd(q) ensures q == BlockEnd(p) {
      OffsetOf(p, q - p);
    }
  }

  /** The slot of the end of a position's block. */
  lemma EndSlot(p: nat, n: nat)
    requires n > 0 && Offset(n) == 0
    ensures Slot(BlockEnd(p), n) == BlockEnd(Slot(p, n))
  {
    OffsetOfSlot(p, n);
    ToTheEnd(Slot(p, n), n);
    SlotShift(p, 63 - Offset(p), n);
  }

  /** Fewer packets fit where more do. */
  lemma FitsFewer(tail: nat, few: nat, many: nat, n: nat)
    requires few <= many && Fits(tail, many, n) && tail < n && Offset(n) == 0
    ensures Fits(tail, few, n)
  {
  }

  /** The end of the next block. */
  lemma NextEnd(e: nat, n: nat)
    requires IsEnd(e) && n > 0 && Offset(n) == 0
    ensures Slot(e + 64, n) == if Slot(e, n) + 64 >= n then 63 else Slot(e, n) + 64
  {
    OffsetOfSlot(e, n);
    ToTheEnd(Slot(e, n), n);
    SlotShift(e, 64, n);
  }

  /** Where the cursor goes when `k` packets fit before the end of the ring. */
  lemma PartCursor(from: nat, k: nat, n: nat)
    requires n > 0 && Offset(n) == 0
    requires var tail := Slot(from, n); tail + k <= n && Offset(tail) + k < 128
    ensures var tail := Slot(from, n);
            var (c', rs) := Request(tail + k, BlockEnd(tail), n);
            && c'.tail == Slot(from + k, n) && c'.nextRs == BlockEnd(c'.tail)
            && (tail + k > BlockEnd(tail) <==> from + k > BlockEnd(from))
  {
    var tail := Slot(from, n);
    SlotShift(from, k, n);
    OffsetOfSlot(from, n);
    ToTheEnd(tail, n);
    if k > 0 {
      LockstepNoWrap(tail, k, n);
    }
  }

  // ------------------------------------------------------------------ states

  /** Where the driver is in `send`.  `Filling` writes `todo` from slot `at` on, and then asks for the
      status of a block end; at the top of the ring `rest` follows from slot 0. */
  datatype Pc =
    | Idle
    | Freeing(pkts: seq<Frame>)
    | Starting(pkts: seq<Frame>)
    | Filling(todo: seq<Frame>, top: bool, rest: seq<Frame>, at: nat)
    | Ringing

  datatype Sq = Sq(
    // shared with the hardware: descriptors, status requests, done bits, tail register
    desc: seq<Frame>, rs: seq<bool>, dd: seq<bool>, tdt: nat, hwHead: nat,
    // the driver
    tail: nat, nextRs: nat, nextDd: nat, free: nat, pc: Pc,
    // history: frames accepted and frames written; positions up to which block ends are requested,
    // descriptors rung, taken and reclaimed; and what was taken
    sent: seq<Frame>, log: seq<Frame>, marked: nat, rung: nat, hw: nat, reclaimed: nat, taken: seq<Frame>)

  function Init(n: nat): Sq
    requires n > 0
  {
    Sq(seq(n, _ => Frame(0, 0)), seq(n, _ => false), seq(n, _ => false), 0, 0,
       0, TX_RS_THRESH - 1, TX_RS_THRESH - 1, n - 1, Idle, [], [], 0, 0, 0, 0, [])
  }

  // ------------------------------------------------------------------ steps

  function Call(s: Sq, pkts: seq<Frame>): Sq
    requires s.pc.Idle?
  {
    s.(pc := if s.free < TX_FREE_THRESH then Freeing(pkts) else Starting(pkts))
  }

  predicate CanFree(s: Sq) {
    s.pc.Freeing? && s.nextDd < |s.dd|
  }

  /** Test one done bit, and reclaim a block if it is set. */
  function Free(s: Sq): Sq
    requires CanFree(s)
  {
    var next := s.nextDd + TX_RS_THRESH;
    if s.dd[s.nextDd] then
      s.(free := s.free + TX_RS_THRESH, nextDd := if next >= |s.desc| then TX_RS_THRESH - 1 else next,
         reclaimed := s.reclaimed + 64, pc := Starting(s.pc.pkts))
    else s.(pc := Starting(s.pc.pkts))
  }

  /** What is written first: all `nb` packets, or those up to the end of the ring. */
  function FirstPart(pkts: seq<Frame>, nb: nat, tail: nat, n: nat): Pc
    requires nb <= |pkts| && tail <= n
  {
    if tail + nb > n then Filling(pkts[..n - tail], true, pkts[n - tail..nb], tail)
    else Filling(pkts[..nb], false, [], tail)
  }

  /** How many packets the call sends: as many as descriptors are free. */
  function Accepted(s: Sq): nat
    requires s.pc.Starting?
  {
    if s.free < |s.pc.pkts| then s.free else |s.pc.pkts|
  }

  /** The packets taken fit: the tail will pass at most as many block ends as are requested. */
  predicate CanStart(s: Sq) {
    s.pc.Starting? && s.tail <= |s.desc| && Fits(s.tail, Accepted(s), |s.desc|)
  }

  function Start(s: Sq): Sq
    requires CanStart(s)
  {
    var pkts, nb, n := s.pc.pkts, Accepted(s), |s.desc|;
    if nb == 0 then s.(pc := Idle)
    else
      s.(free := s.free - nb, sent := s.sent + pkts[..nb],
         pc := FirstPart(pkts, nb, s.tail, n))
  }

  predicate CanWrite(s: Sq) {
    s.pc.Filling? && s.pc.todo != [] && s.pc.at < |s.desc| == |s.rs| == |s.dd|
  }

  /** Write one descriptor: no status request yet, and the done bit cleared. */
  function Write(s: Sq): Sq
    requires CanWrite(s)
  {
    var at := s.pc.at;
    s.(desc := s.desc[at := s.pc.todo[0]], rs := s.rs[at := false], dd := s.dd[at := false],
       log := s.log + [s.pc.todo[0]], pc := s.pc.(todo := s.pc.todo[1..], at := at + 1))
  }

  predicate CanRequest(s: Sq) {
    s.pc.Filling? && s.pc.todo == [] && s.nextRs < |s.rs|
  }

  /** Move the tail over what was written, and request the status of the block end it passed. */
  function RequestEnd(s: Sq): Sq
    requires CanRequest(s)
  {
    if s.pc.top then
      s.(rs := s.rs[s.nextRs := true], nextRs := TX_RS_THRESH - 1, tail := 0, marked := |s.log|,
         pc := Filling(s.pc.rest, false, [], 0))
    else
      var c := Request(s.pc.at, s.nextRs, |s.desc|).0;
      s.(rs := if s.pc.at > s.nextRs then s.rs[s.nextRs := true] else s.rs, nextRs := c.nextRs, tail := c.tail,
         marked := |s.log|, pc := Ringing)
  }

  function RingTail(s: Sq): Sq
    requires s.pc.Ringing?
  {
    s.(tdt := s.tail, rung := |s.log|, pc := Idle)
  }

  predicate CanFetch(s: Sq) {
    s.hwHead != s.tdt && s.hwHead < |s.desc| == |s.rs| == |s.dd|
  }

  /** The hardware takes the next descriptor and reports it done if asked to. */
  function Fetch(s: Sq): Sq
    requires CanFetch(s)
  {
    s.(dd := if s.rs[s.hwHead] then s.dd[s.hwHead := true] else s.dd, hwHead := Next(s.hwHead, |s.desc|),
       hw := s.hw + 1, taken := s.taken + [s.desc[s.hwHead]])
  }

  // ------------------------------------------------------------------ the invariant

  /** The rings by positions. */
  ghost predicate ImageInv(desc: seq<Frame>, rs: seq<bool>, dd: seq<bool>, log: seq<Frame>, marked: nat, hw: nat) {
    var n, top := |desc|, |log|;
    && n == |rs| == |dd| && n >= 128 && Offset(n) == 0 && marked <= top && hw <= top
    && Window(desc, log, Oldest(top, n)) && Bits(rs, top, marked) && Bits(dd, top, hw)
  }

  function Pending(pc: Pc): seq<Frame> {
    if pc.Filling? then pc.todo + pc.rest else []
  }

  /** Positions against registers and counters: nothing is rung before its block ends are requested. */
  ghost predicate PlaceInv(s: Sq) {
    var n := |s.desc|;
    && n > 0 && s.reclaimed <= s.hw <= s.rung <= s.marked <= |s.log| && Offset(s.reclaimed) == 0
    && s.nextDd == Slot(s.reclaimed + 63, n) && s.hwHead == Slot(s.hw, n) && s.tdt == Slot(s.rung, n)
    && |s.sent| + s.free == s.reclaimed + n - 1
  }

  /** What was taken and what is still to be written. */
  ghost predicate FramesInv(s: Sq) {
    s.hw <= |s.log| && s.taken == s.log[..s.hw] && s.sent == s.log + Pending(s.pc)
  }

  /** Tail and next request against the positions, wherever the driver is. */
  ghost predicate PcInv(pc: Pc, n: nat, tail: nat, nextRs: nat, free: nat, top: nat, marked: nat, rung: nat) {
    && n > 0 && tail == Slot(marked, n) && nextRs == BlockEnd(tail) && marked <= top
    && match pc
       case Idle => rung == marked == top
       case Freeing(_) => rung == marked == top && free < TX_FREE_THRESH
       case Starting(_) => rung == marked == top
       case Filling(todo, isTop, rest, at) =>
         && rung <= marked && at == tail + (top - marked) && at + |todo| <= n
         && (if isTop then at + |todo| == n && n - tail <= 64 && |rest| < 128
             else rest == [] && Offset(tail) + (at + |todo| - tail) < 128)
       case Ringing => rung <= marked == top
  }

  ghost predicate Inv(s: Sq) {
    && ImageInv(s.desc, s.rs, s.dd, s.log, s.marked, s.hw)
    && PlaceInv(s) && FramesInv(s)
    && PcInv(s.pc, |s.desc|, s.tail, s.nextRs, s.free, |s.log|, s.marked, s.rung)
  }

  lemma InitInv(n: nat)
    requires n >= 128 && Offset(n) == 0
    ensures Inv(Init(n))
  {
  }

  // ------------------------------------------------------------------ every step keeps it

  lemma ImageAfterWrite(desc: seq<Frame>, rs: seq<bool>, dd: seq<bool>, log: seq<Frame>, marked: nat, hw: nat, f: Frame)
    requires ImageInv(desc, rs, dd, log, marked, hw)
    ensures var at := Slot(|log|, |desc|);
            ImageInv(desc[at := f], rs[at := false], dd[at := false], log + [f], marked, hw) == true
  {
    BitsAfterWrite(rs, |log|, marked);
    BitsAfterWrite(dd, |log|, hw);
    WindowExtends(desc, log, Oldest(|log| + 1, |desc|), f);
  }

  lemma PcAfterWrite(s: Sq)
    requires PlaceInv(s) && PcInv(s.pc, |s.desc|, s.tail, s.nextRs, s.free, |s.log|, s.marked, s.rung) && CanWrite(s)
    ensures s.pc.at == Slot(|s.log|, |s.desc|) && PlaceInv(Write(s)) == true
    ensures var s' := Write(s);
            PcInv(s'.pc, |s'.desc|, s'.tail, s'.nextRs, s'.free, |s'.log|, s'.marked, s'.rung) == true
  {
    SlotShift(s.marked, |s.log| - s.marked, |s.desc|);
  }

  lemma WritePreserves(s: Sq)
    requires Inv(s) && CanWrite(s)
    ensures Inv(Write(s)) == true
  {
    PcAfterWrite(s);
    ImageAfterWrite(s.desc, s.rs, s.dd, s.log, s.marked, s.hw, s.pc.todo[0]);
    FramesAfterWrite(s);
  }

  lemma FramesAfterWrite(s: Sq)
    requires FramesInv(s) && CanWrite(s)
    ensures FramesInv(Write(s)) == true
  {
    var todo := s.pc.todo;
    assert s.log + (todo + s.pc.rest) == (s.log + [todo[0]]) + (todo[1..] + s.pc.rest);
    assert (s.log + [todo[0]])[..s.hw] == s.log[..s.hw];
  }

  /** Requesting the one block end passed, or none if none was. */
  lemma ImageAfterRequest(desc: seq<Frame>, rs: seq<bool>, dd: seq<bool>, log: seq<Frame>, marked: nat, hw: nat)
    requires ImageInv(desc, rs, dd, log, marked, hw)
    requires |log| <= marked + |desc| && Offset(marked) + (|log| - marked) < 128
    ensures var e := BlockEnd(Slot(marked, |desc|));
            && e < |rs|
            && ImageInv(desc, if BlockEnd(marked) < |log| then rs[e := true] else rs, dd, log, |log|, hw) == true
  {
    EndSlot(marked, |desc|);
    OneEnd(marked, |log| - marked);
    if BlockEnd(marked) < |log| {
      BitsAfterSet(rs, |log|, marked, BlockEnd(marked), |log|);
    } else {
      BitsKept(rs, |log|, marked, |log|);
    }
  }

  lemma PcAfterRequest(s: Sq)
    requires PlaceInv(s) && Offset(|s.desc|) == 0 && |s.desc| >= 128 && CanRequest(s)
    requires PcInv(s.pc, |s.desc|, s.tail, s.nextRs, s.free, |s.log|, s.marked, s.rung)
    ensures PlaceInv(RequestEnd(s)) == true
    ensures var s' := RequestEnd(s);
            PcInv(s'.pc, |s'.desc|, s'.tail, s'.nextRs, s'.free, |s'.log|, s'.marked, s'.rung) == true
    ensures |s.log| <= s.marked + |s.desc| && Offset(s.marked) + (|s.log| - s.marked) < 128
    ensures s.nextRs == BlockEnd(Slot(s.marked, |s.desc|))
    ensures s.pc.top || s.pc.at > s.nextRs <==> BlockEnd(s.marked) < |s.log|
  {
    OffsetOfSlot(s.marked, |s.desc|);
    ToTheEnd(s.tail, |s.desc|);
    PartCursor(s.marked, |s.log| - s.marked, |s.desc|);
  }

  lemma RequestReady(s: Sq)
    requires Inv(s) && s.pc.Filling? && s.pc.todo == []
    ensures CanRequest(s)
  {
    OffsetOfSlot(s.marked, |s.desc|);
    ToTheEnd(s.tail, |s.desc|);
  }

  lemma RequestPreserves(s: Sq)
    requires Inv(s) && CanRequest(s)
    ensures Inv(RequestEnd(s)) == true
  {
    PcAfterRequest(s);
    ImageAfterRequest(s.desc, s.rs, s.dd, s.log, s.marked, s.hw);
  }

  lemma RingPreserves(s: Sq)
    requires Inv(s) && s.pc.Ringing?
    ensures Inv(RingTail(s)) == true
  {
  }

  /** The hardware has work exactly when a rung descriptor is not taken; it finds the frame written
      there, and a request exactly on a block end. */
  lemma FetchReady(s: Sq)
    requires Inv(s)
    ensures CanFetch(s) <==> s.hw < s.rung
    ensures CanFetch(s) ==> s.desc[s.hwHead] == s.log[s.hw] && (s.rs[s.hwHead] <==> IsEnd(s.hw))
  {
    if s.hw < s.rung {
      SlotDistinct(s.hw, s.rung, |s.desc|);
      assert s.desc[Slot(s.hw, |s.desc|)] == s.log[s.hw];
      assert s.rs[Slot(s.hw, |s.rs|)] <==> IsEnd(s.hw);
    }
  }

  lemma ImageAfterFetch(desc: seq<Frame>, rs: seq<bool>, dd: seq<bool>, log: seq<Frame>, marked: nat, hw: nat)
    requires ImageInv(desc, rs, dd, log, marked, hw) && Oldest(|log|, |desc|) <= hw < |log|
    ensures var at := Slot(hw, |desc|);
            ImageInv(desc, rs, if IsEnd(hw) then dd[at := true] else dd, log, marked, hw + 1) == true
  {
    if IsEnd(hw) {
      BitsAfterSet(dd, |log|, hw, hw, hw + 1);
    } else {
      BitsKept(dd, |log|, hw, hw + 1);
    }
  }

  lemma FetchPreserves(s: Sq)
    requires Inv(s) && CanFetch(s)
    ensures Inv(Fetch(s)) == true
  {
    FetchReady(s);
    SlotNext(s.hw, |s.desc|);
    ImageAfterFetch(s.desc, s.rs, s.dd, s.log, s.marked, s.hw);
    assert s.log[..s.hw + 1] == s.log[..s.hw] + [s.log[s.hw]];
  }

  lemma PcAfterStart(s: Sq)
    requires PlaceInv(s) && Offset(|s.desc|) == 0 && CanStart(s)
    requires PcInv(s.pc, |s.desc|, s.tail, s.nextRs, s.free, |s.log|, s.marked, s.rung)
    ensures PlaceInv(Start(s)) == true
    ensures var s' := Start(s);
            PcInv(s'.pc, |s'.desc|, s'.tail, s'.nextRs, s'.free, |s'.log|, s'.marked, s'.rung) == true
  {
  }

  lemma FramesAfterStart(s: Sq)
    requires FramesInv(s) && CanStart(s)
    ensures FramesInv(Start(s)) == true
  {
    var pkts, nb, k := s.pc.pkts, Accepted(s), |s.desc| - s.tail;
    if k < nb {
      assert pkts[..k] + pkts[k..nb] == pkts[..nb];
    }
  }

  /** It is enough that all packets offered fit. */
  lemma StartReady(s: Sq)
    requires Inv(s) && s.pc.Starting? && Fits(s.tail, |s.pc.pkts|, |s.desc|)
    ensures CanStart(s)
  {
    FitsFewer(s.tail, Accepted(s), |s.pc.pkts|, |s.desc|);
  }

  lemma StartPreserves(s: Sq)
    requires Inv(s) && CanStart(s)
    ensures Inv(Start(s)) == true
  {
    PcAfterStart(s);
    FramesAfterStart(s);
  }

  lemma CallPreserves(s: Sq, pkts: seq<Frame>)
    requires Inv(s) && s.pc.Idle?
    ensures Inv(Call(s, pkts)) == true
  {
  }

  /** The done bit tested is that of a block that was sent and rung completely, and it is set exactly
      when the hardware has taken the whole block. */
  lemma FreeTestExact(s: Sq)
    requires Inv(s) && s.pc.Freeing?
    ensures CanFree(s) && s.reclaimed + 64 <= s.rung == |s.log|
    ensures s.dd[s.nextDd] <==> s.reclaimed + 64 <= s.hw
  {
    OffsetOf(s.reclaimed, 63);
    assert s.dd[Slot(s.reclaimed + 63, |s.dd|)] <==> s.reclaimed + 63 < s.hw;
  }

  lemma FreePreserves(s: Sq)
    requires Inv(s) && CanFree(s)
    ensures Inv(Free(s)) == true
  {
    FreeTestExact(s);
    if s.dd[s.nextDd] {
      OffsetOf(s.reclaimed, 63);
      OffsetOf(s.reclaimed, 64);
      NextEnd(s.reclaimed + 63, |s.desc|);
    }
  }
}
