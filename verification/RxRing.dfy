/**
 The receive burst of the X540 driver: statuses read backwards while the hardware writes packets
 into the ring, and what is delivered to the stack.
 */
module RxRings {
  import opened Circular

  const LOOK_AHEAD := 8
  const IXGBE_RX_MAX_BURST := 64

  datatype Packet = Packet(length: nat, payload: seq<nat>)

  // ------------------------------------------------------------------ scanning backwards

  /** How many of the first `k` are one. */
  function Sum(s: seq<int>, k: nat): int
    requires k <= |s|
  {
    if k == 0 then 0 else Sum(s, k - 1) + s[k - 1]
  }

  /** The statuses read: descriptor `j` is ready if the hardware was past it when it was read. */
  function Statuses(p: nat, w: seq<nat>): (s: seq<int>)
    ensures |s| == |w|
  {
    seq(|w|, j requires 0 <= j < |w| => if p + j < w[j] then 1 else 0)
  }

  /** The ones come first. */
  ghost predicate Front(s: seq<int>) {
    && (forall j {:trigger s[j]} :: 0 <= j < |s| ==> s[j] == 0 || s[j] == 1)
    && (forall j, k {:trigger s[j], s[k]} :: 0 <= j < k < |s| && s[k] == 1 ==> s[j] == 1)
  }

  lemma {:induction false} FrontSum(s: seq<int>, k: nat)
    requires Front(s) && k <= |s|
    ensures 0 <= Sum(s, k) <= k
    ensures forall j {:trigger s[j]} :: 0 <= j < k ==> (s[j] == 1 <==> j < Sum(s, k))
  {
    if k > 0 {
      FrontSum(s, k - 1);
    }
  }

  /** Reading the last descriptor first, whatever the hardware does meanwhile: the number of ones
      is the number of descriptors, from the first on, that are ready. */
  lemma BackwardScanExact(p: nat, w: seq<nat>)
    requires forall j, k {:trigger w[j], w[k]} :: 0 <= j < k < |w| ==> w[k] <= w[j]
    ensures var s := Statuses(p, w); var c := Sum(s, |s|);
            0 <= c <= |w| && forall j {:trigger s[j]} :: 0 <= j < |w| ==> (s[j] == 1 <==> j < c)
  {
    FrontSum(Statuses(p, w), |w|);
  }

  /** Reading the first one first miscounts: a packet that arrives between the two reads makes the
      sum one although the first descriptor was seen not ready. */
  lemma ForwardScanMiscounts(p: nat)
    ensures var s := Statuses(p, [p, p + 2]); Sum(s, 2) == 1 && s[0] == 0 && s[1] == 1
  {
    assert Sum(Statuses(p, [p, p + 2]), 1) == 0;
  }

  // ------------------------------------------------------------------ the queue

  /** Of these buffers those that are kept, in order. */
  ghost function KeptOf(handed: seq<nat>, choices: seq<bool>): seq<nat>
    requires |handed| == |choices|
  {
    if handed == [] then [] else
      var n := |handed| - 1;
      KeptOf(handed[..n], choices[..n]) + if choices[n] then [handed[n]] else []
  }

  lemma KeptMore(handed: seq<nat>, choices: seq<bool>, x: nat, keep: bool)
    requires |handed| == |choices|
    ensures KeptOf(handed + [x], choices + [keep]) == KeptOf(handed, choices) + if keep then [x] else []
  {
    assert (handed + [x])[..|handed|] == handed && (choices + [keep])[..|choices|] == choices;
  }

  lemma ChoicesJoin(before: seq<bool>, keep: seq<bool>, i: nat, nb: nat)
    requires i + LOOK_AHEAD <= |keep| && nb <= LOOK_AHEAD
    ensures before + keep[..i] + keep[i..i + LOOK_AHEAD][..nb] == before + keep[..i + nb]
  {
    assert keep[..i] + keep[i..i + LOOK_AHEAD][..nb] == keep[..i + nb];
  }

  /** What a burst began with. */
  datatype Past = Past(arrived: seq<Packet>, delivered: seq<Packet>, handed: seq<nat>, choices: seq<bool>)

  class RxQueue {
    const dd: array<bool>
    const slots: array<Packet>
    const buf: array<nat>
    var rxTail: nat
    /** The hardware's tail register and head. */
    var rdt: nat
    var hwHead: nat
    /** Packets handed to the stack, buffers it kept, and the allocator's next block. */
    var delivered: seq<Packet>
    var kept: seq<nat>
    var nextBuf: nat
    /** Packets the hardware has received, and how many were delivered before this burst. */
    ghost var arrived: seq<Packet>
    ghost var start: nat
    /** The buffer of each packet delivered, and whether the stack kept it. */
    ghost var handed: seq<nat>
    ghost var choices: seq<bool>

    /** The ring by positions, during a burst. */
    ghost predicate Holds()
      reads this, dd, slots, buf
    {
      var n, r, w := dd.Length, |delivered|, |arrived|;
      && LOOK_AHEAD <= n == slots.Length == buf.Length
      && start <= r <= w <= start + n - 1 && delivered == arrived[..r]
      && hwHead == Slot(w, n) && rdt == Slot(start + n - 1, n) && rxTail == Slot(start, n)
      && Ready(dd[..], r, w) && Window(slots[..], arrived, r)
    }

    /** No buffer in the ring is in the ring twice or with the stack, and the stack has each buffer it
        kept once. */
    ghost predicate Owned()
      reads this, buf
    {
      && (forall i {:trigger buf[i]} :: 0 <= i < buf.Length ==> buf[i] < nextBuf && buf[i] !in kept)
      && (forall i, j {:trigger buf[i], buf[j]} :: 0 <= i < j < buf.Length ==> buf[i] != buf[j])
      && (forall x {:trigger x in kept} :: x in kept ==> x < nextBuf)
      && (forall i, j {:trigger kept[i], kept[j]} :: 0 <= i < j < |kept| ==> kept[i] != kept[j])
    }

    /** The buffers kept are those of the packets the stack chose to keep. */
    ghost predicate Answered()
      reads this
    {
      |handed| == |choices| && kept == KeptOf(handed, choices)
    }

    /** Both, taken as a whole. */
    ghost predicate Sound()
      reads this, dd, slots, buf
    {
      Holds() == true && Owned() == true && Answered() == true && |handed| == |delivered|
    }

    ghost predicate Valid()
      reads this, dd, slots, buf
    {
      Sound() && start == |delivered|
    }

    constructor (n: nat)
      requires n >= LOOK_AHEAD
      ensures Valid() && dd.Length == n && delivered == [] && arrived == [] && kept == [] && choices == []
      ensures fresh(dd) && fresh(slots) && fresh(buf)
    {
      dd := new bool[n](_ => false);
      slots := new Packet[n](_ => Packet(0, []));
      buf := new nat[n](i => i);
      rxTail, rdt, hwHead := 0, n - 1, 0;
      delivered, kept, nextBuf, arrived, start, handed, choices := [], [], n, [], 0, [], [];
    }

    /** The hardware receives these packets, as far as it has descriptors. */
    method Hardware(pkts: seq<Packet>)
      requires Holds()
      modifies dd, slots, this`hwHead, this`arrived
      ensures Holds() && old(arrived) <= arrived
    {
      var i := 0;
      while i < |pkts| && hwHead != rdt
        invariant Holds() && old(arrived) <= arrived
      {
        Receive(pkts[i]);
        i := i + 1;
      }
    }

    /** The hardware writes a packet into its next descriptor. */
    method Receive(pkt: Packet)
      requires Holds() && hwHead != rdt
      modifies dd, slots, this`hwHead, this`arrived
      ensures Holds() && arrived == old(arrived) + [pkt]
    {
      var n := dd.Length;
      SlotNext(|arrived|, n);
      ReadyMore(dd[..], |delivered|, |arrived|);
      WindowExtends(slots[..], arrived, |delivered|, pkt);
      slots[hwHead] := pkt;
      dd[hwHead] := true;
      hwHead := if hwHead + 1 == n then 0 else hwHead + 1;
      arrived := arrived + [pkt];
    }

    /** Read the status of the `j`th descriptor ahead, after the hardware received some packets. */
    method ReadStatus(rxdp: nat, j: nat, pkts: seq<Packet>) returns (status: int)
      requires Holds() && rxdp == Slot(|delivered|, dd.Length) && j < LOOK_AHEAD
      modifies dd, slots, this`hwHead, this`arrived
      ensures Holds() && old(arrived) <= arrived
      ensures status == if |delivered| + j < |arrived| then 1 else 0
    {
      Hardware(pkts);
      StatusAt(rxdp, j);
      status := if dd[(rxdp + j) % dd.Length] then 1 else 0;
    }

    /** Read the statuses of the next descriptors, the last one first; before each read the hardware
        receives some packets. */
    method ReadWindow(rxdp: nat, arrivals: seq<seq<Packet>>) returns (s: array<int>)
      requires Holds() && rxdp == Slot(|delivered|, dd.Length) && |arrivals| == LOOK_AHEAD
      modifies dd, slots, this`hwHead, this`arrived
      ensures Holds() && old(arrived) <= arrived
      ensures fresh(s) && s.Length == LOOK_AHEAD && Front(s[..])
      ensures forall k {:trigger s[k]} :: 0 <= k < LOOK_AHEAD && s[k] == 1 ==> |delivered| + k < |arrived|
      ensures forall k {:trigger s[k]} :: 0 <= k < LOOK_AHEAD && s[k] == 0 ==> |old(arrived)| <= |delivered| + k
    {
      s := new int[LOOK_AHEAD];
      var j := LOOK_AHEAD;
      while j > 0
        invariant 0 <= j <= LOOK_AHEAD && Holds() == true && old(arrived) <= arrived
        invariant forall k {:trigger s[k]} :: j <= k < LOOK_AHEAD ==> s[k] == 0 || s[k] == 1
        invariant forall k {:trigger s[k]} :: j <= k < LOOK_AHEAD && s[k] == 1 ==> |delivered| + k < |arrived|
        invariant forall k, l {:trigger s[k], s[l]} :: j <= k < l < LOOK_AHEAD && s[l] == 1 ==> s[k] == 1
        invariant forall k {:trigger s[k]} :: j <= k < LOOK_AHEAD && s[k] == 0 ==> |old(arrived)| <= |delivered| + k
      {
        j := j - 1;
        s[j] := ReadStatus(rxdp, j, arrivals[LOOK_AHEAD - 1 - j]);
      }
    }

    /** The status of the `j`th descriptor ahead. */
    lemma StatusAt(rxdp: nat, j: nat)
      requires Holds() && rxdp == Slot(|delivered|, dd.Length) && j < LOOK_AHEAD
      ensures (rxdp + j) % dd.Length == Slot(|delivered| + j, dd.Length)
      ensures dd[Slot(|delivered| + j, dd.Length)] <==> |delivered| + j < |arrived|
    {
      SlotAhead(|delivered|, j, dd.Length);
      assert dd[..][Slot(|delivered| + j, dd.Length)] <==> |delivered| + j < |arrived|;
    }

    /** The stack's answer to the packet in slot `at`: if it keeps the packet, a new buffer takes the place
        of the packet's. */
    method Answer(at: nat, keep: bool)
      requires at < buf.Length && Owned() && Answered()
      modifies buf, this`kept, this`nextBuf, this`handed, this`choices
      ensures Owned() && Answered()
      ensures handed == old(handed) + [old(buf[at])] && choices == old(choices) + [keep]
      ensures kept == old(kept) + if keep then [old(buf[at])] else []
      ensures buf[..] == old(buf[..])[at := if keep then old(nextBuf) else old(buf[at])]
    {
      KeptMore(handed, choices, buf[at], keep);
      handed, choices := handed + [buf[at]], choices + [keep];
      if keep {
        kept := kept + [buf[at]];
        buf[at] := nextBuf;
        nextBuf := nextBuf + 1;
      }
    }

    /** Hand the packet in slot `at` to the stack and give the descriptor back. */
    method Deliver(at: nat, keep: bool)
      requires Sound() && |delivered| < |arrived| && at == Slot(|delivered|, dd.Length)
      modifies dd, buf, this`delivered, this`kept, this`nextBuf, this`handed, this`choices
      ensures Sound() && delivered == old(delivered) + [slots[at]]
      ensures handed == old(handed) + [old(buf[at])] && choices == old(choices) + [keep]
      ensures kept == old(kept) + if keep then [old(buf[at])] else []
      ensures buf[..] == old(buf[..])[at := if keep then old(nextBuf) else old(buf[at])]
    {
      ReadyLess(dd[..], |delivered|, |arrived|);
      assert slots[..][Slot(|delivered|, dd.Length)] == arrived[|delivered|];
      delivered := delivered + [slots[at]];
      Answer(at, keep);
      dd[at] := false;
    }

    /** Hand the next `nb` packets to the stack. */
    method DeliverAll(rxdp: nat, nb: nat, keep: seq<bool>)
      requires Sound() && rxdp == Slot(|delivered|, dd.Length)
      requires nb <= |keep| && |delivered| + nb <= |arrived|
      modifies dd, buf, this`delivered, this`kept, this`nextBuf, this`handed, this`choices
      ensures Sound() && |delivered| == |old(delivered)| + nb && old(delivered) <= delivered
      ensures old(handed) <= handed && choices == old(choices) + keep[..nb]
    {
      ghost var p := |delivered|;
      var j := 0;
      while j < nb
        invariant 0 <= j <= nb && Sound() && old(delivered) <= delivered && |delivered| == p + j
        invariant old(handed) <= handed && choices == old(choices) + keep[..j]
      {
        SlotAhead(p, j, dd.Length);
        Deliver((rxdp + j) % dd.Length, keep[j]);
        j := j + 1;
      }
    }

    /** One window: count what is ready, deliver that. */
    method DeliverWindow(rxdp: nat, arrivals: seq<seq<Packet>>, keep: seq<bool>) returns (nbDd: nat)
      requires Sound() && rxdp == Slot(|delivered|, dd.Length)
      requires |arrivals| == LOOK_AHEAD == |keep|
      modifies this`hwHead, this`arrived, this`delivered, this`kept, this`nextBuf, this`handed, this`choices, dd, slots, buf
      ensures Sound() && old(arrived) <= arrived
      ensures nbDd <= LOOK_AHEAD && |delivered| == |old(delivered)| + nbDd && old(delivered) <= delivered
      ensures nbDd < LOOK_AHEAD ==> |old(arrived)| <= |delivered|
      ensures old(handed) <= handed && choices == old(choices) + keep[..nbDd]
    {
      var s := ReadWindow(rxdp, arrivals);
      FrontSum(s[..], LOOK_AHEAD);
      SumOfEight(s[..]);
      nbDd := s[0] + s[1] + s[2] + s[3] + s[4] + s[5] + s[6] + s[7];
      assert nbDd > 0 ==> s[..][nbDd - 1] == 1;
      assert nbDd < LOOK_AHEAD ==> s[..][nbDd] == 0;
      DeliverAll(rxdp, nbDd, keep);
    }

    /** Where the window at descriptor `i` of the burst starts. */
    method WindowStart(i: nat, from: nat) returns (rxdp: nat)
      requires dd.Length > 0 && (i == 0 || i >= LOOK_AHEAD)
      requires from == Slot(if i == 0 then start else start + i - LOOK_AHEAD, dd.Length)
      ensures rxdp == Slot(start + i, dd.Length)
    {
      rxdp := from;
      if i != 0 {
        SlotAhead(start + i - LOOK_AHEAD, LOOK_AHEAD, dd.Length);
        rxdp := (rxdp + LOOK_AHEAD) % dd.Length;
      }
    }

    /** Since the burst began with this state, `nb` packets were delivered and answered. */
    ghost predicate Scanned(was: Past, keep: seq<bool>, nb: nat)
      reads this
    {
      && was.arrived <= arrived && was.delivered <= delivered && |delivered| == start + nb
      && was.handed <= handed && nb <= |keep| && choices == was.choices + keep[..nb]
    }

    /** The window at descriptor `i` of the burst; `from` is where the window before it started. */
    method ScanWindow(i: nat, from: nat, arrivals: seq<seq<Packet>>, keep: seq<bool>, ghost was: Past)
        returns (rxdp: nat, nbDd: nat)
      requires Sound() && i + LOOK_AHEAD <= |arrivals| == |keep| && Scanned(was, keep, i) == true
      requires i == 0 || i >= LOOK_AHEAD
      requires from == Slot(if i == 0 then start else start + i - LOOK_AHEAD, dd.Length)
      modifies this`hwHead, this`arrived, this`delivered, this`kept, this`nextBuf, this`handed, this`choices, dd, slots, buf
      ensures Sound() && rxdp == Slot(start + i, dd.Length)
      ensures nbDd <= LOOK_AHEAD && Scanned(was, keep, i + nbDd) == true
      ensures nbDd < LOOK_AHEAD ==> |was.arrived| <= |delivered|
    {
      rxdp := WindowStart(i, from);
      nbDd := DeliverWindow(rxdp, arrivals[i..i + LOOK_AHEAD], keep[i..i + LOOK_AHEAD]);
      ChoicesJoin(was.choices, keep, i, nbDd);
    }

    /** Windows of 8 until one is not full or 64 descriptors are scanned. */
    method ScanWindows(arrivals: seq<seq<Packet>>, keep: seq<bool>) returns (nbRx: nat)
      requires Valid() && |arrivals| == IXGBE_RX_MAX_BURST == |keep|
      modifies this`hwHead, this`arrived, this`delivered, this`kept, this`nextBuf, this`handed, this`choices, dd, slots, buf
      ensures Sound() && old(arrived) <= arrived && old(delivered) <= delivered
      ensures nbRx <= IXGBE_RX_MAX_BURST && |delivered| == start + nbRx
      ensures nbRx < IXGBE_RX_MAX_BURST ==> |old(arrived)| <= |delivered|
      ensures old(handed) <= handed && choices == old(choices) + keep[..nbRx]
    {
      nbRx := 0;
      var rxdp, i, nbDd := rxTail, 0, 0;
      ghost var was, windows := Past(arrived, delivered, handed, choices), 0;
      while i < IXGBE_RX_MAX_BURST
        invariant i == LOOK_AHEAD * windows && i <= IXGBE_RX_MAX_BURST && nbRx == i
        invariant Sound() && Scanned(was, keep, i) == true
        invariant rxdp == Slot(if i == 0 then start else start + i - LOOK_AHEAD, dd.Length)
      {
        rxdp, nbDd := ScanWindow(i, rxdp, arrivals, keep, was);
        nbRx := nbRx + nbDd;
        if nbDd != LOOK_AHEAD {
          break;
        }
        i, windows := i + LOOK_AHEAD, windows + 1;
      }
    }

    /** One burst: scan and deliver, then the tail register.  The driver starts it when the first
        descriptor is ready. */
    method Burst(arrivals: seq<seq<Packet>>, keep: seq<bool>) returns (nbRx: nat)
      requires Valid() && |delivered| < |arrived| && |arrivals| == IXGBE_RX_MAX_BURST == |keep|
      modifies this, dd, slots, buf
      ensures Valid() && old(arrived) <= arrived && old(delivered) <= delivered
      ensures 1 <= nbRx <= IXGBE_RX_MAX_BURST && |delivered| == |old(delivered)| + nbRx
      ensures nbRx < IXGBE_RX_MAX_BURST ==> |old(arrived)| <= |delivered|
      ensures old(handed) <= handed && choices == old(choices) + keep[..nbRx]
      ensures rdt == (rxTail + dd.Length - 1) % dd.Length
    {
      nbRx := ScanWindows(arrivals, keep);
      AdvanceTail(nbRx);
    }

    /** Move the tail past what was delivered, and the hardware's register to one before it. */
    method AdvanceTail(nbRx: nat)
      requires Sound() && |delivered| == start + nbRx && nbRx > 0
      modifies this`rdt, this`rxTail, this`start
      ensures Valid() && rdt == (rxTail + dd.Length - 1) % dd.Length
    {
      TailSlots(start, nbRx, dd.Length);
      var tmp := rxTail + nbRx;
      rdt := (tmp - 1) % dd.Length;
      rxTail := tmp % dd.Length;
      start := |delivered|;
    }

    /** Bursts as long as the first descriptor is ready. */
    method InterruptHandler(arrivals: seq<seq<seq<Packet>>>, keep: seq<seq<bool>>)
      requires Valid() && |arrivals| == |keep|
      requires forall i {:trigger arrivals[i]} :: 0 <= i < |arrivals| ==>
                 |arrivals[i]| == IXGBE_RX_MAX_BURST == |keep[i]|
      modifies this, dd, slots, buf
      ensures Valid() && old(arrived) <= arrived && old(delivered) <= delivered
      ensures old(handed) <= handed && old(choices) <= choices
      ensures |delivered| >= |old(delivered)| + |arrivals| || delivered == arrived
    {
      var i := 0;
      StatusAt(rxTail, 0);
      while i < |arrivals| && dd[rxTail]
        invariant 0 <= i <= |arrivals| && Valid() && rxTail < dd.Length
        invariant dd[rxTail] <==> |delivered| < |arrived|
        invariant old(arrived) <= arrived && old(delivered) <= delivered && |delivered| >= |old(delivered)| + i
        invariant old(handed) <= handed && old(choices) <= choices
      {
        var _ := Burst(arrivals[i], keep[i]);
        StatusAt(rxTail, 0);
        i := i + 1;
      }
    }
  }

  lemma SumOfEight(s: seq<int>)
    requires |s| == LOOK_AHEAD
    ensures Sum(s, LOOK_AHEAD) == s[0] + s[1] + s[2] + s[3] + s[4] + s[5] + s[6] + s[7]
  {
    assert Sum(s, 1) == s[0];
    assert Sum(s, 2) == s[0] + s[1];
    assert Sum(s, 3) == s[0] + s[1] + s[2];
    assert Sum(s, 4) == s[0] + s[1] + s[2] + s[3];
    assert Sum(s, 5) == s[0] + s[1] + s[2] + s[3] + s[4];
    assert Sum(s, 6) == s[0] + s[1] + s[2] + s[3] + s[4] + s[5];
    assert Sum(s, 7) == s[0] + s[1] + s[2] + s[3] + s[4] + s[5] + s[6];
  }

  /** `k` slots on from a position's slot, as the driver computes it. */
  lemma SlotAhead(p: nat, k: nat, n: nat)
    requires n > 0
    ensures (Slot(p, n) + k) % n == Slot(p + k, n)
  {
    SlotIsRemainder(Slot(p, n) + k, n);
    SlotShift(p, k, n);
  }

  lemma TailSlots(start: nat, nb: nat, n: nat)
    requires n > 0 && nb > 0
    ensures (Slot(start, n) + nb) % n == Slot(start + nb, n)
    ensures (Slot(start, n) + nb - 1) % n == Slot(start + nb + n - 1, n)
    ensures (Slot(start + nb, n) + n - 1) % n == Slot(start + nb + n - 1, n)
  {
    SlotAhead(start, nb, n);
    SlotAhead(start, nb - 1, n);
    SlotAhead(start + nb, n - 1, n);
    assert Slot(start + nb + n - 1, n) == Slot(start + nb - 1, n);
  }

  /** From position `r` on for a lap, the done bits say which descriptors the hardware has filled. */
  ghost predicate Ready(dd: seq<bool>, r: nat, w: nat)
    requires |dd| > 0
  {
    forall q {:trigger dd[Slot(q, |dd|)]} :: r <= q < r + |dd| ==> (dd[Slot(q, |dd|)] <==> q < w)
  }

  lemma ReadyMore(dd: seq<bool>, r: nat, w: nat)
    requires |dd| > 0 && r <= w < r + |dd| && Ready(dd, r, w)
    ensures Ready(dd[Slot(w, |dd|) := true], r, w + 1)
  {
    var n, dd' := |dd|, dd[Slot(w, |dd|) := true];
    forall q | r <= q < r + n ensures dd'[Slot(q, n)] <==> q < w + 1 {
      if q < w {
        SlotDistinct(q, w, n);
      } else if w < q {
        SlotDistinct(w, q, n);
      }
      assert dd[Slot(q, n)] <==> q < w;
    }
  }

  lemma ReadyLess(dd: seq<bool>, r: nat, w: nat)
    requires |dd| > 0 && r < w < r + |dd| && Ready(dd, r, w)
    ensures Ready(dd[Slot(r, |dd|) := false], r + 1, w)
  {
    var n, dd' := |dd|, dd[Slot(r, |dd|) := false];
    forall q | r + 1 <= q < r + 1 + n ensures dd'[Slot(q, n)] <==> q < w {
      if q < r + n {
        SlotDistinct(r, q, n);
        assert dd[Slot(q, n)] <==> q < w;
      }
    }
  }
}
