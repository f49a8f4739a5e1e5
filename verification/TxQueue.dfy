/**
 The transmit queue in place: `multi_send` and `xmit_cleanup` on the descriptor and software
 rings.  `model` is the queue's state as `TxSystem` describes it; the hardware takes descriptors
 between the driver's steps, as many as `hardware` says.
 */
module TxQueues {
  import opened Circular
  import opened TxThresholds
  import opened TxRings
  import opened TxSystem
  import opened TxRuns

  /** The threshold request changes nothing but the last descriptor. */
  lemma RequestLast(r: Ring, bodies: seq<Body>, buf: Mbuf, last: nat)
    requires Shape(r) && bodies != []
    ensures var r1 := PutMany(r, bodies, buf, |bodies| - 1, last, false);
            var r', d := PutMany(r, bodies, buf, |bodies|, last, false), Desc(bodies[|bodies| - 1], true);
            && |r'.log| == |r1.log| + 1
            && PutMany(r, bodies, buf, |bodies|, last, true) == r'.(desc := r'.desc[r1.tail := d], log := r1.log + [d])
  {
    SameBefore(r, bodies, buf, |bodies| - 1, last);
    var r1 := PutMany(r, bodies, buf, |bodies| - 1, last, false);
    var d, d' := Desc(bodies[|bodies| - 1], true), Desc(bodies[|bodies| - 1], false);
    assert r1.desc[r1.tail := d'][r1.tail := d] == r1.desc[r1.tail := d];
  }

  lemma {:induction false} SameBefore(r: Ring, bodies: seq<Body>, buf: Mbuf, k: nat, last: nat)
    requires Shape(r) && k < |bodies|
    ensures PutMany(r, bodies, buf, k, last, true) == PutMany(r, bodies, buf, k, last, false)
  {
    if k > 0 {
      SameBefore(r, bodies, buf, k - 1, last);
    }
  }

  lemma BlankOneMore(sw: seq<Entry>, lo: nat, i: nat)
    requires lo <= i < |sw|
    ensures BlankRange(sw, lo, i)[i := Blank(i, |sw|)] == BlankRange(sw, lo, i + 1)
    ensures BlankRange(sw, lo, i)[i] == sw[i]
    ensures BlankRange(sw, lo, lo) == sw
  {
  }

  /** Nothing changed but what the hardware has taken and reported. */
  ghost predicate SameDriver(t: Tx, t': Tx) {
    && t'.ring.log == t.ring.log && t'.free == t.free && t'.sent == t.sent && t'.tdtPos == t.tdtPos
    && t'.reclaimed == t.reclaimed && t.hwTaken <= t'.hwTaken
  }

  /** What was taken and reclaimed only grows, and the doorbell is not rung. */
  ghost predicate Onward(t: Tx, t': Tx) {
    t'.tdtPos == t.tdtPos && t.reclaimed <= t'.reclaimed && t.hwTaken <= t'.hwTaken
  }

  lemma FreeIsNat(t: Tx)
    requires Inv(t)
    ensures t.free >= 0
  {
  }

  /** What was released is what these entries kept.  (For whichever length they have, so that the
      sum is looked at only where it changes.) */
  ghost predicate Paid(released: seq<Region>, kept: seq<Entry>) {
    forall k {:trigger ReleaseFirst(kept, k)} :: k == |kept| ==> released == ReleaseFirst(kept, k)
  }

  lemma PaidOneMore(released: seq<Region>, kept: seq<Entry>, e: Entry)
    requires Paid(released, kept)
    ensures Paid(released + Flagged(e.buf), kept + [e])
  {
    ReleaseOne(kept, e);
  }

  class TxQueue {
    const desc: array<Desc>
    const dd: array<bool>
    const sw: array<Entry>
    var tail: nat
    var used: nat
    var free: int
    var lastCleaned: nat
    var tdt: nat
    var hwHead: nat
    /** What was given back to the allocators, in order. */
    var released: seq<Region>
    /** The entries these were kept in. */
    ghost var kept: seq<Entry>
    ghost var model: Tx

    ghost predicate Matches()
      reads this, desc, dd, sw
    {
      && model.ring.desc == desc[..] && model.ring.dd == dd[..] && model.ring.sw == sw[..]
      && tail == model.ring.tail && used == model.used && free == model.free
      && lastCleaned == model.lastCleaned && tdt == model.tdt && hwHead == model.hwHead
      && kept == model.reclaimed && Paid(released, kept)
    }

    ghost predicate Valid()
      reads this, desc, dd, sw
    {
      Matches() && Good(model)
    }

    constructor (n: nat)
      requires n >= TX_RS_THRESH
      ensures Valid() && model == Init(n) && fresh(desc) && fresh(dd) && fresh(sw)
    {
      desc := new Desc[n](_ => Desc(Context, false));
      dd := new bool[n](_ => false);
      sw := new Entry[n](i requires 0 <= i < n => Blank(i, n));
      tail, used, free, lastCleaned, tdt, hwHead := 0, 0, n - 1, n - 1, 0, 0;
      released, kept := [], [];
      model := Init(n);
      new;
      InitInv(n);
      assert desc[..] == Empty(n).desc && dd[..] == Empty(n).dd && sw[..] == Empty(n).sw;
    }

    /** The hardware takes a descriptor. */
    method TakeOne()
      requires Valid() && CanFetch(model)
      modifies this`hwHead, this`model, dd
      ensures Matches() && model == Fetch(old(model)) && Inv(model) == true
    {
      FetchPreserves(model);
      model := Fetch(model);
      if desc[hwHead].rs {
        dd[hwHead] := true;
      }
      hwHead := if hwHead + 1 == desc.Length then 0 else hwHead + 1;
    }

    /** The hardware takes up to `k` descriptors. */
    method Hardware(k: nat)
      requires Valid()
      modifies this`hwHead, this`model, dd
      ensures Valid() && SameDriver(old(model), model)
    {
      var i := 0;
      while i < k && hwHead != tdt
        invariant Valid() && SameDriver(old(model), model)
        decreases k - i
      {
        FetchReady(model);
        TakeOne();
        i := i + 1;
      }
    }

    // ---------------------------------------------------------------- cleaning

    /** Give back what a packet is flagged to release. */
    method Release(m: Mbuf)
      modifies this`released
      ensures released == old(released) + Flagged(m)
    {
      if m.release {
        released := released + [m.region];
      }
      if m.release0 {
        released := released + [m.region0];
      }
      if m.release1 {
        released := released + [m.region1];
      }
    }

    /** Give back what an entry keeps, and reset it. */
    method ResetEntry(i: nat)
      requires i < sw.Length && Paid(released, kept)
      modifies sw, this`released, this`kept
      ensures sw[..] == old(sw[..])[i := Blank(i, sw.Length)]
      ensures kept == old(kept) + [old(sw[..])[i]] && Paid(released, kept)
    {
      PaidOneMore(released, kept, sw[i]);
      Release(sw[i].buf);
      kept := kept + [sw[i]];
      NextIsRemainder(i, sw.Length);
      sw[i] := Entry(ZERO, (i + 1) % sw.Length, i);
    }

    /** Give back what the entries from `lo` up to `hi` keep, and reset them. */
    method ResetRange(lo: nat, hi: nat)
      requires lo <= hi <= sw.Length && Paid(released, kept)
      modifies sw, this`released, this`kept
      ensures sw[..] == BlankRange(old(sw[..]), lo, hi)
      ensures kept == old(kept) + old(sw[..])[lo..hi] && Paid(released, kept)
    {
      ghost var was := sw[..];
      var i := lo;
      assert BlankRange(was, lo, lo) == was;
      while i < hi
        invariant lo <= i <= hi
        invariant sw[..] == BlankRange(was, lo, i)
        invariant kept == old(kept) + was[lo..i] && Paid(released, kept)
      {
        BlankOneMore(was, lo, i);
        ResetEntry(i);
        i := i + 1;
      }
    }

    /** Reset the slots after `lastCleaned` to the end, and from the start up to `to`. */
    method ResetWrapped(to: nat)
      requires to < lastCleaned < sw.Length && Paid(released, kept)
      modifies sw, this`released, this`kept
      ensures sw[..] == BlankRange(BlankRange(old(sw[..]), lastCleaned + 1, sw.Length), 0, to + 1)
      ensures kept == old(kept) + (old(sw[..])[lastCleaned + 1..sw.Length] + old(sw[..])[0..to + 1])
      ensures Paid(released, kept)
    {
      ghost var was, before := sw[..], kept;
      ghost var first, second := was[lastCleaned + 1..sw.Length], was[0..to + 1];
      ResetRange(lastCleaned + 1, sw.Length);
      ghost var sw1 := sw[..];
      assert sw1[0..to + 1] == second;
      ResetRange(0, to + 1);
      assert kept == (before + first) + second;
      Associative(before, first, second);
    }

    /** Reset the slots after `lastCleaned` up to and including `to`. */
    method ResetTo(to: nat)
      requires lastCleaned < sw.Length && to < sw.Length && Paid(released, kept)
      modifies sw, this`released, this`kept
      ensures sw[..] == Swept(old(sw[..]), lastCleaned, to)
      ensures kept == old(kept) + Reclaimed(old(sw[..]), lastCleaned, to) && Paid(released, kept)
    {
      ghost var all, before := Reclaimed(sw[..], lastCleaned, to), kept;
      if lastCleaned > to {
        ResetWrapped(to);
      } else {
        ResetRange(lastCleaned + 1, to + 1);
      }
      assert kept == before + all;
    }

    /** Reclaim up to the tested slot. */
    method CleanTo(to: nat)
      requires Matches() && CanClean(model) && to == Tested(sw[..], lastCleaned)
      modifies this, dd, sw
      ensures Matches() && model == Clean(old(model))
    {
      ghost var t := Clean(model);
      var count := if lastCleaned > to then sw.Length - lastCleaned + to else to - lastCleaned;
      ResetTo(to);
      dd[to] := false;
      lastCleaned := to;
      free := free + count;
      model := t;
    }

    /** Reclaim up to the next threshold if its descriptor is done. */
    method XmitCleanup() returns (ok: bool)
      requires Valid()
      modifies this, dd, sw
      ensures Valid() && ok == CanClean(old(model))
      ensures model == if ok then Clean(old(model)) else old(model)
    {
      CleanExact(model);
      var to := lastCleaned + TX_RS_THRESH;
      if to >= sw.Length {
        to := to - sw.Length;
      }
      to := sw[to].lastId;
      if !dd[to] {
        return false;
      }
      CleanPreserves(model);
      CleanTo(to);
      return true;
    }

    // ---------------------------------------------------------------- sending

    /** The rings as they stand, with this history. */
    ghost function Now(log: seq<Desc>, entries: seq<Entry>): Ring
      reads this, desc, dd, sw
    {
      Ring(desc[..], dd[..], sw[..], tail, log, entries)
    }

    /** The rings hold what writing the first `k` descriptors to `r` gives. */
    ghost predicate Wrote(r: Ring, bodies: seq<Body>, m: Mbuf, k: nat, last: nat)
      requires Shape(r) && k <= |bodies|
      reads this, desc, dd, sw
    {
      var r' := PutMany(r, bodies, m, k, last, false);
      Now(r'.log, r'.entries) == r'
    }

    /** Write the `k`th descriptor of a packet. */
    method PutOne(body: Body, m: Mbuf, k: nat, last: nat, ghost bodies: seq<Body>, ghost r: Ring)
      requires Shape(r) && k < |bodies| && body == bodies[k] && Wrote(r, bodies, m, k, last)
      modifies this`tail, desc, dd, sw
      ensures Wrote(r, bodies, m, k + 1, last)
    {
      assert Shape(PutMany(r, bodies, m, k, last, false));
      desc[tail] := Desc(body, false);
      if k <= 1 {
        dd[tail] := false;
      }
      if k == 1 {
        sw[tail] := sw[tail].(buf := m);
      }
      sw[tail] := sw[tail].(lastId := last);
      tail := sw[tail].nextId;
    }

    /** Write the descriptors of a packet; `txd` is the slot of the last one. */
    method PutPacket(m: Mbuf, last: nat, ghost r: Ring) returns (txd: nat)
      requires Shape(r) && WellFormed(m) && Wrote(r, Bodies(m), m, 0, last)
      modifies this`tail, desc, dd, sw
      ensures Wrote(r, Bodies(m), m, |Bodies(m)|, last)
      ensures txd == PutMany(r, Bodies(m), m, |Bodies(m)| - 1, last, false).tail
    {
      ghost var b := Bodies(m);
      PutOne(Context, m, 0, last, b, r);
      txd := tail;
      if m.segments == 1 {
        PutOne(Data(m.addr, m.len, true), m, 1, last, b, r);
      } else {
        PutOne(Data(m.addr, m.len, false), m, 1, last, b, r);
        txd := tail;
        if m.segLen0 != 0 && m.segLen1 != 0 {
          PutOne(Data(m.segAddr0, m.segLen0, false), m, 2, last, b, r);
          txd := tail;
          PutOne(Data(m.segAddr1, m.segLen1, true), m, 3, last, b, r);
        } else if m.segLen0 != 0 {
          PutOne(Data(m.segAddr0, m.segLen0, true), m, 2, last, b, r);
        } else {
          PutOne(Data(m.segAddr1, m.segLen1, true), m, 2, last, b, r);
        }
      }
    }

    /** Write the descriptors of a packet, the last one with a status request if `rs`. */
    method PutAndRequest(m: Mbuf, last: nat, rs: bool, ghost r: Ring)
      requires Shape(r) && WellFormed(m) && Now(r.log, r.entries) == r
      modifies this`tail, desc, dd, sw
      ensures var r' := PutMany(r, Bodies(m), m, |Bodies(m)|, last, rs); Now(r'.log, r'.entries) == r'
    {
      RequestLast(r, Bodies(m), m, last);
      var txd := PutPacket(m, last, r);
      if rs {
        desc[txd] := desc[txd].(rs := true);
      }
    }

    method SendFitting(m: Mbuf)
      requires Matches() && CanSend(model, m) && |Bodies(m)| == Needs(m)
      modifies this, desc, dd, sw
      ensures Matches() && model == Send(old(model), m)
    {
      ghost var t := Send(model, m);
      var nbUsed := m.segments + 1;
      var last := tail + nbUsed - 1;
      if last >= desc.Length {
        last := last - desc.Length;
      }
      PutAndRequest(m, last, used + nbUsed >= TX_RS_THRESH, model.ring);
      used := used + nbUsed;
      free := free - nbUsed;
      if used >= TX_RS_THRESH {
        used := 0;
      }
      model := t;
    }

    /** Send a packet there is room for. */
    method SendPacket(m: Mbuf)
      requires Valid() && WellFormed(m) && Needs(m) <= free
      modifies this, desc, dd, sw
      ensures Valid() && CanSend(old(model), m) && model == Send(old(model), m)
    {
      InvShape(model);
      BodiesAre(m);
      SendPreserves(model, m);
      SendFitting(m);
    }

    /** Clean, the hardware having gone on meanwhile. */
    method TryClean(k: nat) returns (ok: bool)
      requires Valid()
      modifies this, dd, sw
      ensures Valid() && Onward(old(model), model)
      ensures model.sent == old(model.sent) && model.ring.log == old(model.ring.log)
      ensures if ok then free >= old(free) + 64 else free == old(free) && !CanClean(model)
    {
      Hardware(k);
      ghost var t := model;
      ok := XmitCleanup();
      if ok {
        CleanFrees(t);
      }
    }

    /** Make room for the next packet if there is none. */
    method MakeRoom(needs: nat, k: nat) returns (ok: bool)
      requires Valid() && needs <= 4
      modifies this, dd, sw
      ensures Valid() && Onward(old(model), model)
      ensures model.sent == old(model.sent) && model.ring.log == old(model.ring.log)
      ensures if ok then needs <= free else needs > free && !CanClean(model)
    {
      ok := true;
      if needs > free {
        FreeIsNat(model);
        ok := TryClean(k);
      }
    }

    /** Send the next packet if there is room or can be. */
    method SendNext(m: Mbuf, k: nat) returns (ok: bool)
      requires Valid() && WellFormed(m)
      modifies this, desc, dd, sw
      ensures Valid() && Onward(old(model), model)
      ensures model.sent == old(model.sent) + if ok then [m] else []
      ensures !ok ==> Needs(m) > free && !CanClean(model) && model.ring.log == old(model.ring.log)
    {
      BodiesAre(m);
      ok := MakeRoom(m.segments + 1, k);
      if ok {
        SendPacket(m);
      }
    }

    /** Send packets until one finds no room. */
    method SendUntilFull(pkts: seq<Mbuf>, hardware: seq<nat>) returns (nbTx: nat)
      requires Valid() && |hardware| == |pkts|
      requires forall i {:trigger pkts[i]} :: 0 <= i < |pkts| ==> WellFormed(pkts[i])
      modifies this, desc, dd, sw
      ensures Valid() && Onward(old(model), model)
      ensures nbTx <= |pkts| && model.sent == old(model.sent) + pkts[..nbTx]
      ensures nbTx < |pkts| ==> Needs(pkts[nbTx]) > free && !CanClean(model)
      ensures nbTx == 0 ==> model.ring.log == old(model.ring.log)
    {
      nbTx := 0;
      while nbTx < |pkts|
        invariant nbTx <= |pkts| && Valid() && Onward(old(model), model)
        invariant model.sent == old(model.sent) + pkts[..nbTx]
        invariant nbTx == 0 ==> model.ring.log == old(model.ring.log)
      {
        var ok := SendNext(pkts[nbTx], hardware[nbTx]);
        if !ok {
          break;
        }
        assert pkts[..nbTx + 1] == pkts[..nbTx] + [pkts[nbTx]];
        nbTx := nbTx + 1;
      }
    }

    /** Ring the doorbell. */
    method RingTail()
      requires Valid()
      modifies this`tdt, this`model
      ensures Valid() && model == WriteTail(old(model))
    {
      WriteTailPreserves(model);
      tdt := tail;
      model := WriteTail(model);
    }

    /** Send packets until one finds no room; ring the doorbell for those sent.  Before the clean at
        the start the hardware takes `before` descriptors, and `hardware[i]` before the one for packet
        `i`. */
    method MultiSend(pkts: seq<Mbuf>, before: nat, hardware: seq<nat>) returns (nbTx: nat)
      requires Valid() && |hardware| == |pkts|
      requires forall i {:trigger pkts[i]} :: 0 <= i < |pkts| ==> WellFormed(pkts[i])
      modifies this, desc, dd, sw
      ensures Valid()
      ensures nbTx <= |pkts| && model.sent == old(model.sent) + pkts[..nbTx]
      ensures old(model.reclaimed) <= model.reclaimed && old(model.hwTaken) <= model.hwTaken
      ensures nbTx < |pkts| ==> Needs(pkts[nbTx]) > free && !CanClean(model)
      ensures if nbTx > 0 || pkts == [] then model.tdtPos == |model.ring.log|
              else model.tdtPos == old(model.tdtPos) && model.ring.log == old(model.ring.log)
    {
      if desc.Length - free > TX_FREE_THRESH {
        var _ := TryClean(before);
      }
      nbTx := SendUntilFull(pkts, hardware);
      if nbTx == 0 && pkts != [] {
        return;
      }
      RingTail();
    }
  }
}
