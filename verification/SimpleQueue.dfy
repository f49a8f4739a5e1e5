/**
 The simple send path in place: `send` and the counters of `tx_free_bufs` on the arrays they share
 with the hardware.  `model` is the queue's state as `SimpleSystem` describes it.  Each method that
 touches shared memory is one step; between the steps the hardware takes as many descriptors as it
 likes.
 */
module SimpleQueues {
  import opened TxThresholds
  import opened SimpleSend
  import opened SimpleSystem

  /** Nothing changed but what the hardware has taken and reported. */
  ghost predicate SameDriver(s: Sq, s': Sq) {
    && s' == s.(dd := s'.dd, hwHead := s'.hwHead, hw := s'.hw, taken := s'.taken)
    && s.taken <= s'.taken && s.hw <= s'.hw
  }

  /** The same call of the driver, some steps on. */
  ghost predicate SameCall(s: Sq, s': Sq) {
    && s'.sent == s.sent && s'.free == s.free && s'.reclaimed == s.reclaimed && s'.rung == s.rung
    && s.taken <= s'.taken
  }

  /** No more sent, and nothing taken or reclaimed undone. */
  ghost predicate SameSent(s: Sq, s': Sq) {
    s'.sent == s.sent && s.taken <= s'.taken && s.reclaimed <= s'.reclaimed
  }

  class SimpleQueue {
    const desc: array<Frame>
    const rs: array<bool>
    const dd: array<bool>
    var tail: nat
    var nextRs: nat
    var nextDd: nat
    var free: nat
    var tdt: nat
    var hwHead: nat
    ghost var model: Sq

    ghost predicate Matches()
      reads this, desc, rs, dd
    {
      && rs != dd && model.desc == desc[..] && model.rs == rs[..] && model.dd == dd[..]
      && tail == model.tail && nextRs == model.nextRs && nextDd == model.nextDd && free == model.free
      && tdt == model.tdt && hwHead == model.hwHead
    }

    /** At any moment. */
    ghost predicate Sound()
      reads this, desc, rs, dd
    {
      Matches() && Inv(model) == true
    }

    /** Between calls. */
    ghost predicate Valid()
      reads this, desc, rs, dd
    {
      Sound() && model.pc.Idle?
    }

    constructor (n: nat)
      requires n >= 128 && Offset(n) == 0
      ensures Valid() && model == Init(n) && fresh(desc) && fresh(rs) && fresh(dd)
    {
      desc := new Frame[n](_ => Frame(0, 0));
      rs := new bool[n](_ => false);
      dd := new bool[n](_ => false);
      tail, nextRs, nextDd, free, tdt, hwHead := 0, TX_RS_THRESH - 1, TX_RS_THRESH - 1, n - 1, 0, 0;
      model := Init(n);
      new;
      InitInv(n);
      assert desc[..] == model.desc && rs[..] == model.rs && dd[..] == model.dd;
    }

    // ---------------------------------------------------------------- the hardware

    /** The hardware takes the next rung descriptor, and reports it done if asked to. */
    method TakeOne()
      requires Sound() && CanFetch(model)
      modifies dd, this`hwHead, this`model
      ensures Sound() && model == Fetch(old(model)) && SameDriver(old(model), model)
    {
      FetchPreserves(model);
      model := Fetch(model);
      if rs[hwHead] {
        dd[hwHead] := true;
      }
      hwHead := if hwHead + 1 == desc.Length then 0 else hwHead + 1;
    }

    /** The hardware takes any number of descriptors. */
    method Hardware()
      requires Sound()
      modifies dd, this`hwHead, this`model
      ensures Sound() && SameDriver(old(model), model)
    {
      var k: nat := *;
      while k > 0 && hwHead != tdt
        invariant Sound() && SameDriver(old(model), model)
      {
        FetchReady(model);
        TakeOne();
        k := k - 1;
      }
    }

    // ---------------------------------------------------------------- the driver

    /** Write one descriptor: no status request yet, and the done bit cleared. */
    method WriteOne(frame: Frame, at: nat)
      requires Sound() && CanWrite(model) && frame == model.pc.todo[0] && at == model.pc.at
      modifies desc, rs, dd, this`model
      ensures Sound() && model == Write(old(model))
    {
      WritePreserves(model);
      desc[at] := frame;
      rs[at] := false;
      dd[at] := false;
      model := Write(model);
    }

    /** Write the next descriptor, and let the hardware go on. */
    method WriteNext(frame: Frame, at: nat)
      requires Sound() && model.pc.Filling? && at == model.pc.at && model.pc.todo != [] && model.pc.todo[0] == frame
      modifies desc, rs, dd, this`hwHead, this`model
      ensures Sound() && model.pc == old(model.pc).(todo := old(model.pc).todo[1..], at := at + 1)
      ensures SameCall(old(model), model)
    {
      WriteOne(frame, at);
      Hardware();
    }

    /** Write descriptors from slot `at` on. */
    method Fill(pkts: seq<Frame>, at: nat)
      requires Sound() && model.pc.Filling? && model.pc.todo == pkts && model.pc.at == at
      modifies desc, rs, dd, this`hwHead, this`model
      ensures Sound() && model.pc == old(model.pc).(todo := [], at := at + |pkts|) && SameCall(old(model), model)
    {
      var i := 0;
      while i < |pkts|
        invariant 0 <= i <= |pkts| && Sound() && SameCall(old(model), model)
        invariant model.pc == old(model.pc).(todo := pkts[i..], at := at + i)
      {
        WriteNext(pkts[i], at + i);
        assert pkts[i..][1..] == pkts[i + 1..];
        i := i + 1;
      }
    }

    /** At the end of the ring: request the last descriptor, and go on from the start. */
    method RequestTop()
      requires Sound() && model.pc.Filling? && model.pc.todo == [] && model.pc.top
      modifies rs, this`nextRs, this`tail, this`model
      ensures Sound() && CanRequest(old(model)) && model == RequestEnd(old(model))
    {
      RequestReady(model);
      RequestPreserves(model);
      rs[nextRs] := true;
      nextRs := TX_RS_THRESH - 1;
      tail := 0;
      model := RequestEnd(model);
    }

    /** Move the tail by `nb`, and request the block end it passed if it passed one. */
    method RequestPassed(nb: nat)
      requires Sound() && model.pc.Filling? && model.pc.todo == [] && !model.pc.top && tail + nb == model.pc.at
      modifies rs, this`nextRs, this`tail, this`model
      ensures Sound() && CanRequest(old(model)) && model == RequestEnd(old(model))
    {
      RequestReady(model);
      RequestPreserves(model);
      ghost var s := RequestEnd(model);
      tail := tail + nb;
      if tail > nextRs {
        rs[nextRs] := true;
        nextRs := nextRs + TX_RS_THRESH;
        if nextRs >= desc.Length {
          nextRs := TX_RS_THRESH - 1;
        }
      }
      if tail >= desc.Length {
        tail := 0;
      }
      model := s;
    }

    /** Write the tail register. */
    method Ring()
      requires Sound() && model.pc.Ringing?
      modifies this`tdt, this`model
      ensures Valid() && model == RingTail(old(model))
    {
      RingPreserves(model);
      tdt := tail;
      model := RingTail(model);
    }

    /** Reclaim the oldest block if its last descriptor is done. */
    method FreeBufs() returns (count: nat)
      requires Sound() && model.pc.Freeing?
      modifies this`free, this`nextDd, this`model
      ensures Sound() && CanFree(old(model)) && model == Free(old(model))
      ensures count == (if old(model.reclaimed) + 64 <= model.hw then 64 else 0) && free == old(free) + count
    {
      FreeTestExact(model);
      FreePreserves(model);
      ghost var s := Free(model);
      count := 0;
      if dd[nextDd] {
        free := free + TX_RS_THRESH;
        nextDd := nextDd + TX_RS_THRESH;
        if nextDd >= desc.Length {
          nextDd := TX_RS_THRESH - 1;
        }
        count := TX_RS_THRESH;
      }
      model := s;
    }

    /** Start a call, and see whether little is free. */
    method Enter(pkts: seq<Frame>) returns (low: bool)
      requires Valid()
      modifies this`model
      ensures Sound() && model.pc == (if low then Freeing(pkts) else Starting(pkts)) && SameSent(old(model), model)
      ensures model == Call(old(model), pkts)
    {
      CallPreserves(model, pkts);
      model := Call(model, pkts);
      low := free < TX_FREE_THRESH;
    }

    /** Let the hardware go on, and reclaim. */
    method Reclaim(pkts: seq<Frame>)
      requires Sound() && model.pc == Freeing(pkts)
      modifies dd, this`hwHead, this`free, this`nextDd, this`model
      ensures Sound() && model.pc == Starting(pkts) && SameSent(old(model), model)
    {
      Hardware();
      var _ := FreeBufs();
    }

    /** Start a call: reclaim if little is free. */
    method Begin(pkts: seq<Frame>)
      requires Valid()
      modifies dd, this`hwHead, this`free, this`nextDd, this`model
      ensures Sound() && model.pc == Starting(pkts) && SameSent(old(model), model)
    {
      Hardware();
      var low := Enter(pkts);
      if low {
        Reclaim(pkts);
      }
    }

    /** Take as many descriptors as are free. */
    method Take(pkts: seq<Frame>) returns (nb: nat)
      requires Sound() && model.pc == Starting(pkts) && Fits(tail, |pkts|, desc.Length)
      modifies this`free, this`model
      ensures Sound() && CanStart(old(model)) && model == Start(old(model))
      ensures nb == Accepted(old(model)) && nb <= |pkts| && (nb < |pkts| ==> free == 0) && tail <= desc.Length
      ensures model.pc == if nb == 0 then Idle else FirstPart(pkts, nb, tail, desc.Length)
    {
      StartReady(model);
      StartPreserves(model);
      nb := if free < |pkts| then free else |pkts|;
      free := free - nb;
      model := Start(model);
    }

    /** Write what does not wrap around, request what it passed, and ring. */
    method FillAndRing(pkts: seq<Frame>)
      requires Sound() && model.pc == Filling(pkts, false, [], tail)
      modifies desc, rs, dd, this`hwHead, this`tail, this`nextRs, this`tdt, this`model
      ensures Valid() && model.sent == old(model.sent) && free == old(free) && model.reclaimed == old(model.reclaimed)
      ensures old(model.taken) <= model.taken && model.log == model.sent && model.rung == |model.log|
    {
      Fill(pkts, tail);
      RequestPassed(|pkts|);
      Hardware();
      Ring();
      Hardware();
    }

    /** Write up to the end of the ring, request its last descriptor, and go on from the start. */
    method FillTop(pkts: seq<Frame>, rest: seq<Frame>)
      requires Sound() && model.pc == Filling(pkts, true, rest, tail)
      modifies desc, rs, dd, this`hwHead, this`tail, this`nextRs, this`model
      ensures Sound() && model.pc == Filling(rest, false, [], tail) && SameCall(old(model), model)
    {
      Fill(pkts, tail);
      RequestTop();
      Hardware();
    }

    /** Write the taken descriptors, in two parts if they wrap around, and ring. */
    method SendParts(pkts: seq<Frame>, nb: nat)
      requires Sound() && nb <= |pkts| && tail <= desc.Length && model.pc == FirstPart(pkts, nb, tail, desc.Length)
      modifies desc, rs, dd, this`hwHead, this`tail, this`nextRs, this`tdt, this`model
      ensures Valid() && model.sent == old(model.sent) && model.reclaimed == old(model.reclaimed)
      ensures old(model.taken) <= model.taken && model.log == model.sent && model.rung == |model.log|
    {
      var n := 0;
      if tail + nb > desc.Length {
        n := desc.Length - tail;
        FillTop(pkts[..n], pkts[n..nb]);
      }
      FillAndRing(pkts[n..nb]);
    }

    /** Send as many packets as there are descriptors for, and ring the doorbell. */
    method Send(pkts: seq<Frame>) returns (nb: nat)
      requires Valid() && Fits(tail, |pkts|, desc.Length)
      modifies this, desc, rs, dd
      ensures Valid() && nb <= |pkts| && model.sent == old(model.sent) + pkts[..nb] && (nb < |pkts| ==> free == 0)
      ensures old(model.taken) <= model.taken && old(model.reclaimed) <= model.reclaimed
      ensures model.log == model.sent && model.rung == |model.log|
    {
      Begin(pkts);
      nb := Take(pkts);
      if nb > 0 {
        SendParts(pkts, nb);
      }
    }
  }
}
