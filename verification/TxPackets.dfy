/**
 What the transmit queue does with memory: which bytes leave on the wire, and which regions are
 given back.
 */
module TxPackets {
  import opened Memory
  import opened TxThresholds
  import opened TxRings
  import opened TxSystem
  import opened TxRuns
  import opened TxProgress

  // ------------------------------------------------------------------ the wire

  /** The frames the hardware has sent, and what it has gathered of the next one. */
  datatype Wire = Wire(frames: seq<seq<nat>>, partial: seq<nat>)

  /** One more descriptor: a data descriptor adds its bytes, and the end of a packet sends them. */
  function Gather(w: Wire, b: Body, mem: nat -> nat): Wire {
    match b
    case Context => w
    case Data(addr, len, eop) =>
      var bytes := w.partial + Bytes(mem, addr, len);
      if eop then Wire(w.frames + [bytes], []) else w.(partial := bytes)
  }

  function GatherAll(w: Wire, bodies: seq<Body>, mem: nat -> nat): Wire {
    if bodies == [] then w else
      Gather(GatherAll(w, bodies[..|bodies| - 1], mem), bodies[|bodies| - 1], mem)
  }

  /** What the application means by a packet: its header, then the first segment, then the second. */
  function Payload(m: Mbuf, mem: nat -> nat): seq<nat> {
    Bytes(mem, m.addr, m.len)
    + if m.segments == 1 then [] else Bytes(mem, m.segAddr0, m.segLen0) + Bytes(mem, m.segAddr1, m.segLen1)
  }

  function Payloads(sent: seq<Mbuf>, mem: nat -> nat): (r: seq<seq<nat>>)
    ensures |r| == |sent|
  {
    seq(|sent|, i requires 0 <= i < |sent| => Payload(sent[i], mem))
  }

  /** The context comes first and only there, and the packet ends with its last descriptor and not
      before. */
  lemma ContextFirstEndLast(m: Mbuf, i: nat)
    requires WellFormed(m) && i < |Bodies(m)|
    ensures Bodies(m)[i].Context? <==> i == 0
    ensures i > 0 ==> (Bodies(m)[i].eop <==> i == |Bodies(m)| - 1)
  {
  }

  lemma {:induction false} GatherJoin(w: Wire, a: seq<Body>, b: seq<Body>, mem: nat -> nat)
    ensures GatherAll(w, a + b, mem) == GatherAll(GatherAll(w, a, mem), b, mem)
  {
    if b == [] {
      assert a + b == a;
    } else {
      var b' := b[..|b| - 1];
      GatherJoin(w, a, b', mem);
      assert (a + b)[..|a + b| - 1] == a + b';
    }
  }

  /** One more descriptor after these. */
  lemma GatherMore(w: Wire, bodies: seq<Body>, k: nat, mem: nat -> nat)
    requires k < |bodies|
    ensures GatherAll(w, bodies[..k + 1], mem) == Gather(GatherAll(w, bodies[..k], mem), bodies[k], mem)
  {
    assert bodies[..k + 1][..k] == bodies[..k];
  }

  /** The descriptors of a packet send exactly its payload, as one frame. */
  lemma PacketOnWire(w: Wire, m: Mbuf, mem: nat -> nat)
    requires WellFormed(m) && w.partial == []
    ensures GatherAll(w, Bodies(m), mem) == Wire(w.frames + [Payload(m, mem)], [])
  {
    var b := Bodies(m);
    var header := Bytes(mem, m.addr, m.len);
    var first, second := Bytes(mem, m.segAddr0, m.segLen0), Bytes(mem, m.segAddr1, m.segLen1);
    assert w.partial + header == header == header + [];
    assert header + first + second == header + (first + second);
    assert m.segLen0 == 0 ==> first == [] && first + second == second;
    assert m.segLen1 == 0 ==> second == [] && first + second == first;
    assert GatherAll(w, b[..0], mem) == w;
    GatherMore(w, b, 0, mem);
    GatherMore(w, b, 1, mem);
    if |b| > 2 {
      GatherMore(w, b, 2, mem);
    }
    if |b| > 3 {
      GatherMore(w, b, 3, mem);
    }
    assert b[..|b|] == b;
  }

  ghost predicate AllWellFormed(sent: seq<Mbuf>) {
    forall i {:trigger sent[i]} :: 0 <= i < |sent| ==> WellFormed(sent[i])
  }

  lemma {:induction false} PacketsOnWire(sent: seq<Mbuf>, mem: nat -> nat)
    requires AllWellFormed(sent)
    ensures GatherAll(Wire([], []), AllBodies(sent), mem) == Wire(Payloads(sent, mem), [])
  {
    if sent != [] {
      var before, m := sent[..|sent| - 1], sent[|sent| - 1];
      PacketsOnWire(before, mem);
      GatherJoin(Wire([], []), AllBodies(before), Bodies(m), mem);
      PacketOnWire(Wire(Payloads(before, mem), []), m, mem);
      assert Payloads(sent, mem) == Payloads(before, mem) + [Payload(m, mem)];
    }
  }

  lemma {:induction false} FramesGrow(w: Wire, bodies: seq<Body>, mem: nat -> nat)
    ensures w.frames <= GatherAll(w, bodies, mem).frames
  {
    if bodies != [] {
      FramesGrow(w, bodies[..|bodies| - 1], mem);
    }
  }

  lemma {:induction false} SentWellFormed(t: Tx, steps: seq<Step>)
    requires AllWellFormed(t.sent)
    ensures AllWellFormed(After(t, steps).sent)
  {
    if steps != [] {
      SentWellFormed(t, steps[..|steps| - 1]);
    }
  }

  /** From any first part of the descriptors of packets. */
  lemma SomeOnWire(sent: seq<Mbuf>, taken: seq<Body>, mem: nat -> nat)
    requires AllWellFormed(sent) && taken <= AllBodies(sent)
    ensures var wire := GatherAll(Wire([], []), taken, mem);
            && wire.frames <= Payloads(sent, mem)
            && (|taken| == |AllBodies(sent)| ==> wire == Wire(Payloads(sent, mem), []))
  {
    PacketsOnWire(sent, mem);
    var rest := AllBodies(sent)[|taken|..];
    assert AllBodies(sent) == taken + rest;
    GatherJoin(Wire([], []), taken, rest, mem);
    FramesGrow(GatherAll(Wire([], []), taken, mem), rest, mem);
  }

  /** In every run and for any contents of memory: the frames on the wire are the payloads of the
      packets sent, in order, each once and whole; and once the hardware has taken every descriptor they
      are all there. */
  lemma FramesInOrder(n: nat, steps: seq<Step>, mem: nat -> nat)
    requires n >= TX_RS_THRESH
    ensures var t := After(Init(n), steps);
            var wire := GatherAll(Wire([], []), Plain(t.hwTaken), mem);
            && wire.frames <= Payloads(t.sent, mem)
            && (|t.hwTaken| == |t.ring.log| ==> wire == Wire(Payloads(t.sent, mem), []))
  {
    var t := After(Init(n), steps);
    TakenInOrder(n, steps);
    SentWellFormed(Init(n), steps);
    SomeOnWire(t.sent, Plain(t.hwTaken), mem);
    WrittenIsSent(n, steps);
  }

  lemma WrittenIsSent(n: nat, steps: seq<Step>)
    requires n >= TX_RS_THRESH
    ensures var t := After(Init(n), steps); |t.ring.log| == |AllBodies(t.sent)|
  {
    InitInv(n);
    RunPreserves(Init(n), steps);
    var t := After(Init(n), steps);
    AccountedAt(t, |t.marks|);
    assert t.ring.log[..|t.ring.log|] == t.ring.log && t.sent[..|t.sent|] == t.sent;
  }

  // ------------------------------------------------------------------ regions given back

  /** A buffer's three parts: the header and the two segments. */
  predicate Flag(m: Mbuf, part: nat) {
    if part == 0 then m.release else if part == 1 then m.release0 else m.release1
  }

  function RegionOf(m: Mbuf, part: nat): Region {
    if part == 0 then m.region else if part == 1 then m.region0 else m.region1
  }

  /** How often a buffer says to give back a region. */
  function Owed(m: Mbuf, x: Region): nat {
    (if m.release && m.region == x then 1 else 0)
    + (if m.release0 && m.region0 == x then 1 else 0)
    + (if m.release1 && m.region1 == x then 1 else 0)
  }

  function TotalOwed(sent: seq<Mbuf>, x: Region): nat {
    if sent == [] then 0 else TotalOwed(sent[..|sent| - 1], x) + Owed(sent[|sent| - 1], x)
  }

  lemma FlaggedCounts(m: Mbuf, x: Region)
    ensures multiset(Flagged(m))[x] == Owed(m, x)
  {
  }

  lemma {:induction false} AllFlaggedCounts(sent: seq<Mbuf>, x: Region)
    ensures multiset(AllFlagged(sent))[x] == TotalOwed(sent, x)
  {
    if sent != [] {
      AllFlaggedCounts(sent[..|sent| - 1], x);
      FlaggedCounts(sent[|sent| - 1], x);
    }
  }

  /** No region is named twice among the parts flagged. */
  ghost predicate AllDifferent(sent: seq<Mbuf>) {
    forall i, a, j, b {:trigger RegionOf(sent[i], a), RegionOf(sent[j], b)} ::
      (&& 0 <= i < |sent| && 0 <= j < |sent| && 0 <= a < 3 && 0 <= b < 3 && (i != j || a != b)
       && Flag(sent[i], a) && Flag(sent[j], b))
      ==> RegionOf(sent[i], a) != RegionOf(sent[j], b)
  }

  lemma TwoDiffer(sent: seq<Mbuf>, i: nat, a: nat, j: nat, b: nat)
    requires AllDifferent(sent) && i < |sent| && j < |sent| && a < 3 && b < 3 && (i != j || a != b)
    requires Flag(sent[i], a) && Flag(sent[j], b)
    ensures RegionOf(sent[i], a) != RegionOf(sent[j], b)
  {
  }

  lemma OwedPart(m: Mbuf, x: Region) returns (part: nat)
    requires Owed(m, x) > 0
    ensures part < 3 && Flag(m, part) && RegionOf(m, part) == x
  {
    part := if m.release && m.region == x then 0 else if m.release0 && m.region0 == x then 1 else 2;
  }

  lemma {:induction false} OwedFrom(sent: seq<Mbuf>, x: Region) returns (i: nat, part: nat)
    requires TotalOwed(sent, x) > 0
    ensures i < |sent| && part < 3 && Flag(sent[i], part) && RegionOf(sent[i], part) == x
  {
    if Owed(sent[|sent| - 1], x) > 0 {
      i := |sent| - 1;
      part := OwedPart(sent[i], x);
    } else {
      i, part := OwedFrom(sent[..|sent| - 1], x);
    }
  }

  lemma {:induction false} OwedSome(sent: seq<Mbuf>, i: nat, part: nat)
    requires i < |sent| && part < 3 && Flag(sent[i], part)
    ensures TotalOwed(sent, RegionOf(sent[i], part)) > 0
  {
    if i < |sent| - 1 {
      OwedSome(sent[..|sent| - 1], i, part);
    }
  }

  lemma {:induction false} OwedOnce(sent: seq<Mbuf>, x: Region)
    requires AllDifferent(sent)
    ensures TotalOwed(sent, x) <= 1
  {
    if sent != [] {
      var before, m, last := sent[..|sent| - 1], sent[|sent| - 1], |sent| - 1;
      assert AllDifferent(before) by {
        assert forall i :: 0 <= i < |before| ==> before[i] == sent[i];
      }
      OwedOnce(before, x);
      assert Owed(m, x) <= 1 by {
        assert RegionOf(sent[last], 0) == m.region && RegionOf(sent[last], 1) == m.region0 && RegionOf(sent[last], 2) == m.region1;
      }
      if Owed(m, x) > 0 && TotalOwed(before, x) > 0 {
        var b := OwedPart(m, x);
        var i, a := OwedFrom(before, x);
        TwoDiffer(sent, i, a, last, b);
      }
    }
  }

  /** The first `k` packets are those given back: every region as often as they say, no more and no
      less, and only after the hardware took all their descriptors. */
  ghost predicate GivenBackFor(t: Tx, k: nat) {
    && ReleasedFor(t, k)
    && forall x: Region :: multiset(ReleaseAll(t.reclaimed))[x] == TotalOwed(t.sent[..k], x)
  }

  /** In every run. */
  lemma GivenBackExactly(n: nat, steps: seq<Step>)
    requires n >= TX_RS_THRESH
    ensures exists k :: GivenBackFor(After(Init(n), steps), k)
  {
    var t := After(Init(n), steps);
    ReleasedInOrder(n, steps);
    var k: nat :| ReleasedFor(t, k);
    CountsFor(t, k);
  }

  lemma CountsFor(t: Tx, k: nat)
    requires ReleasedFor(t, k)
    ensures GivenBackFor(t, k)
  {
    forall x: Region ensures multiset(ReleaseAll(t.reclaimed))[x] == TotalOwed(t.sent[..k], x) {
      AllFlaggedCounts(t.sent[..k], x);
    }
  }

  /** No region is given back twice, and every region flagged in the first `k` packets is. */
  ghost predicate EachOnce(t: Tx, k: nat)
    requires k <= |t.sent|
  {
    && (forall x: Region :: multiset(ReleaseAll(t.reclaimed))[x] <= 1)
    && (forall i, part {:trigger RegionOf(t.sent[i], part)} ::
          0 <= i < k && 0 <= part < 3 && Flag(t.sent[i], part) ==> RegionOf(t.sent[i], part) in ReleaseAll(t.reclaimed))
  }

  lemma OnceFor(t: Tx, k: nat)
    requires GivenBackFor(t, k) && AllDifferent(t.sent)
    ensures EachOnce(t, k)
  {
    var first := t.sent[..k];
    assert AllDifferent(first) by {
      assert forall i :: 0 <= i < |first| ==> first[i] == t.sent[i];
    }
    forall x: Region ensures multiset(ReleaseAll(t.reclaimed))[x] <= 1 {
      OwedOnce(first, x);
    }
    forall i, part | 0 <= i < k && 0 <= part < 3 && Flag(t.sent[i], part)
      ensures RegionOf(t.sent[i], part) in ReleaseAll(t.reclaimed)
    {
      assert first[i] == t.sent[i];
      OwedSome(first, i, part);
      assert multiset(ReleaseAll(t.reclaimed))[RegionOf(t.sent[i], part)] > 0;
    }
  }

  /** So in every run whose packets name different regions, the reclaimed packets' regions are given back
      exactly once each. */
  lemma GivenBackOnce(n: nat, steps: seq<Step>)
    requires n >= TX_RS_THRESH && AllDifferent(After(Init(n), steps).sent)
    ensures exists k :: GivenBackFor(After(Init(n), steps), k) && EachOnce(After(Init(n), steps), k)
  {
    var t := After(Init(n), steps);
    GivenBackExactly(n, steps);
    var k :| GivenBackFor(t, k);
    OnceFor(t, k);
  }
}
