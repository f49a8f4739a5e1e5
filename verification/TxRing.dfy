/**
 The transmit ring of the X540 driver as `multi_send` and `xmit_cleanup` use it.

 A packet takes a context descriptor and one data descriptor per segment.  The driver asks the
 hardware for a status write-back (RS) only on the last descriptor of a packet that brings the
 descriptors used since the last request to the threshold, and reclaims by testing one done
 bit (DD).  Positions are unbounded; slots are positions modulo the ring size.
 `Ring` is the descriptor ring with the software ring beside it; `log` and `entries` record what
 was written at each position.
 */
module TxRings {
  import opened Circular

  /** A region of memory to be given back, with the allocator it came from. */
  datatype Region = Region(addr: nat, allocator: nat)

  datatype Mbuf = Mbuf(
    addr: nat, len: nat, segAddr0: nat, segLen0: nat, segAddr1: nat, segLen1: nat, segments: nat,
    release: bool, region: Region, release0: bool, region0: Region, release1: bool, region1: Region)

  const NO_REGION := Region(0, 0)
  const ZERO := Mbuf(0, 0, 0, 0, 0, 0, 0, false, NO_REGION, false, NO_REGION, false, NO_REGION)

  /** The regions a buffer is flagged to release, in the order they are released. */
  function Flagged(m: Mbuf): seq<Region> {
    (if m.release then [m.region] else [])
    + (if m.release0 then [m.region0] else [])
    + (if m.release1 then [m.region1] else [])
  }

  datatype Body = Context | Data(addr: nat, len: nat, eop: bool)

  /** The descriptors of a packet. */
  function Bodies(m: Mbuf): seq<Body> {
    if m.segments == 1 then [Context, Data(m.addr, m.len, true)]
    else if m.segLen0 != 0 && m.segLen1 != 0 then
      [Context, Data(m.addr, m.len, false), Data(m.segAddr0, m.segLen0, false), Data(m.segAddr1, m.segLen1, true)]
    else if m.segLen0 != 0 then
      [Context, Data(m.addr, m.len, false), Data(m.segAddr0, m.segLen0, true)]
    else
      [Context, Data(m.addr, m.len, false), Data(m.segAddr1, m.segLen1, true)]
  }

  /** What the driver asserts of a packet: its segment count agrees with its segments. */
  predicate WellFormed(m: Mbuf) {
    m.segments == 1 || (m.segments == |Bodies(m)| - 1 && (m.segLen0 != 0 || m.segLen1 != 0))
  }

  /** The number of descriptors a packet takes. */
  function Needs(m: Mbuf): nat {
    m.segments + 1
  }

  datatype Desc = Desc(body: Body, rs: bool)

  /** The software ring entry beside a descriptor. */
  datatype Entry = Entry(buf: Mbuf, nextId: nat, lastId: nat)

  function Blank(i: nat, n: nat): Entry
    requires i < n
  {
    Entry(ZERO, Next(i, n), i)
  }

  datatype Ring = Ring(desc: seq<Desc>, dd: seq<bool>, sw: seq<Entry>, tail: nat,
                       log: seq<Desc>, entries: seq<Entry>)

  /** The rings have one length, and the tail and every link stay inside. */
  predicate Shape(r: Ring) {
    && |r.desc| == |r.dd| == |r.sw| && r.tail < |r.sw|
    && forall i {:trigger r.sw[i]} :: 0 <= i < |r.sw| ==> r.sw[i].nextId < |r.sw|
  }

  /** The rings as `configure_tx` leaves them. */
  function Empty(n: nat): Ring
    requires n > 0
  {
    Ring(seq(n, _ => Desc(Context, false)), seq(n, _ => false),
         seq(n, i requires 0 <= i < n => Blank(i, n)), 0, [], [])
  }

  // ------------------------------------------------------------------ operations

  /** Write one descriptor and its software entry, and follow `nextId`.  The context and the
      first data descriptor overwrite the status word; the first data entry keeps the buffer. */
  function Put(r: Ring, bodies: seq<Body>, buf: Mbuf, k: nat, last: nat, rs: bool): (r': Ring)
    requires Shape(r) && k < |bodies|
    ensures Shape(r') && |r'.desc| == |r.desc|
  {
    var e := Entry(if k == 1 then buf else r.sw[r.tail].buf, r.sw[r.tail].nextId, last);
    var d := Desc(bodies[k], rs && k + 1 == |bodies|);
    Ring(r.desc[r.tail := d], if k <= 1 then r.dd[r.tail := false] else r.dd, r.sw[r.tail := e], e.nextId,
         r.log + [d], r.entries + [e])
  }

  /** The first `k` descriptors of a packet. */
  function PutMany(r: Ring, bodies: seq<Body>, buf: Mbuf, k: nat, last: nat, rs: bool): (r': Ring)
    requires Shape(r) && k <= |bodies|
    ensures Shape(r') && |r'.desc| == |r.desc|
  {
    if k == 0 then r else Put(PutMany(r, bodies, buf, k - 1, last, rs), bodies, buf, k - 1, last, rs)
  }

  /** The hardware reports a descriptor done if it was asked to. */
  function Report(r: Ring, at: nat): Ring
    requires at < |r.desc| == |r.dd|
  {
    if r.desc[at].rs then r.(dd := r.dd[at := true]) else r
  }

  /** The slots `lo` up to `hi` are reset. */
  function BlankRange(sw: seq<Entry>, lo: nat, hi: nat): (sw': seq<Entry>)
    ensures |sw'| == |sw|
  {
    seq(|sw|, i requires 0 <= i < |sw| => if lo <= i < hi then Blank(i, |sw|) else sw[i])
  }

  /** What these entries release, in order. */
  function ReleaseAll(s: seq<Entry>): seq<Region> {
    ReleaseFirst(s, |s|)
  }

  function ReleaseFirst(s: seq<Entry>, k: nat): seq<Region>
    requires k <= |s|
  {
    if k == 0 then [] else ReleaseFirst(s, k - 1) + Flagged(s[k - 1].buf)
  }

  /** The software ring once the slots after `last` up to and including `to` are reset. */
  function Swept(sw: seq<Entry>, last: nat, to: nat): (sw': seq<Entry>)
    ensures |sw'| == |sw|
  {
    if last > to then BlankRange(BlankRange(sw, last + 1, |sw|), 0, to + 1) else BlankRange(sw, last + 1, to + 1)
  }

  /** The entries that are reset, in the order they are. */
  function Reclaimed(sw: seq<Entry>, last: nat, to: nat): seq<Entry>
    requires last < |sw| && to < |sw|
  {
    if last > to then sw[last + 1..|sw|] + sw[0..to + 1] else sw[last + 1..to + 1]
  }

  /** Reset the slots after `last` up to and including `to`, and the done bit of `to`. */
  function Sweep(r: Ring, last: nat, to: nat): Ring
    requires to < |r.dd|
  {
    r.(sw := Swept(r.sw, last, to), dd := r.dd[to := false])
  }

  // ------------------------------------------------------------------ the ring by positions

  ghost predicate BlankFrom(sw: seq<Entry>, lo: nat, hi: nat)
    requires |sw| > 0
  {
    forall p {:trigger sw[Slot(p, |sw|)]} :: lo <= p < hi ==> sw[Slot(p, |sw|)] == Blank(Slot(p, |sw|), |sw|)
  }

  /** A done bit is set exactly on the fetched threshold descriptors not yet reclaimed. */
  ghost predicate DoneBits(dd: seq<bool>, log: seq<Desc>, lo: nat, fetched: nat)
    requires |dd| > 0 && fetched <= |log|
  {
    forall p {:trigger dd[Slot(p, |dd|)]} :: lo <= p < lo + |dd| ==> (dd[Slot(p, |dd|)] <==> p < fetched && log[p].rs)
  }

  ghost predicate Linked(sw: seq<Entry>) {
    forall i {:trigger sw[i]} :: 0 <= i < |sw| ==> sw[i].nextId == Next(i, |sw|)
  }

  /** Positions before `c` are reclaimed, positions before `fetched` are fetched. */
  ghost predicate RingInv(r: Ring, c: nat, fetched: nat) {
    var n, top := |r.desc|, |r.log|;
    && n > 0 && |r.dd| == |r.sw| == n && |r.entries| == top
    && c <= fetched <= top < c + n
    && r.tail == Slot(top, n) && Linked(r.sw)
    && Window(r.desc, r.log, c) && Window(r.sw, r.entries, c)
    && BlankFrom(r.sw, top, c + n) && DoneBits(r.dd, r.log, c, fetched)
  }

  lemma BlankAfterPut(sw: seq<Entry>, e: Entry, lo: nat, hi: nat)
    requires |sw| > 0 && BlankFrom(sw, lo, hi) && lo < hi <= lo + |sw|
    ensures BlankFrom(sw[Slot(lo, |sw|) := e], lo + 1, hi)
  {
    var sw' := sw[Slot(lo, |sw|) := e];
    forall p | lo + 1 <= p < hi ensures sw'[Slot(p, |sw'|)] == Blank(Slot(p, |sw'|), |sw'|) {
      SlotDistinct(lo, p, |sw|);
    }
  }

  lemma DoneAfterPut(dd: seq<bool>, log: seq<Desc>, d: Desc, lo: nat, fetched: nat)
    requires |dd| > 0 && fetched <= |log| < lo + |dd| && lo <= |log| && DoneBits(dd, log, lo, fetched)
    ensures dd[Slot(|log|, |dd|) := false] == dd
    ensures DoneBits(dd, log + [d], lo, fetched)
  {
  }

  /** One descriptor more; the slot it takes was blank. */
  lemma PutPreserves(r: Ring, c: nat, fetched: nat, bodies: seq<Body>, buf: Mbuf, k: nat, last: nat, rs: bool)
    requires RingInv(r, c, fetched) && k < |bodies| && |r.log| + 1 < c + |r.desc|
    ensures Shape(r) && r.sw[r.tail].buf == ZERO
    ensures RingInv(Put(r, bodies, buf, k, last, rs), c, fetched) == true
  {
    var n, top, r' := |r.desc|, |r.log|, Put(r, bodies, buf, k, last, rs);
    var d, e := r'.log[top], r'.entries[top];
    assert r.sw[Slot(top, n)] == Blank(Slot(top, n), n);
    SlotNext(top, n);
    WindowExtends(r.desc, r.log, c, d);
    WindowExtends(r.sw, r.entries, c, e);
    BlankAfterPut(r.sw, e, top, c + n);
    DoneAfterPut(r.dd, r.log, d, c, fetched);
  }

  /** Each of the first `k` descriptors goes into a slot whose entry holds no buffer. */
  ghost predicate TakesBlank(r: Ring, bodies: seq<Body>, buf: Mbuf, k: nat, last: nat, rs: bool)
    requires Shape(r) && k <= |bodies|
  {
    k > 0 ==>
      && TakesBlank(r, bodies, buf, k - 1, last, rs)
      && var r1 := PutMany(r, bodies, buf, k - 1, last, rs); r1.sw[r1.tail].buf == ZERO
  }

  lemma {:induction false} PutManyPreserves(r: Ring, c: nat, fetched: nat, bodies: seq<Body>, buf: Mbuf, k: nat,
                                            last: nat, rs: bool)
    requires RingInv(r, c, fetched) && k <= |bodies| && |r.log| + k < c + |r.desc|
    ensures Shape(r) && |PutMany(r, bodies, buf, k, last, rs).log| == |r.log| + k
    ensures TakesBlank(r, bodies, buf, k, last, rs)
    ensures RingInv(PutMany(r, bodies, buf, k, last, rs), c, fetched) == true
  {
    if k > 0 {
      PutManyPreserves(r, c, fetched, bodies, buf, k - 1, last, rs);
      PutPreserves(PutMany(r, bodies, buf, k - 1, last, rs), c, fetched, bodies, buf, k - 1, last, rs);
    }
  }

  lemma DoneAfterFetch(dd: seq<bool>, log: seq<Desc>, lo: nat, fetched: nat)
    requires |dd| > 0 && lo <= fetched < |log| < lo + |dd| && DoneBits(dd, log, lo, fetched)
    ensures var at := Slot(fetched, |dd|);
            DoneBits(if log[fetched].rs then dd[at := true] else dd, log, lo, fetched + 1)
  {
    var n, at := |dd|, Slot(fetched, |dd|);
    var dd' := if log[fetched].rs then dd[at := true] else dd;
    forall p | lo <= p < lo + n ensures dd'[Slot(p, n)] <==> p < fetched + 1 && log[p].rs {
      if p < fetched {
        SlotDistinct(p, fetched, n);
      } else if fetched < p {
        SlotDistinct(fetched, p, n);
      }
      assert dd[Slot(p, n)] <==> p < fetched && log[p].rs;
    }
  }

  /** The hardware reads the descriptor written for the next position. */
  lemma ReportPreserves(r: Ring, c: nat, fetched: nat)
    requires RingInv(r, c, fetched) && fetched < |r.log|
    ensures r.desc[Slot(fetched, |r.desc|)] == r.log[fetched]
    ensures RingInv(Report(r, Slot(fetched, |r.desc|)), c, fetched + 1) == true
  {
    assert r.desc[Slot(fetched, |r.desc|)] == r.log[fetched];
    DoneAfterFetch(r.dd, r.log, c, fetched);
  }

  // ------------------------------------------------------------------ sweeping by positions

  /** The slots swept when the position before `c` is the last reclaimed one and `e - 1` the one
      to reclaim to are exactly those of the positions from `c` up to `e`. */
  lemma SlotSwept(c: nat, e: nat, p: nat, n: nat)
    requires n > 0 && c < e < c + n && c <= p < c + n
    ensures var last, to, at := Slot(c + n - 1, n), Slot(e - 1, n), Slot(p, n);
            p < e <==> if last > to then at > last || at <= to else last < at <= to
  {
    SlotDistance(c, p, n);
    SlotDistance(c, e - 1, n);
    SlotBefore(c, n);
  }

  lemma {:induction false} SlotBefore(c: nat, n: nat)
    requires n > 0
    ensures Slot(c + n - 1, n) == if Slot(c, n) == 0 then n - 1 else Slot(c, n) - 1
  {
    SlotNext(c + n - 1, n);
    assert Slot(c + n, n) == Slot(c, n);
  }

  lemma SweptAt(sw: seq<Entry>, c: nat, e: nat, p: nat)
    requires |sw| > 0 && c < e < c + |sw| && c <= p < c + |sw|
    ensures var n := |sw|;
            Swept(sw, Slot(c + n - 1, n), Slot(e - 1, n))[Slot(p, n)]
            == if p < e then Blank(Slot(p, n), n) else sw[Slot(p, n)]
  {
    SlotSwept(c, e, p, |sw|);
  }

  lemma WindowAfterSweep(sw: seq<Entry>, entries: seq<Entry>, c: nat, e: nat)
    requires |sw| > 0 && c < e <= |entries| < c + |sw| && Window(sw, entries, c)
    ensures Window(Swept(sw, Slot(c + |sw| - 1, |sw|), Slot(e - 1, |sw|)), entries, e)
  {
    var sw' := Swept(sw, Slot(c + |sw| - 1, |sw|), Slot(e - 1, |sw|));
    forall p | e <= p < |entries| ensures sw'[Slot(p, |sw'|)] == entries[p] {
      SweptAt(sw, c, e, p);
    }
  }

  lemma BlankAfterSweep(sw: seq<Entry>, top: nat, c: nat, e: nat)
    requires |sw| > 0 && c < e <= top < c + |sw| && BlankFrom(sw, top, c + |sw|)
    ensures BlankFrom(Swept(sw, Slot(c + |sw| - 1, |sw|), Slot(e - 1, |sw|)), top, e + |sw|)
  {
    var n := |sw|;
    var sw' := Swept(sw, Slot(c + n - 1, n), Slot(e - 1, n));
    forall p | top <= p < e + n ensures sw'[Slot(p, |sw'|)] == Blank(Slot(p, |sw'|), |sw'|) {
      SweptAt(sw, c, e, if p < c + n then p else p - n);
    }
  }

  lemma DoneAfterSweep(dd: seq<bool>, log: seq<Desc>, c: nat, e: nat, fetched: nat)
    requires |dd| > 0 && c < e <= fetched <= |log| <= c + |dd| && DoneBits(dd, log, c, fetched)
    requires forall p {:trigger log[p]} :: c <= p < e ==> (log[p].rs <==> p == e - 1)
    ensures DoneBits(dd[Slot(e - 1, |dd|) := false], log, e, fetched)
  {
    var n := |dd|;
    var dd' := dd[Slot(e - 1, n) := false];
    forall p | e <= p < e + n ensures dd'[Slot(p, n)] <==> p < fetched && log[p].rs {
      if p < c + n {
        SlotDistinct(e - 1, p, n);
      } else {
        assert Slot(p, n) == Slot(p - n, n);
        assert dd[Slot(p - n, n)] <==> p - n < fetched && log[p - n].rs;
      }
    }
  }

  lemma LinkedAfterSweep(sw: seq<Entry>, last: nat, to: nat)
    requires Linked(sw)
    ensures Linked(Swept(sw, last, to))
  {
  }

  /** Sweeping up to a fetched threshold descriptor reclaims exactly the positions before it. */
  lemma SweepPreserves(r: Ring, c: nat, e: nat, fetched: nat)
    requires RingInv(r, c, fetched) && c < e <= fetched
    requires forall p {:trigger r.log[p]} :: c <= p < e ==> (r.log[p].rs <==> p == e - 1)
    ensures var n := |r.desc|; RingInv(Sweep(r, Slot(c + n - 1, n), Slot(e - 1, n)), e, fetched) == true
  {
    var n := |r.desc|;
    WindowAfterSweep(r.sw, r.entries, c, e);
    BlankAfterSweep(r.sw, |r.log|, c, e);
    DoneAfterSweep(r.dd, r.log, c, e, fetched);
    LinkedAfterSweep(r.sw, Slot(c + n - 1, n), Slot(e - 1, n));
  }

  // ------------------------------------------------------------------ what sweeping reclaims

  /** A run of slots that does not wrap. */
  lemma SlotRun(sw: seq<Entry>, entries: seq<Entry>, c: nat, p: nat, q: nat, at: nat, to: nat)
    requires |sw| > 0 && Window(sw, entries, c) && c <= p <= q <= |entries| && q - p == to - at
    requires at <= to <= |sw| && (p < q ==> at == Slot(p, |sw|))
    ensures sw[at..to] == entries[p..q]
  {
    var run, part := sw[at..to], entries[p..q];
    forall k | 0 <= k < |run| ensures run[k] == part[k] {
      SlotShift(p, k, |sw|);
      assert part[k] == entries[p + k];
    }
  }

  /** The entries reclaimed are those of the positions from `c` up to `e`, in that order. */
  lemma SweepReclaims(sw: seq<Entry>, entries: seq<Entry>, c: nat, e: nat)
    requires |sw| > 0 && Window(sw, entries, c) && c < e <= |entries| && e < c + |sw|
    ensures var n := |sw|; Reclaimed(sw, Slot(c + n - 1, n), Slot(e - 1, n)) == entries[c..e]
  {
    var n := |sw|;
    var last, to := Slot(c + n - 1, n), Slot(e - 1, n);
    if last > to {
      WrapAt(c, e, n);
      TwoRuns(sw, entries, c, c + (n - 1 - last), e);
    } else {
      NoWrap(c, e, n);
      SlotRun(sw, entries, c, c, e, last + 1, to + 1);
    }
  }

  lemma TwoRuns(sw: seq<Entry>, entries: seq<Entry>, c: nat, mid: nat, e: nat)
    requires |sw| > 0 && Window(sw, entries, c) && c <= mid < e <= |entries| && e - mid <= |sw| && mid - c <= |sw|
    requires Slot(mid, |sw|) == 0 && (c < mid ==> Slot(c, |sw|) == |sw| - (mid - c))
    ensures sw[|sw| - (mid - c)..|sw|] + sw[0..e - mid] == entries[c..e]
  {
    SlotRun(sw, entries, c, c, mid, |sw| - (mid - c), |sw|);
    SlotRun(sw, entries, c, mid, e, 0, e - mid);
    Rejoin(entries, c, mid, e);
  }

  lemma Rejoin<T>(s: seq<T>, a: nat, b: nat, c: nat)
    requires a <= b <= c <= |s|
    ensures s[a..b] + s[b..c] == s[a..c]
  {
  }

  lemma ReleaseOne(s: seq<Entry>, e: Entry)
    ensures ReleaseAll(s + [e]) == ReleaseAll(s) + Flagged(e.buf)
  {
    ReleasePrefix(s, s + [e], |s|);
  }

  lemma {:induction false} ReleasePrefix(a: seq<Entry>, b: seq<Entry>, k: nat)
    requires a <= b && k <= |a|
    ensures ReleaseFirst(a, k) == ReleaseFirst(b, k)
  {
    if k > 0 {
      ReleasePrefix(a, b, k - 1);
      assert a[k - 1] == b[k - 1];
    }
  }

  lemma Associative<T>(a: seq<T>, b: seq<T>, c: seq<T>)
    ensures (a + b) + c == a + (b + c)
  {
  }

  lemma NoWrap(c: nat, e: nat, n: nat)
    requires n > 0 && c < e < c + n && Slot(c + n - 1, n) <= Slot(e - 1, n)
    ensures Slot(c + n - 1, n) + 1 == Slot(c, n) && Slot(e - 1, n) - Slot(c + n - 1, n) == e - c
  {
    SlotBefore(c, n);
    SlotDistance(c, e - 1, n);
  }

  /** Where a sweep that wraps around passes slot 0. */
  lemma WrapAt(c: nat, e: nat, n: nat)
    requires n > 0 && c < e < c + n && Slot(c + n - 1, n) > Slot(e - 1, n)
    ensures var mid := c + (n - 1 - Slot(c + n - 1, n)); 
            mid < e && Slot(mid, n) == 0 && e - mid == Slot(e - 1, n) + 1 && (c < mid ==> Slot(c, n) == n - (mid - c))
  {
    var last := Slot(c + n - 1, n);
    SlotBefore(c, n);
    SlotDistance(c, e - 1, n);
    SlotShift(c, n - 1 - last, n);
  }
}
