/**
 The X540 transmit queue as the driver and the hardware change it, step by step: the lockstep of
 thresholds, counters and cleaning, over every run.
 */
module TxSystem {
  import opened Circular
  import opened TxThresholds
  import opened TxRings

  /** A threshold descriptor: the position after it, and how many packets end by there. */
  datatype Mark = Mark(pos: nat, packets: nat)

  datatype Tx = Tx(
    ring: Ring,
    // the driver's counters; the hardware's tail register and head
    used: nat, free: int, lastCleaned: nat, tdt: nat, hwHead: nat,
    // history: packets, thresholds, how many of these are reclaimed, positions rung and fetched,
    // what was fetched and which entries were reclaimed
    sent: seq<Mbuf>, marks: seq<Mark>, mark: nat, tdtPos: nat, hwPos: nat,
    hwTaken: seq<Desc>, reclaimed: seq<Entry>)

  function Init(n: nat): Tx
    requires n > 0
  {
    Tx(Empty(n), 0, n - 1, n - 1, 0, 0, [], [Mark(0, 0)], 0, 0, 0, [], [])
  }

  // ------------------------------------------------------------------ steps

  predicate CanFetch(t: Tx) {
    t.hwHead != t.tdt && t.hwHead < |t.ring.desc| == |t.ring.dd|
  }

  /** The hardware processes the next descriptor and reports it done if asked to. */
  function Fetch(t: Tx): Tx
    requires CanFetch(t)
  {
    t.(ring := Report(t.ring, t.hwHead), hwHead := Next(t.hwHead, |t.ring.desc|), hwPos := t.hwPos + 1,
       hwTaken := t.hwTaken + [t.ring.desc[t.hwHead]])
  }

  /** The slot of a packet's last descriptor. */
  function LastSlot(tail: nat, needs: nat, n: nat): nat
    requires needs > 0
  {
    var last := tail + needs - 1;
    if last >= n then last - n else last
  }

  predicate CanSend(t: Tx, m: Mbuf) {
    WellFormed(m) && Needs(m) <= t.free && Shape(t.ring)
  }

  /** Send one packet: its descriptors, then the counters, with RS on its last descriptor when
      the threshold is reached. */
  function Send(t: Tx, m: Mbuf): Tx
    requires CanSend(t, m)
  {
    SendAs(t, m, Bodies(m))
  }

  function SendAs(t: Tx, m: Mbuf, bodies: seq<Body>): Tx
    requires Shape(t.ring) && bodies != []
  {
    var u := t.used + |bodies|;
    var rs := u >= TX_RS_THRESH;
    var r := PutMany(t.ring, bodies, m, |bodies|, LastSlot(t.ring.tail, |bodies|, |t.ring.desc|), rs);
    t.(ring := r, used := if rs then 0 else u, free := t.free - |bodies|, sent := t.sent + [m],
       marks := if rs then t.marks + [Mark(|r.log|, |t.sent| + 1)] else t.marks)
  }

  function WriteTail(t: Tx): Tx {
    t.(tdt := t.ring.tail, tdtPos := |t.ring.log|)
  }

  /** The slot whose done bit is tested. */
  function Tested(sw: seq<Entry>, lastCleaned: nat): nat
    requires lastCleaned < |sw| && TX_RS_THRESH <= |sw|
  {
    var to := lastCleaned + TX_RS_THRESH;
    sw[if to >= |sw| then to - |sw| else to].lastId
  }

  predicate CanClean(t: Tx) {
    && TX_RS_THRESH <= |t.ring.sw| == |t.ring.dd| && t.lastCleaned < |t.ring.sw|
    && Tested(t.ring.sw, t.lastCleaned) < |t.ring.dd| && t.ring.dd[Tested(t.ring.sw, t.lastCleaned)]
  }

  /** How many descriptors lie after `last` up to and including `to`. */
  function CleanCount(last: nat, to: nat, n: nat): int {
    if last > to then n - last + to else to - last
  }

  /** Reclaim everything up to the tested slot. */
  function Clean(t: Tx): Tx
    requires CanClean(t)
  {
    var to := Tested(t.ring.sw, t.lastCleaned);
    t.(ring := Sweep(t.ring, t.lastCleaned, to), lastCleaned := to,
       free := t.free + CleanCount(t.lastCleaned, to, |t.ring.sw|), mark := t.mark + 1,
       reclaimed := t.reclaimed + Reclaimed(t.ring.sw, t.lastCleaned, to))
  }

  // ------------------------------------------------------------------ the invariant

  /** From one threshold to the next: between 64 and 67 descriptors, RS on the last and on no
      other, and the entry 64 descriptors on names the last one. */
  ghost predicate SpanInv(log: seq<Desc>, entries: seq<Entry>, a: nat, b: nat, n: nat) {
    && n > 0 && a + TX_RS_THRESH <= b <= a + TX_RS_THRESH + 3 && b <= |log| == |entries|
    && entries[a + TX_RS_THRESH - 1].lastId == Slot(b - 1, n)
    && forall p {:trigger log[p]} :: a <= p < b ==> (log[p].rs <==> p == b - 1)
  }

  ghost predicate MarksInv(marks: seq<Mark>, log: seq<Desc>, entries: seq<Entry>, used: nat, n: nat) {
    && |marks| > 0 && marks[0] == Mark(0, 0)
    && (forall k {:trigger marks[k + 1]} :: 0 <= k < |marks| - 1 ==>
          SpanInv(log, entries, marks[k].pos, marks[k + 1].pos, n))
    && marks[|marks| - 1].pos + used == |log| && used < TX_RS_THRESH
    && forall p {:trigger log[p]} :: marks[|marks| - 1].pos <= p < |log| ==> !log[p].rs
  }

  function AllBodies(sent: seq<Mbuf>): seq<Body> {
    if sent == [] then [] else AllBodies(sent[..|sent| - 1]) + Bodies(sent[|sent| - 1])
  }

  function AllFlagged(sent: seq<Mbuf>): seq<Region> {
    if sent == [] then [] else AllFlagged(sent[..|sent| - 1]) + Flagged(sent[|sent| - 1])
  }

  function Plain(log: seq<Desc>): (r: seq<Body>)
    ensures |r| == |log|
  {
    seq(|log|, i requires 0 <= i < |log| => log[i].body)
  }

  /** The descriptors are those of the packets and so are the buffers. */
  ghost predicate Accounts(log: seq<Desc>, entries: seq<Entry>, sent: seq<Mbuf>) {
    Plain(log) == AllBodies(sent) && ReleaseAll(entries) == AllFlagged(sent)
  }

  ghost predicate AccountsAt(m: Mark, log: seq<Desc>, entries: seq<Entry>, sent: seq<Mbuf>) {
    m.pos <= |log| == |entries| && m.packets <= |sent| && Accounts(log[..m.pos], entries[..m.pos], sent[..m.packets])
  }

  /** The `k`th threshold, or after the last one the end of everything sent. */
  function MarkAt(marks: seq<Mark>, k: nat, log: seq<Desc>, sent: seq<Mbuf>): Mark {
    if k < |marks| then marks[k] else Mark(|log|, |sent|)
  }

  ghost predicate PacketsInv(marks: seq<Mark>, log: seq<Desc>, entries: seq<Entry>, sent: seq<Mbuf>) {
    forall k {:trigger MarkAt(marks, k, log, sent)} :: 0 <= k <= |marks| ==>
      AccountsAt(MarkAt(marks, k, log, sent), log, entries, sent)
  }

  /** The position up to which descriptors have been reclaimed. */
  function Cleaned(t: Tx): nat {
    if t.mark < |t.marks| then t.marks[t.mark].pos else 0
  }

  /** Indices and counters against positions. */
  ghost predicate PlaceInv(t: Tx) {
    var n, c, top := |t.ring.desc|, Cleaned(t), |t.ring.log|;
    && t.mark < |t.marks| && n >= TX_RS_THRESH && c <= t.hwPos <= t.tdtPos <= top == |t.ring.entries|
    && t.hwHead == Slot(t.hwPos, n) && t.tdt == Slot(t.tdtPos, n) && t.lastCleaned == Slot(c + n - 1, n)
    && t.free == n - 1 - (top - c)
  }

  /** What the hardware took is what was written, and what was reclaimed is what was kept. */
  ghost predicate DoneInv(log: seq<Desc>, hwPos: nat, hwTaken: seq<Desc>,
                          entries: seq<Entry>, c: nat, reclaimed: seq<Entry>)
  {
    hwPos <= |log| && hwTaken == log[..hwPos] && c <= |entries| && reclaimed == entries[..c]
  }

  ghost predicate Inv(t: Tx) {
    && RingInv(t.ring, Cleaned(t), t.hwPos)
    && PlaceInv(t)
    && DoneInv(t.ring.log, t.hwPos, t.hwTaken, t.ring.entries, Cleaned(t), t.reclaimed)
    && MarksInv(t.marks, t.ring.log, t.ring.entries, t.used, |t.ring.desc|)
    && PacketsInv(t.marks, t.ring.log, t.ring.entries, t.sent)
  }

  /** The invariant, to be taken as a whole. */
  ghost predicate Good(t: Tx) {
    Inv(t) == true
  }

  lemma InitInv(n: nat)
    requires n >= TX_RS_THRESH
    ensures Inv(Init(n))
  {
  }

  // ------------------------------------------------------------------ sending

  /** What the first `k` descriptors of a packet append to the log. */
  ghost predicate LogGrows(log: seq<Desc>, log': seq<Desc>, bodies: seq<Body>, k: nat, rs: bool) {
    var top := |log|;
    && |log'| == top + k && k <= |bodies| && log <= log'
    && Plain(log') == Plain(log) + bodies[..k]
    && (forall p {:trigger log'[p]} :: top <= p < top + k ==> (log'[p].rs <==> rs && p + 1 == top + |bodies|))
  }

  /** What they append to the entries: each names the packet's last descriptor. */
  ghost predicate EntriesGrow(entries: seq<Entry>, entries': seq<Entry>, k: nat, last: nat) {
    var top := |entries|;
    && |entries'| == top + k && entries <= entries'
    && (forall p {:trigger entries'[p]} :: top <= p < top + k ==> entries'[p].lastId == last)
  }

  lemma LogGrowsByOne(log: seq<Desc>, log1: seq<Desc>, bodies: seq<Body>, k: nat, rs: bool)
    requires LogGrows(log, log1, bodies, k, rs) && k < |bodies|
    ensures LogGrows(log, log1 + [Desc(bodies[k], rs && k + 1 == |bodies|)], bodies, k + 1, rs)
  {
    var d := Desc(bodies[k], rs && k + 1 == |bodies|);
    assert Plain(log1 + [d]) == Plain(log1) + [d.body];
    assert Plain(log1 + [d]) == Plain(log) + bodies[..k + 1];
  }

  lemma {:induction false} PutManyGrows(r: Ring, bodies: seq<Body>, buf: Mbuf, k: nat, last: nat, rs: bool)
    requires Shape(r) && k <= |bodies|
    ensures var r' := PutMany(r, bodies, buf, k, last, rs);
            LogGrows(r.log, r'.log, bodies, k, rs) && EntriesGrow(r.entries, r'.entries, k, last)
  {
    if k == 0 {
      assert bodies[..0] == [];
    } else {
      PutManyGrows(r, bodies, buf, k - 1, last, rs);
      LogGrowsByOne(r.log, PutMany(r, bodies, buf, k - 1, last, rs).log, bodies, k - 1, rs);
    }
  }

  /** The buffer of a packet is kept in exactly one entry. */
  lemma {:induction false} PutManyReleases(r: Ring, bodies: seq<Body>, buf: Mbuf, k: nat, last: nat, rs: bool)
    requires Shape(r) && k <= |bodies| && TakesBlank(r, bodies, buf, k, last, rs)
    ensures ReleaseAll(PutMany(r, bodies, buf, k, last, rs).entries)
            == ReleaseAll(r.entries) + if k >= 2 then Flagged(buf) else []
  {
    if k > 0 {
      PutManyReleases(r, bodies, buf, k - 1, last, rs);
      var r1 := PutMany(r, bodies, buf, k - 1, last, rs);
      ReleaseGrows(r1.entries, Entry(if k == 2 then buf else ZERO, r1.sw[r1.tail].nextId, last),
                   ReleaseAll(r.entries), Flagged(buf), k - 1);
    }
  }

  lemma ReleaseGrows(s: seq<Entry>, e: Entry, base: seq<Region>, load: seq<Region>, k: nat)
    requires ReleaseAll(s) == base + if k >= 2 then load else []
    requires Flagged(e.buf) == if k == 1 then load else []
    ensures ReleaseAll(s + [e]) == base + if k + 1 >= 2 then load else []
  {
    ReleaseOne(s, e);
    assert base + [] == base && (base + load) + [] == base + load;
  }

  lemma AllOfOneMore(sent: seq<Mbuf>, m: Mbuf)
    ensures AllBodies(sent + [m]) == AllBodies(sent) + Bodies(m)
    ensures AllFlagged(sent + [m]) == AllFlagged(sent) + Flagged(m)
  {
  }

  lemma AccountsExtended(log: seq<Desc>, entries: seq<Entry>, sent: seq<Mbuf>, m: Mbuf,
                         log': seq<Desc>, entries': seq<Entry>, rs: bool)
    requires AccountsAt(Mark(|log|, |sent|), log, entries, sent) && |log'| == |entries'|
    requires LogGrows(log, log', Bodies(m), |Bodies(m)|, rs)
    requires entries <= entries' && ReleaseAll(entries') == ReleaseAll(entries) + Flagged(m)
    ensures AccountsAt(Mark(|log'|, |sent| + 1), log', entries', sent + [m])
  {
    var sent' := sent + [m];
    assert log[..|log|] == log && entries[..|log|] == entries && sent[..|sent|] == sent;
    assert log'[..|log'|] == log' && entries'[..|log'|] == entries' && sent'[..|sent'|] == sent';
    AllOfOneMore(sent, m);
    assert Bodies(m)[..|Bodies(m)|] == Bodies(m);
  }

  lemma PacketsAfterSend(marks: seq<Mark>, log: seq<Desc>, entries: seq<Entry>, sent: seq<Mbuf>,
                         m: Mbuf, log': seq<Desc>, entries': seq<Entry>, rs: bool)
    requires PacketsInv(marks, log, entries, sent) && |log'| == |entries'|
    requires LogGrows(log, log', Bodies(m), |Bodies(m)|, rs)
    requires entries <= entries' && ReleaseAll(entries') == ReleaseAll(entries) + Flagged(m)
    ensures PacketsInv(if rs then marks + [Mark(|log'|, |sent| + 1)] else marks, log', entries', sent + [m])
  {
    var sent', marks' := sent + [m], if rs then marks + [Mark(|log'|, |sent| + 1)] else marks;
    assert MarkAt(marks, |marks|, log, sent) == Mark(|log|, |sent|);
    AccountsExtended(log, entries, sent, m, log', entries', rs);
    forall k | 0 <= k <= |marks'| ensures AccountsAt(MarkAt(marks', k, log', sent'), log', entries', sent') {
      if k < |marks| {
        assert MarkAt(marks', k, log', sent') == MarkAt(marks, k, log, sent);
        AccountsKept(marks[k], log, entries, sent, log', entries', sent');
      }
    }
  }

  lemma AccountsKept(m: Mark, log: seq<Desc>, entries: seq<Entry>, sent: seq<Mbuf>,
                     log': seq<Desc>, entries': seq<Entry>, sent': seq<Mbuf>)
    requires AccountsAt(m, log, entries, sent) && log <= log' && entries <= entries' && sent <= sent'
    requires |log'| == |entries'|
    ensures AccountsAt(m, log', entries', sent')
  {
    assert log'[..m.pos] == log[..m.pos] && sent'[..m.packets] == sent[..m.packets];
    assert entries'[..m.pos] == entries[..m.pos];
  }

  /** The packet's last descriptor slot, as the driver computes it. */
  lemma LastSlotIs(top: nat, needs: nat, n: nat)
    requires n > 0 && 0 < needs <= n
    ensures LastSlot(Slot(top, n), needs, n) == Slot(top + needs - 1, n)
  {
  }

  lemma BodiesAre(m: Mbuf)
    requires WellFormed(m)
    ensures |Bodies(m)| == Needs(m) && 2 <= Needs(m) <= 4
  {
  }

  lemma InvShape(t: Tx)
    requires Inv(t)
    ensures Shape(t.ring)
  {
  }

  /** What sending a packet of these descriptors adds to the ring. */
  ghost predicate Sends(r: Ring, r': Ring, m: Mbuf, bodies: seq<Body>, rs: bool) {
    && 0 < |bodies| && |r.desc| == |r'.desc| > 0 && |r.log| == |r.entries|
    && LogGrows(r.log, r'.log, bodies, |bodies|, rs)
    && EntriesGrow(r.entries, r'.entries, |bodies|, Slot(|r.log| + |bodies| - 1, |r.desc|))
    && ReleaseAll(r'.entries) == ReleaseAll(r.entries) + Flagged(m)
  }

  lemma PutManySends(r: Ring, m: Mbuf, bodies: seq<Body>, last: nat, rs: bool)
    requires Shape(r) && 2 <= |bodies| && TakesBlank(r, bodies, m, |bodies|, last, rs)
    requires |r.log| == |r.entries| && last == Slot(|r.log| + |bodies| - 1, |r.desc|)
    ensures Sends(r, PutMany(r, bodies, m, |bodies|, last, rs), m, bodies, rs) == true
  {
    PutManyGrows(r, bodies, m, |bodies|, last, rs);
    PutManyReleases(r, bodies, m, |bodies|, last, rs);
  }

  lemma SendRing(r: Ring, c: nat, fetched: nat, m: Mbuf, bodies: seq<Body>, rs: bool)
    requires RingInv(r, c, fetched) && Shape(r) && 2 <= |bodies| && |r.log| + |bodies| < c + |r.desc|
    ensures var r' := PutMany(r, bodies, m, |bodies|, LastSlot(r.tail, |bodies|, |r.desc|), rs);
            RingInv(r', c, fetched) == true && Sends(r, r', m, bodies, rs) == true
  {
    var last := LastSlot(r.tail, |bodies|, |r.desc|);
    LastSlotIs(|r.log|, |bodies|, |r.desc|);
    PutManyPreserves(r, c, fetched, bodies, m, |bodies|, last, rs);
    PutManySends(r, m, bodies, last, rs);
  }

  lemma PlaceAfterSend(t: Tx, m: Mbuf, bodies: seq<Body>)
    requires PlaceInv(t) && Shape(t.ring) && bodies != []
    requires var r' := SendAs(t, m, bodies).ring; |r'.log| == |r'.entries| == |t.ring.log| + |bodies|
    ensures PlaceInv(SendAs(t, m, bodies)) && Cleaned(SendAs(t, m, bodies)) == Cleaned(t)
  {
  }

  lemma DoneKept(log: seq<Desc>, hwPos: nat, hwTaken: seq<Desc>, entries: seq<Entry>, c: nat, reclaimed: seq<Entry>,
                 log': seq<Desc>, entries': seq<Entry>)
    requires DoneInv(log, hwPos, hwTaken, entries, c, reclaimed) && log <= log' && entries <= entries'
    ensures DoneInv(log', hwPos, hwTaken, entries', c, reclaimed)
  {
  }

  lemma SendMarks(t: Tx, m: Mbuf, bodies: seq<Body>)
    requires Shape(t.ring) && 0 < |bodies| <= 4
    requires MarksInv(t.marks, t.ring.log, t.ring.entries, t.used, |t.ring.desc|)
    requires Sends(t.ring, SendAs(t, m, bodies).ring, m, bodies, t.used + |bodies| >= TX_RS_THRESH)
    ensures var t' := SendAs(t, m, bodies);
            MarksInv(t'.marks, t'.ring.log, t'.ring.entries, t'.used, |t'.ring.desc|) == true
  {
  }

  lemma SendPreservesAs(t: Tx, m: Mbuf, bodies: seq<Body>)
    requires RingInv(t.ring, Cleaned(t), t.hwPos) && PlaceInv(t) && Shape(t.ring)
    requires MarksInv(t.marks, t.ring.log, t.ring.entries, t.used, |t.ring.desc|)
    requires 2 <= |bodies| <= 4 && |bodies| <= t.free
    ensures var t' := SendAs(t, m, bodies);
            && RingInv(t'.ring, Cleaned(t'), t'.hwPos) == true
            && PlaceInv(t') == true && Cleaned(t') == Cleaned(t)
            && MarksInv(t'.marks, t'.ring.log, t'.ring.entries, t'.used, |t'.ring.desc|) == true
            && Sends(t.ring, t'.ring, m, bodies, t.used + |bodies| >= TX_RS_THRESH) == true
  {
    SendRing(t.ring, Cleaned(t), t.hwPos, m, bodies, t.used + |bodies| >= TX_RS_THRESH);
    PlaceAfterSend(t, m, bodies);
    SendMarks(t, m, bodies);
  }

  lemma SendPreserves(t: Tx, m: Mbuf)
    requires Inv(t) && CanSend(t, m)
    ensures Inv(Send(t, m)) == true
  {
    BodiesAre(m);
    SendPreservesAs(t, m, Bodies(m));
    var t', rs := Send(t, m), t.used + Needs(m) >= TX_RS_THRESH;
    PacketsAfterSend(t.marks, t.ring.log, t.ring.entries, t.sent, m, t'.ring.log, t'.ring.entries, rs);
    DoneKept(t.ring.log, t.hwPos, t.hwTaken, t.ring.entries, Cleaned(t), t.reclaimed, t'.ring.log, t'.ring.entries);
  }
}
