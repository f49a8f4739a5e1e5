/**
 What every run of the X540 transmit queue guarantees, and when it can always go on.
 */
module TxProgress {
  import opened TxThresholds
  import opened TxRings
  import opened TxSystem
  import opened TxRuns

  // ------------------------------------------------------------------ every run

  lemma AccountedAt(t: Tx, k: nat)
    requires Inv(t) && k <= |t.marks|
    ensures AccountsAt(MarkAt(t.marks, k, t.ring.log, t.sent), t.ring.log, t.ring.entries, t.sent)
  {
  }

  lemma TakenSoFar(t: Tx)
    requires Inv(t)
    ensures Plain(t.hwTaken) <= AllBodies(t.sent)
  {
    AccountedAt(t, |t.marks|);
    assert t.ring.log[..|t.ring.log|] == t.ring.log && t.sent[..|t.sent|] == t.sent;
    assert forall i {:trigger t.hwTaken[i]} :: 0 <= i < t.hwPos ==> t.hwTaken[i] == t.ring.log[i];
  }

  /** What has been released is what the first `k` packets were flagged to release, and the hardware
      has taken all their descriptors. */
  ghost predicate ReleasedFor(t: Tx, k: nat) {
    && k <= |t.sent| && ReleaseAll(t.reclaimed) == AllFlagged(t.sent[..k])
    && |AllBodies(t.sent[..k])| <= |t.hwTaken|
    && t.free == |t.ring.desc| - 1 - (|AllBodies(t.sent)| - |AllBodies(t.sent[..k])|)
  }

  lemma ReleasedSoFar(t: Tx)
    requires Inv(t)
    ensures ReleasedFor(t, t.marks[t.mark].packets)
  {
    AccountedAt(t, t.mark);
    AccountedAt(t, |t.marks|);
    assert t.ring.log[..|t.ring.log|] == t.ring.log && t.sent[..|t.sent|] == t.sent;
  }

  /** Whatever the interleaving of sends, cleans, doorbells and hardware: the hardware takes the
      descriptors of the packets sent, in order and each once. */
  lemma TakenInOrder(n: nat, steps: seq<Step>)
    requires n >= TX_RS_THRESH
    ensures var t := After(Init(n), steps); Plain(t.hwTaken) <= AllBodies(t.sent)
  {
    InitInv(n);
    RunPreserves(Init(n), steps);
    TakenSoFar(After(Init(n), steps));
  }

  /** And the buffers released are those of the first packets sent, in order and each once, all of
      whose descriptors the hardware has taken; the free count is the ring less the packets in flight. */
  lemma ReleasedInOrder(n: nat, steps: seq<Step>)
    requires n >= TX_RS_THRESH
    ensures exists k {:trigger ReleasedFor(After(Init(n), steps), k)} :: ReleasedFor(After(Init(n), steps), k)
    ensures |After(Init(n), steps).ring.desc| == n
  {
    InitInv(n);
    RunPreserves(Init(n), steps);
    ReleasedSoFar(After(Init(n), steps));
    SameSize(Init(n), steps);
  }

  lemma {:induction false} SameSize(t: Tx, steps: seq<Step>)
    ensures |After(t, steps).ring.desc| == |t.ring.desc|
  {
    if steps != [] {
      SameSize(t, steps[..|steps| - 1]);
    }
  }

  // ------------------------------------------------------------------ progress

  /** With at least 68 descriptors: once the hardware has taken everything, any packet can be sent,
      after at most one clean. */
  lemma AlwaysRoom(t: Tx, m: Mbuf)
    requires Inv(t) && |t.ring.desc| >= 68 && t.hwPos == |t.ring.log| && WellFormed(m)
    ensures CanSend(t, m) || (CanClean(t) && CanSend(Clean(t), m))
  {
    BodiesAre(m);
    InvShape(t);
    if Needs(m) > t.free {
      NextSpan(t);
      CleanExact(t);
      CleanFrees(t);
      CleanPreserves(t);
      InvShape(Clean(t));
    }
  }

  function Fetches(k: nat): seq<Step> {
    if k == 0 then [] else Fetches(k - 1) + [FetchStep]
  }

  lemma FetchOne(t: Tx)
    requires Inv(t) && t.hwPos < t.tdtPos
    ensures Enabled(t, FetchStep)
    ensures var t' := Apply(t, FetchStep);
            && t'.hwPos == t.hwPos + 1 && t'.tdtPos == t.tdtPos && t'.ring.log == t.ring.log
            && |t'.ring.desc| == |t.ring.desc| && Inv(t') == true
  {
    FetchReady(t);
    FetchPreserves(t);
  }

  /** The hardware can take everything that was rung. */
  lemma {:induction false} Drains(t: Tx, k: nat)
    requires Inv(t) && k <= t.tdtPos - t.hwPos
    ensures var t' := After(t, Fetches(k));
            && t'.hwPos == t.hwPos + k && t'.tdtPos == t.tdtPos && t'.ring.log == t.ring.log
            && |t'.ring.desc| == |t.ring.desc| && Inv(t') == true
  {
    if k > 0 {
      Drains(t, k - 1);
      var t1 := After(t, Fetches(k - 1));
      FetchOne(t1);
      AfterAppend(t, Fetches(k - 1), FetchStep);
      assert After(t, Fetches(k)) == Apply(t1, FetchStep);
    }
  }

  /** From any reachable state a packet can be sent after ringing, draining and one clean. */
  lemma PacketGoesThrough(t: Tx, m: Mbuf)
    requires Inv(t) && |t.ring.desc| >= 68 && WellFormed(m)
    ensures var t' := After(WriteTail(t), Fetches(|t.ring.log| - t.hwPos));
            CanSend(t', m) || (CanClean(t') && CanSend(Clean(t'), m))
  {
    WriteTailPreserves(t);
    Drains(WriteTail(t), |t.ring.log| - t.hwPos);
    AlwaysRoom(After(WriteTail(t), Fetches(|t.ring.log| - t.hwPos)), m);
  }

  // ------------------------------------------------------------------ the bound is exact

  /** No threshold set yet, and this many descriptors used. */
  ghost predicate Short(t: Tx, used: nat, sent: nat) {
    Inv(t) && |t.marks| == 1 && t.mark == 0 && t.used == used && |t.sent| == sent
  }

  /** Steps that each send a packet of two segments. */
  predicate AllTwos(steps: seq<Step>) {
    forall i {:trigger steps[i]} :: 0 <= i < |steps| ==> IsTwo(steps[i])
  }

  predicate IsTwo(s: Step) {
    s.SendStep? && WellFormed(s.m) && Needs(s.m) == 3
  }

  lemma OneMoreShort(t: Tx, s: Step, used: nat, sent: nat)
    requires Short(t, used, sent) == true && used <= 60 && IsTwo(s)
    ensures Enabled(t, s)
    ensures Short(Apply(t, s), used + 3, sent + 1) == true && |Apply(t, s).ring.desc| == |t.ring.desc|
  {
    NextSpan(t);
    InvShape(t);
    SendPreserves(t, s.m);
  }

  lemma {:induction false} ShortAfter(t: Tx, steps: seq<Step>)
    requires Short(t, 0, 0) == true && |steps| <= 21 && AllTwos(steps)
    ensures var t' := After(t, steps);
            Short(t', 3 * |steps|, |steps|) == true && |t'.ring.desc| == |t.ring.desc|
  {
    if steps != [] {
      var before, s := steps[..|steps| - 1], steps[|steps| - 1];
      ShortAfter(t, before);
      OneMoreShort(After(t, before), s, 3 * |before|, |before|);
    }
  }

  /** Steps that send nothing but packets of three segments. */
  predicate OnlyThrees(steps: seq<Step>) {
    forall i {:trigger steps[i]} :: 0 <= i < |steps| && steps[i].SendStep? ==> Needs(steps[i].m) == 4
  }

  lemma {:induction false} StaysShort(t: Tx, steps: seq<Step>)
    requires Short(t, 63, |t.sent|) && |t.ring.desc| <= 67 && OnlyThrees(steps)
    ensures var t' := After(t, steps);
            Short(t', 63, |t.sent|) && t'.sent == t.sent && |t'.ring.desc| == |t.ring.desc| && t'.free < 4 && !CanClean(t')
  {
    if steps != [] {
      var before, s := steps[..|steps| - 1], steps[|steps| - 1];
      StaysShort(t, before);
      if Enabled(After(t, before), s) {
        StepPreserves(After(t, before), s);
      }
    }
    NextSpan(After(t, steps));
    CleanExact(After(t, steps));
  }

  /** With 64 to 67 descriptors the queue can jam for good: after 21 packets of two segments no
      packet of three is ever sent, whatever the driver and the hardware do. */
  lemma JamsBelow(n: nat, twos: seq<Step>, steps: seq<Step>)
    requires TX_RS_THRESH <= n <= 67 && AllTwos(twos) && |twos| == 21 && OnlyThrees(steps)
    ensures var t := After(Init(n), twos); After(t, steps).sent == t.sent && |t.sent| == 21
  {
    InitInv(n);
    ShortAfter(Init(n), twos);
    StaysShort(After(Init(n), twos), steps);
  }
}
