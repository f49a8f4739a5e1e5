/**
 What holds in every run of the simple send path, whatever the hardware does between the driver's
 steps.
 */
module SimpleRuns {
  import opened Circular
  import opened TxThresholds
  import opened SimpleSend
  import opened SimpleSystem

  datatype Step = SCall(pkts: seq<Frame>) | SFree | SStart | SWrite | SRequest | SRing | SFetch

  predicate Enabled(s: Sq, step: Step) {
    match step
    case SCall(_) => s.pc.Idle?
    case SFree => CanFree(s)
    case SStart => CanStart(s)
    case SWrite => CanWrite(s)
    case SRequest => CanRequest(s)
    case SRing => s.pc.Ringing?
    case SFetch => CanFetch(s)
  }

  function Apply(s: Sq, step: Step): Sq
    requires Enabled(s, step)
  {
    match step
    case SCall(pkts) => Call(s, pkts)
    case SFree => Free(s)
    case SStart => Start(s)
    case SWrite => Write(s)
    case SRequest => RequestEnd(s)
    case SRing => RingTail(s)
    case SFetch => Fetch(s)
  }

  /** The state after these steps; a step that is not enabled does nothing. */
  function After(s: Sq, steps: seq<Step>): Sq {
    if steps == [] then s else
      var s1, step := After(s, steps[..|steps| - 1]), steps[|steps| - 1];
      if Enabled(s1, step) then Apply(s1, step) else s1
  }

  lemma StepPreserves(s: Sq, step: Step)
    requires Inv(s) && Enabled(s, step)
    ensures Inv(Apply(s, step)) == true && |Apply(s, step).desc| == |s.desc|
  {
    match step
    case SCall(pkts) => CallPreserves(s, pkts);
    case SFree => FreePreserves(s);
    case SStart => StartPreserves(s);
    case SWrite => WritePreserves(s);
    case SRequest => RequestPreserves(s);
    case SRing => RingPreserves(s);
    case SFetch => FetchPreserves(s);
  }

  lemma {:induction false} RunPreserves(s: Sq, steps: seq<Step>)
    requires Inv(s)
    ensures Inv(After(s, steps)) == true && |After(s, steps).desc| == |s.desc|
  {
    if steps != [] {
      var before, step := steps[..|steps| - 1], steps[|steps| - 1];
      RunPreserves(s, before);
      if Enabled(After(s, before), step) {
        StepPreserves(After(s, before), step);
      }
    }
  }

  lemma FromStart(n: nat, steps: seq<Step>)
    requires n >= 128 && Offset(n) == 0
    ensures Inv(After(Init(n), steps)) && |After(Init(n), steps).desc| == n
  {
    InitInv(n);
    RunPreserves(Init(n), steps);
  }

  /** At every moment of every run: of the descriptors the tail register has passed, exactly the block
      ends carry a status request. */
  lemma RequestedBeforeRung(n: nat, steps: seq<Step>, p: nat)
    requires n >= 128 && Offset(n) == 0
    requires var s := After(Init(n), steps); Oldest(|s.log|, n) <= p < s.rung
    ensures var s := After(Init(n), steps); |s.rs| == n && (s.rs[Slot(p, n)] <==> IsEnd(p))
  {
    FromStart(n, steps);
  }

  /** The hardware takes the frames accepted, in order and each once; it reports the block ends it has
      taken and nothing else; and what is free is the ring less what is accepted and not reclaimed. */
  lemma TakenInOrder(n: nat, steps: seq<Step>)
    requires n >= 128 && Offset(n) == 0
    ensures var s := After(Init(n), steps);
            && s.taken <= s.sent && |s.taken| == s.hw && |s.dd| == n && Bits(s.dd, |s.log|, s.hw)
            && s.reclaimed <= s.hw && s.free == n - 1 - (|s.sent| - s.reclaimed)
            && (CanFetch(s) <==> s.hw < s.rung)
  {
    FromStart(n, steps);
    FetchReady(After(Init(n), steps));
  }

  /** Whenever a done bit is tested, its block has been sent and rung completely, and the bit is set
      exactly if the hardware has taken the whole block. */
  lemma FreeTestsSentBlock(n: nat, steps: seq<Step>)
    requires n >= 128 && Offset(n) == 0 && After(Init(n), steps).pc.Freeing?
    ensures var s := After(Init(n), steps);
            CanFree(s) && s.reclaimed + 64 <= s.rung && (s.dd[s.nextDd] <==> s.reclaimed + 64 <= s.hw)
  {
    FromStart(n, steps);
    FreeTestExact(After(Init(n), steps));
  }

  /** Once the hardware has taken everything rung, the next call finds room. */
  lemma RoomAfterDrain(s: Sq, pkts: seq<Frame>)
    requires Inv(s) && s.pc.Idle? && s.hw == s.rung
    ensures var s1 := Call(s, pkts);
            if s1.pc.Freeing? then CanFree(s1) && Free(s1).free >= 64 else s1.free >= 64
  {
    CallPreserves(s, pkts);
    if s.free < TX_FREE_THRESH {
      FreeTestExact(Call(s, pkts));
    }
  }
}
