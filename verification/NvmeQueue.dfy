/**
 The host side of an NVMe queue pair as an object: 16-bit head, tail, phase and id counter,
 updated in place.  `sq` and `cq` are the step systems' view of the memory shared with the
 controller; each method performs one of their actions.
 */
module NvmeQueues {
  import opened Circular
  import opened CommandIds
  import opened NvmeSystem
  import Sub = SubmissionQueues
  import Comp = CompletionQueues

  /** The tail the full test compares with the head, on 16 bits. */
  function CandidateTail(tail: Word, n: nat): (r: Word)
    requires tail < n <= 0xffff
    ensures r == Next(tail, n)
  {
    var t := (tail + 1) % WORD;
    if t >= n then t - n else t
  }

  /** The tail stored after the slot is taken, on 16 bits. */
  function StoredTail(tail: Word, n: nat): (r: Word)
    requires tail < n <= 0xffff
    ensures r == Next(tail, n)
  {
    var t := (tail + 1) % WORD;
    if t == n then 0 else t
  }

  class NvmeQueue {
    const subCmd: array<Command>
    const compCmd: array<Comp.Tagged<Completion>>
    const queueMaxItems: nat
    var sqHead: Word
    var sqTail: Word
    var cqHead: Word
    var cqPhase: bool
    var cmdidCounter: Word
    var sqDoorbell: Word
    var cqDoorbell: Word
    ghost var sq: Sub.Sq<Command>
    ghost var cq: Comp.Cq<Completion>

    ghost predicate Valid()
      reads this, subCmd, compCmd
    {
      && 0 < queueMaxItems <= 0xffff
      && Sub.Inv(sq) && subCmd[..] == sq.slots && |sq.slots| == queueMaxItems
      && Comp.Inv(cq) && compCmd[..] == cq.slots && |cq.slots| == queueMaxItems
      && sqHead == sq.head && sqTail == sq.tail && sqDoorbell == sq.doorbell
      && cqHead == cq.head && cqPhase == cq.phase && cqDoorbell == cq.doorbell
    }

    constructor (queueLength: nat, zero: Command)
      requires 0 < queueLength <= 0xffff
      ensures Valid() && fresh(subCmd) && fresh(compCmd) && queueMaxItems == queueLength && cmdidCounter == 0
      ensures sq == Sub.Fresh(subCmd[..]) && cq == Comp.Fresh(queueLength, Completion(0, 0, 0, 0))
    {
      queueMaxItems := queueLength;
      subCmd := new Command[queueLength](_ => zero);
      compCmd := new Comp.Tagged<Completion>[queueLength](_ => Comp.Tagged(Completion(0, 0, 0, 0), false));
      sqHead, sqTail, cqHead, cqPhase, cmdidCounter, sqDoorbell, cqDoorbell := 0, 0, 0, true, 0, 0, 0;
      new;
      sq, cq := Sub.Fresh(subCmd[..]), Comp.Fresh(queueLength, Completion(0, 0, 0, 0));
      Sub.FreshInv(subCmd[..]);
      Comp.FreshInv(queueLength, Completion(0, 0, 0, 0));
      assert compCmd[..] == cq.slots;
    }

    /** Reserve a submission slot; refused exactly when all but one slot hold commands that the
        host does not know to be fetched. */
    method IncrementSubmissionTail() returns (full: bool, slot: nat)
      requires Valid() && !sq.reserved
      modifies this
      ensures Valid() && cq == old(cq) && cmdidCounter == old(cmdidCounter)
      ensures full <==> |old(sq).log| + 1 == old(sq).headPos + queueMaxItems
      ensures full ==> sq == old(sq)
      ensures !full ==> Sub.Enabled(old(sq), Sub.Reserve) && sq == Sub.Apply(old(sq), Sub.Reserve)
      ensures !full ==> slot < queueMaxItems && slot == Slot(|sq.log|, queueMaxItems)
    {
      Sub.ReserveReady(sq);
      var newTail := CandidateTail(sqTail, queueMaxItems);
      if newTail == sqHead {
        return true, 0;
      }
      Sub.ActionPreserves(sq, Sub.Reserve);
      slot := sqTail;
      sqTail := StoredTail(sqTail, queueMaxItems);
      sq := Sub.Apply(sq, Sub.Reserve);
      return false, slot;
    }

    /** Fill the slot just reserved. */
    method WriteCommand(slot: nat, cmd: Command)
      requires Valid() && sq.reserved && slot == Slot(|sq.log|, queueMaxItems)
      modifies this`sq, subCmd
      ensures Valid() && sq == Sub.Apply(old(sq), Sub.Write(cmd))
    {
      Sub.ReservedSlotFree(sq);
      Sub.ActionPreserves(sq, Sub.Write(cmd));
      subCmd[slot] := cmd;
      sq := Sub.Apply(sq, Sub.Write(cmd));
    }

    method RingSubmissionDoorbell()
      requires Valid() && !sq.reserved
      modifies this
      ensures Valid() && sq == Sub.Apply(old(sq), Sub.Ring) && cq == old(cq) && cmdidCounter == old(cmdidCounter)
    {
      Sub.ActionPreserves(sq, Sub.Ring);
      sqDoorbell := sqTail;
      sq := Sub.Apply(sq, Sub.Ring);
    }

    /** Advance the completion head on its 16-bit field and flip the phase at the end. */
    method IncrementCompletionHead()
      requires 0 < queueMaxItems <= 0xffff && cqHead < queueMaxItems
      modifies this`cqHead, this`cqPhase
      ensures (cqHead as nat, cqPhase) == Comp.Advance(old(cqHead), old(cqPhase), queueMaxItems)
    {
      cqHead := (cqHead + 1) % WORD;
      if cqHead == queueMaxItems {
        cqHead := 0;
        cqPhase := !cqPhase;
      }
    }

    /** Take the oldest posted entry that was not taken, if there is one. */
    method GetNextCompletion() returns (found: bool, entry: Completion)
      requires Valid()
      modifies this
      ensures Valid() && sq == old(sq) && cmdidCounter == old(cmdidCounter)
      ensures found <==> old(cq).consumed < |old(cq).log|
      ensures found ==> entry == old(cq).log[old(cq).consumed].entry && cq.consumed == old(cq).consumed + 1
      ensures Comp.Enabled(old(cq), Comp.Poll) && cq == Comp.Apply(old(cq), Comp.Poll)
    {
      Comp.TagExact(cq);
      Comp.ActionPreserves(cq, Comp.Poll);
      var head := cqHead;
      entry := compCmd[head].entry;
      found := compCmd[head].phase == cqPhase;
      if found {
        IncrementCompletionHead();
      }
      cq := Comp.Apply(cq, Comp.Poll);
    }

    method RingCompletionDoorbell()
      requires Valid()
      modifies this
      ensures Valid() && cq == Comp.Apply(old(cq), Comp.Ring) && sq == old(sq) && cmdidCounter == old(cmdidCounter)
    {
      Comp.ActionPreserves(cq, Comp.Ring);
      cqDoorbell := cqHead;
      cq := Comp.Apply(cq, Comp.Ring);
    }

    /** Adopt the submission head that a completion entry carries. */
    method UpdateSqHead(entry: Completion)
      requires Valid() && sq.headPos <= entry.headPos <= sq.fetched
      requires entry.sqHead == Slot(entry.headPos, queueMaxItems)
      modifies this
      ensures Valid() && sq == Sub.Apply(old(sq), Sub.UpdateHead(entry.headPos)) && cq == old(cq)
      ensures cmdidCounter == old(cmdidCounter)
    {
      Sub.ActionPreserves(sq, Sub.UpdateHead(entry.headPos));
      sqHead := entry.sqHead;
      sq := Sub.Apply(sq, Sub.UpdateHead(entry.headPos));
    }

    method AllocateId() returns (id: Word)
      modifies this`cmdidCounter
      ensures id == cmdidCounter == AllocCmdid(old(cmdidCounter))
    {
      cmdidCounter := (cmdidCounter + 1) % WORD;
      if cmdidCounter == 0 {
        cmdidCounter := cmdidCounter + 1;
      }
      id := cmdidCounter;
    }

    /** The ids of a batch, as the issue loop allocates them after the wrap handling: one per
        command, consecutive, and the last one is the recorded end. */
    method AllocateBatch(length: Word) returns (ids: seq<Word>, end: Word)
      requires 0 < length < 0xffff
      modifies this`cmdidCounter
      ensures |ids| == length && end == cmdidCounter == ids[length - 1]
      ensures var p := PlanBatch(old(cmdidCounter), length);
              end == p.end && forall i :: 0 <= i < length ==> ids[i] == p.start + i
    {
      AllocationFollowsPlan(cmdidCounter, length);
      var plan := PlanBatch(cmdidCounter, length);
      if plan.reset {
        cmdidCounter := 0;
      }
      ghost var all := Allocate(cmdidCounter, length);
      ids := [];
      var id: Word := cmdidCounter;
      for idx := 0 to length
        invariant id == cmdidCounter && (idx > 0 ==> id == all[idx - 1])
        invariant ids == all[..idx]
        invariant Allocate(cmdidCounter, length - idx) == all[idx..]
      {
        assert all[idx..][0] == all[idx] && all[idx..][1..] == all[idx + 1..];
        id := AllocateId();
        ids := ids + [id];
      }
      end := id;
    }
  }
}
