/**
 The submission queue that host and NVMe controller share (NVM Express 1.1, sections 4.1.1
 and 4.1.2): the host reserves a slot, writes a command and rings the doorbell; the
 controller fetches up to the doorbell; the host learns the controller's head late, from
 completion entries.
 */
module SubmissionQueues {
  import opened Circular

  /** Host copies of head and tail, the doorbell register, the controller's head, the slot
      reserved but not yet written (if any), and history: every command ever written, every
      command the controller read, and the unbounded positions of the host's head, of the
      doorbell and of the controller's head. */
  datatype Sq<T> = Sq(
    slots: seq<T>, head: nat, tail: nat, doorbell: nat, fetchAt: nat, reserved: bool,
    log: seq<T>, taken: seq<T>, headPos: nat, doorbellPos: nat, fetched: nat)

  datatype Action<T> =
    | Reserve
    | Write(cmd: T)
    | Ring
    | Fetch
    | UpdateHead(position: nat)

  function Fresh<T>(slots: seq<T>): Sq<T> {
    Sq(slots, 0, 0, 0, 0, false, [], [], 0, 0, 0)
  }

  /** `Reserve` is the successful attempt of `increment_submission_tail`.  `UpdateHead` relies
      on the controller: it reports a head that it really reached, and never goes back. */
  predicate Enabled<T>(q: Sq<T>, a: Action<T>) {
    && |q.slots| > 0 && q.tail < |q.slots| && q.fetchAt < |q.slots|
    && match a
       case Reserve => !q.reserved && Next(q.tail, |q.slots|) != q.head
       case Write(_) => q.reserved
       case Ring => !q.reserved
       case Fetch => q.fetchAt != q.doorbell
       case UpdateHead(p) => q.headPos <= p <= q.fetched
  }

  /** The slot that `Reserve` handed out is the one just before the tail. */
  function ReservedSlot<T>(q: Sq<T>): (slot: nat)
    requires 0 < |q.slots| && q.tail < |q.slots|
    ensures slot < |q.slots| && Next(slot, |q.slots|) == q.tail
  {
    if q.tail == 0 then |q.slots| - 1 else q.tail - 1
  }

  function Apply<T>(q: Sq<T>, a: Action<T>): Sq<T>
    requires Enabled(q, a)
  {
    match a
    case Reserve => q.(tail := Next(q.tail, |q.slots|), reserved := true)
    case Write(cmd) => q.(slots := q.slots[ReservedSlot(q) := cmd], reserved := false, log := q.log + [cmd])
    case Ring => q.(doorbell := q.tail, doorbellPos := |q.log|)
    case Fetch => q.(fetchAt := Next(q.fetchAt, |q.slots|), fetched := q.fetched + 1,
                     taken := q.taken + [FetchedCommand(q)])
    case UpdateHead(p) => q.(head := Slot(p, |q.slots|), headPos := p)
  }

  /** The command a fetch reads from the ring. */
  function FetchedCommand<T>(q: Sq<T>): T
    requires q.fetchAt < |q.slots|
  {
    q.slots[q.fetchAt]
  }

  function TailPos<T>(q: Sq<T>): nat {
    |q.log| + if q.reserved then 1 else 0
  }

  ghost predicate Inv<T>(q: Sq<T>) {
    var n := |q.slots|;
    && n > 0
    && q.headPos <= q.fetched <= q.doorbellPos <= |q.log|
    && TailPos(q) < q.headPos + n
    && q.head == Slot(q.headPos, n)
    && q.tail == Slot(TailPos(q), n)
    && q.doorbell == Slot(q.doorbellPos, n)
    && q.fetchAt == Slot(q.fetched, n)
    && Window(q.slots, q.log, q.headPos)
    && q.taken == q.log[..q.fetched]
  }

  lemma FreshInv<T>(slots: seq<T>)
    requires |slots| > 0
    ensures Inv(Fresh(slots))
  {
  }

  /** The slot reserved is the slot of the next position, and no unfetched command is in it. */
  lemma ReservedSlotFree<T>(q: Sq<T>)
    requires Inv(q) && q.reserved
    ensures ReservedSlot(q) == Slot(|q.log|, |q.slots|)
    ensures forall i :: q.fetched <= i < |q.log| ==> Slot(i, |q.slots|) != ReservedSlot(q)
  {
    SlotNext(|q.log|, |q.slots|);
    forall i | q.fetched <= i < |q.log| ensures Slot(i, |q.slots|) != Slot(|q.log|, |q.slots|) {
      SlotDistinct(i, |q.log|, |q.slots|);
    }
  }

  /** The controller sees a non-empty queue exactly when a rung command is unfetched. */
  lemma FetchReady<T>(q: Sq<T>)
    requires Inv(q)
    ensures q.fetchAt != q.doorbell <==> q.fetched < q.doorbellPos
    ensures q.fetchAt != q.doorbell ==> FetchedCommand(q) == q.log[q.fetched]
  {
    if q.fetched < q.doorbellPos {
      SlotDistinct(q.fetched, q.doorbellPos, |q.slots|);
    }
  }

  /** The host sees a full queue exactly when one slot is left by its own reckoning. */
  lemma ReserveReady<T>(q: Sq<T>)
    requires Inv(q)
    ensures Next(q.tail, |q.slots|) != q.head <==> TailPos(q) + 1 < q.headPos + |q.slots|
  {
    var n := |q.slots|;
    SlotNext(TailPos(q), n);
    if TailPos(q) + 1 < q.headPos + n {
      SlotDistinct(q.headPos, TailPos(q) + 1, n);
    } else {
      assert TailPos(q) + 1 == q.headPos + n;
      assert Slot(q.headPos + n, n) == Slot(q.headPos, n);
    }
  }

  lemma WritePreserves<T>(q: Sq<T>, cmd: T)
    requires Inv(q) && Enabled(q, Write(cmd))
    ensures Inv(Apply(q, Write(cmd)))
  {
    ReservedSlotFree(q);
    WindowExtends(q.slots, q.log, q.headPos, cmd);
  }

  lemma FetchPreserves<T>(q: Sq<T>)
    requires Inv(q) && Enabled(q, Fetch)
    ensures Inv(Apply(q, Fetch))
  {
    FetchReady(q);
    SlotNext(q.fetched, |q.slots|);
  }

  lemma ReservePreserves<T>(q: Sq<T>)
    requires Inv(q) && Enabled(q, Reserve)
    ensures Inv(Apply(q, Reserve))
  {
    ReserveReady(q);
    SlotNext(|q.log|, |q.slots|);
  }

  lemma ActionPreserves<T>(q: Sq<T>, a: Action<T>)
    requires Inv(q) && Enabled(q, a)
    ensures Inv(Apply(q, a)) && |Apply(q, a).slots| == |q.slots|
  {
    match a
    case Reserve => ReservePreserves(q);
    case Write(cmd) => WritePreserves(q, cmd);
    case Fetch => FetchPreserves(q);
    case _ =>
  }

  // ------------------------------------------------------------------ runs

  ghost predicate Schedule<T>(q: Sq<T>, actions: seq<Action<T>>)
    decreases |actions|
  {
    actions == [] || (Enabled(q, actions[0]) && Schedule(Apply(q, actions[0]), actions[1..]))
  }

  function Final<T>(q: Sq<T>, actions: seq<Action<T>>): Sq<T>
    requires Schedule(q, actions)
    decreases |actions|
  {
    if actions == [] then q else Final(Apply(q, actions[0]), actions[1..])
  }

  lemma {:induction false} RunPreserves<T>(q: Sq<T>, actions: seq<Action<T>>)
    requires Inv(q) && Schedule(q, actions)
    ensures Inv(Final(q, actions)) && |Final(q, actions).slots| == |q.slots|
    decreases |actions|
  {
    if actions != [] {
      ActionPreserves(q, actions[0]);
      RunPreserves(Apply(q, actions[0]), actions[1..]);
    }
  }

  /** However host and controller interleave, and however late the host learns the head, the
      controller reads exactly the commands written, each once and in order, and the commands
      it has not read yet are intact in the ring, in issue order. */
  lemma FetchedInIssueOrder<T>(slots: seq<T>, actions: seq<Action<T>>)
    requires |slots| > 0 && Schedule(Fresh(slots), actions)
    ensures var f := Final(Fresh(slots), actions);
            && f.taken <= f.log
            && |f.log| - |f.taken| < |f.slots|
            && (forall i :: |f.taken| <= i < |f.log| ==> f.slots[Slot(i, |f.slots|)] == f.log[i])
  {
    FreshInv(slots);
    RunPreserves(Fresh(slots), actions);
  }
}
