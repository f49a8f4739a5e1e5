/**
 One NVMe I/O queue pair with its batch manager, as a step system of three parties: the
 producer thread (`issue_async_io_batch`, `wait_io_completion`), the controller, and the
 completion thread.  Every shared load and store is a step of its own and a run is any
 interleaving of enabled steps; a spin loop shows only as its last, successful test.
 */
module NvmeSystem {
  import opened Circular
  import opened CommandIds
  import opened BatchManagers
  import opened Ledgers
  import Sub = SubmissionQueues
  import Comp = CompletionQueues
  import Rb = RingBuffers

  /** A submission entry: its id, and the number of the I/O request it carries. */
  datatype Command = Command(id: Word, request: nat)

  /** A completion entry: command id and submission head as on the wire; `request` and
      `headPos` say which request it completes and which position the head stands for. */
  datatype Completion = Completion(id: Word, sqHead: nat, request: nat, headPos: nat)

  /** The batch the producer is working on. */
  datatype Job = Job(length: Word, start: Word, end: Word)

  datatype ProducerPc =
    | Idle
    | Resetting(length: Word)
    | Checking(job: Job)
    | Pushing(job: Job)
    | Allocating(job: Job, k: nat)
    | Reserving(job: Job, k: nat)
    | Writing(job: Job, k: nat)
    | Belling(job: Job, k: nat)
    | WaitRinging
    | Waiting

  /** `slot` is the completion entry in hand; `head`, `idx`, `stop` are the index range of the
      search and pop loops; `seen` is the number of batches pushed when the tail was loaded. */
  datatype ConsumerPc =
    | Polling
    | Holding(slot: nat)
    | Loading(slot: nat)
    | Crediting(slot: nat, head: nat, stop: nat, seen: nat)
    | Popping(idx: nat, stop: nat, seen: nat)
    | PopRunning(idx: nat, stop: nat, seen: nat)
    | Publishing(idx: nat, stop: nat, seen: nat, end: Word)
    | Ringing

  datatype State = State(
    sq: Sub.Sq<Command>, cq: Comp.Cq<Completion>, ring: Rb.Ring<Batch>,
    marker: Word, counter: Word,
    producer: ProducerPc, consumer: ConsumerPc, inflight: set<Command>,
    // history: the batches pushed, how many ends the marker has published, the requests posted,
    // the requests credited and how many completions that took, and the batches in order of
    // finishing
    ledger: Ledger, published: nat, posted: set<nat>, credited: set<nat>, creditCount: nat, finished: seq<nat>)

  function Init(n: nat, zero: Command): State
    requires n > 0
  {
    State(Sub.Fresh(seq(n, _ => zero)), Comp.Fresh(n, Completion(0, 0, 0, 0)),
          Rb.Empty(seq(BATCH_INFO_BUFFER_SIZE, _ => Batch(0, 0, 0, 0, false, false, false))),
          0, 0, Idle, Polling, {}, EMPTY, 0, {}, {}, 0, [])
  }

  function NewBatch(job: Job): Batch {
    Batch(job.start, job.end, job.length, 0, false, true, false)
  }

  function PlanJob(counter: Word, length: Word): Job
    requires length < 0xffff
  {
    var p := PlanBatch(counter, length);
    Job(length, p.start, p.end)
  }

  /** What the producer does next inside `push`. */
  function NextPush(r: Rb.Ring<Batch>, job: Job): Rb.Action<Batch> {
    match r.producer
    case NotPushing => Rb.PushLoadTail(NewBatch(job))
    case TailLoaded(_, _) => Rb.PushLoadHead
    case HeadChecked(_, _) => Rb.PushStoreItem
    case ItemStored(_, _) => Rb.PushStoreTail
  }

  /** What the completion thread does next inside `pop`. */
  function NextPop(r: Rb.Ring<Batch>): Rb.Action<Batch> {
    match r.consumer
    case NotPopping => Rb.PopLoadHead
    case HeadLoaded(_) => Rb.PopLoadTail
    case TailChecked(_) => Rb.PopCopyItem
    case ItemCopied(_, _) => Rb.PopStoreHead
  }

  /** The search loop over slots: the first index from `idx` on whose batch covers the id. */
  function SearchSlots(slots: seq<Batch>, idx: nat, stop: nat, id: Word): (found: nat)
    requires |slots| > 0 && idx <= stop
    ensures idx <= found <= stop
    decreases stop - idx
  {
    if idx == stop || Covers(slots[Slot(idx, |slots|)], id) then idx else SearchSlots(slots, idx + 1, stop, id)
  }

  /** The completion thread's loop bound when it loads head and tail. */
  function Stop(head: nat, tail: nat): nat {
    if head > tail then tail + BATCH_INFO_BUFFER_SIZE else tail
  }

  // ------------------------------------------------------------------ producer steps

  predicate CanBegin(s: State, length: Word) {
    s.producer.Idle? && 0 < length < 0xffff
  }

  function Begin(s: State, length: Word): State
    requires CanBegin(s, length)
  {
    s.(producer := if PlanBatch(s.counter, length).reset then Resetting(length)
                   else Checking(PlanJob(s.counter, length)))
  }

  predicate CanFinishReset(s: State) {
    s.producer.Resetting? && s.producer.length < 0xffff && CanReset(s.counter, s.marker)
  }

  function FinishReset(s: State): State
    requires CanFinishReset(s)
  {
    s.(counter := 0, producer := Checking(PlanJob(0, s.producer.length)))
  }

  predicate CanPassCheck(s: State) {
    s.producer.Checking? && IsAvailable(s.producer.job.start, s.producer.job.end, s.marker)
  }

  function PassCheck(s: State): State
    requires CanPassCheck(s)
  {
    s.(producer := Pushing(s.producer.job))
  }

  predicate CanPush(s: State) {
    s.producer.Pushing? && Rb.Enabled(s.ring, NextPush(s.ring, s.producer.job))
  }

  function Push(s: State): State
    requires CanPush(s)
  {
    var ring := Rb.Apply(s.ring, NextPush(s.ring, s.producer.job));
    if s.ring.producer.ItemStored? then
      s.(ring := ring, producer := Allocating(s.producer.job, 0),
         ledger := AddBatch(s.ledger, Range(s.producer.job.start, s.producer.job.end)))
    else s.(ring := ring)
  }

  function Alloc(s: State): State
    requires s.producer.Allocating?
  {
    s.(counter := AllocCmdid(s.counter), producer := Reserving(s.producer.job, s.producer.k))
  }

  predicate CanReserve(s: State) {
    s.producer.Reserving? && Sub.Enabled(s.sq, Sub.Reserve)
  }

  function Reserve(s: State): State
    requires CanReserve(s)
  {
    s.(sq := Sub.Apply(s.sq, Sub.Reserve), producer := Writing(s.producer.job, s.producer.k))
  }

  predicate CanWrite(s: State) {
    s.producer.Writing? && Sub.Enabled(s.sq, Sub.Write(Command(s.counter, |s.sq.log|)))
  }

  function Write(s: State): State
    requires CanWrite(s)
  {
    s.(sq := Sub.Apply(s.sq, Sub.Write(Command(s.counter, |s.sq.log|))),
       producer := Belling(s.producer.job, s.producer.k))
  }

  predicate CanRingSq(s: State) {
    s.producer.Belling? && Sub.Enabled(s.sq, Sub.Ring)
  }

  function RingSq(s: State): State
    requires CanRingSq(s)
  {
    var k := s.producer.k + 1;
    s.(sq := Sub.Apply(s.sq, Sub.Ring),
       producer := if k < s.producer.job.length then Allocating(s.producer.job, k) else Idle)
  }

  function BeginWait(s: State): State
    requires s.producer.Idle?
  {
    s.(producer := WaitRinging)
  }

  predicate CanWaitRing(s: State) {
    s.producer.WaitRinging? && Sub.Enabled(s.sq, Sub.Ring)
  }

  function WaitRing(s: State): State
    requires CanWaitRing(s)
  {
    s.(sq := Sub.Apply(s.sq, Sub.Ring), producer := Waiting)
  }

  /** `wait_io_completion` returns when it sees the batch ring empty. */
  predicate CanWaitReturn(s: State) {
    s.producer.Waiting? && s.ring.head == s.ring.tail
  }

  function WaitReturn(s: State): State
    requires CanWaitReturn(s)
  {
    s.(producer := Idle)
  }

  // ------------------------------------------------------------------ controller steps

  predicate CanFetch(s: State) {
    Sub.Enabled(s.sq, Sub.Fetch)
  }

  function Fetch(s: State): State
    requires CanFetch(s)
  {
    s.(sq := Sub.Apply(s.sq, Sub.Fetch), inflight := s.inflight + {Sub.FetchedCommand(s.sq)})
  }

  /** The entry the controller posts for a command: it carries the current submission head. */
  function Posted(s: State, cmd: Command): Completion {
    Completion(cmd.id, s.sq.fetchAt, cmd.request, s.sq.fetched)
  }

  /** Commands complete in any order, each once. */
  predicate CanPost(s: State, cmd: Command) {
    cmd in s.inflight && Comp.Enabled(s.cq, Comp.Post(Posted(s, cmd)))
  }

  function Post(s: State, cmd: Command): State
    requires CanPost(s, cmd)
  {
    s.(cq := Comp.Apply(s.cq, Comp.Post(Posted(s, cmd))), inflight := s.inflight - {cmd},
       posted := s.posted + {cmd.request})
  }

  // ------------------------------------------------------------------ completion thread steps

  predicate CanPoll(s: State) {
    s.consumer.Polling? && Comp.Enabled(s.cq, Comp.Poll) && Comp.Found(s.cq)
  }

  function Poll(s: State): State
    requires CanPoll(s)
  {
    s.(cq := Comp.Apply(s.cq, Comp.Poll), consumer := Holding(s.cq.head))
  }

  predicate CanSetSqHead(s: State) {
    s.consumer.Holding? && s.consumer.slot < |s.cq.slots|
  }

  function SetSqHead(s: State): State
    requires CanSetSqHead(s)
  {
    var e := s.cq.slots[s.consumer.slot].entry;
    s.(sq := s.sq.(head := e.sqHead, headPos := e.headPos), consumer := Loading(s.consumer.slot))
  }

  function LoadRing(s: State): State
    requires s.consumer.Loading?
  {
    s.(consumer := Crediting(s.consumer.slot, s.ring.head, Stop(s.ring.head, s.ring.tail), |s.ring.log|))
  }

  /** The index the search loop finds for an id, and the batch it stands for. */
  datatype Hit = Hit(at: nat, batch: nat)

  function FoundHit(r: Rb.Ring<Batch>, head: nat, stop: nat, id: Word): (h: Hit)
    requires |r.slots| > 0 && head <= stop
    ensures head <= h.at <= stop && h.batch == r.popped + (h.at - head)
  {
    var at := SearchSlots(r.slots, head, stop, id);
    Hit(at, r.popped + (at - head))
  }

  /** The assertions around crediting hold: the batch found still expects a completion. */
  predicate CanAmend(r: Rb.Ring<Batch>, h: Hit)
    requires |r.slots| > 0
  {
    var b := r.slots[Slot(h.at, |r.slots|)];
    b.counter < b.total && !b.complete && Rb.Enabled(r, Rb.Amend(h.batch, Credit(b)))
  }

  predicate CanCredit(s: State) {
    && s.consumer.Crediting?
    && s.consumer.slot < |s.cq.slots| && |s.ring.slots| > 0 && s.consumer.head <= s.consumer.stop
    && var h := FoundHit(s.ring, s.consumer.head, s.consumer.stop, s.cq.slots[s.consumer.slot].entry.id);
       h.at < s.consumer.stop ==> CanAmend(s.ring, h)
  }

  /** Credit the entry in hand to the batch found; start popping if that finished the head. */
  function CreditEntry(s: State): State
    requires CanCredit(s)
  {
    var c, e := s.consumer, s.cq.slots[s.consumer.slot].entry;
    var h := FoundHit(s.ring, c.head, c.stop, e.id);
    if h.at == c.stop then s.(consumer := Ringing, creditCount := s.creditCount + 1)
    else CreditHit(s, h, e.request)
  }

  function CreditHit(s: State, h: Hit, request: nat): State
    requires s.consumer.Crediting? && |s.ring.slots| > 0 && CanAmend(s.ring, h)
  {
    var c, slot := s.consumer, Slot(h.at, |s.ring.slots|);
    var b := Credit(s.ring.slots[slot]);
    s.(ring := Rb.Apply(s.ring, Rb.Amend(h.batch, b)),
       credited := s.credited + {request}, creditCount := s.creditCount + 1,
       finished := if IsComplete(b) then s.finished + [h.batch] else s.finished,
       consumer := if IsComplete(b) && slot == c.head then Popping(c.head, c.stop, c.seen) else Ringing)
  }

  predicate CanPopCheck(s: State) {
    s.consumer.Popping? && |s.ring.slots| > 0
  }

  function PopCheck(s: State): State
    requires CanPopCheck(s)
  {
    var c := s.consumer;
    s.(consumer := if c.idx < c.stop && IsComplete(s.ring.slots[Slot(c.idx, |s.ring.slots|)])
                   then PopRunning(c.idx, c.stop, c.seen) else Ringing)
  }

  predicate CanPop(s: State) {
    s.consumer.PopRunning? && Rb.Enabled(s.ring, NextPop(s.ring))
  }

  function Pop(s: State): State
    requires CanPop(s)
  {
    var c := s.consumer;
    var ring := Rb.Apply(s.ring, NextPop(s.ring));
    if s.ring.consumer.ItemCopied?
    then s.(ring := ring, consumer := Publishing(c.idx, c.stop, c.seen, s.ring.consumer.item.endCmdid))
    else s.(ring := ring)
  }

  function Publish(s: State): State
    requires s.consumer.Publishing?
  {
    var c := s.consumer;
    s.(marker := c.end, published := s.published + 1, consumer := Popping(c.idx + 1, c.stop, c.seen))
  }

  predicate CanRingCq(s: State) {
    s.consumer.Ringing? && Comp.Enabled(s.cq, Comp.Ring)
  }

  function RingCq(s: State): State
    requires CanRingCq(s)
  {
    s.(cq := Comp.Apply(s.cq, Comp.Ring), consumer := Polling)
  }

  // ------------------------------------------------------------------ the step relation

  datatype Step =
    | SBegin(length: Word) | SFinishReset | SPassCheck | SPush | SAlloc | SReserve | SWrite | SRingSq
    | SBeginWait | SWaitRing | SWaitReturn
    | SFetch | SPost(cmd: Command)
    | SPoll | SSetSqHead | SLoadRing | SCredit | SPopCheck | SPop | SPublish | SRingCq

  predicate Enabled(s: State, step: Step) {
    match step
    case SBegin(length) => CanBegin(s, length)
    case SFinishReset => CanFinishReset(s)
    case SPassCheck => CanPassCheck(s)
    case SPush => CanPush(s)
    case SAlloc => s.producer.Allocating?
    case SReserve => CanReserve(s)
    case SWrite => CanWrite(s)
    case SRingSq => CanRingSq(s)
    case SBeginWait => s.producer.Idle?
    case SWaitRing => CanWaitRing(s)
    case SWaitReturn => CanWaitReturn(s)
    case SFetch => CanFetch(s)
    case SPost(cmd) => CanPost(s, cmd)
    case SPoll => CanPoll(s)
    case SSetSqHead => CanSetSqHead(s)
    case SLoadRing => s.consumer.Loading?
    case SCredit => CanCredit(s)
    case SPopCheck => CanPopCheck(s)
    case SPop => CanPop(s)
    case SPublish => s.consumer.Publishing?
    case SRingCq => CanRingCq(s)
  }

  function After(s: State, step: Step): State
    requires Enabled(s, step)
  {
    match step
    case SBegin(length) => Begin(s, length)
    case SFinishReset => FinishReset(s)
    case SPassCheck => PassCheck(s)
    case SPush => Push(s)
    case SAlloc => Alloc(s)
    case SReserve => Reserve(s)
    case SWrite => Write(s)
    case SRingSq => RingSq(s)
    case SBeginWait => BeginWait(s)
    case SWaitRing => WaitRing(s)
    case SWaitReturn => WaitReturn(s)
    case SFetch => Fetch(s)
    case SPost(cmd) => Post(s, cmd)
    case SPoll => Poll(s)
    case SSetSqHead => SetSqHead(s)
    case SLoadRing => LoadRing(s)
    case SCredit => CreditEntry(s)
    case SPopCheck => PopCheck(s)
    case SPop => Pop(s)
    case SPublish => Publish(s)
    case SRingCq => RingCq(s)
  }

  // ------------------------------------------------------------------ the invariant

  ghost predicate RecordMatches(b: Batch, l: Ledger, i: nat, credited: set<nat>)
    requires i < |l.ranges| == |l.bases|
  {
    && b.startCmdid == l.ranges[i].start && b.endCmdid == l.ranges[i].end
    && b.total == Size(l.ranges[i]) && b.ready
    && b.counter == Credits(l, i, credited)
    && (b.complete <==> b.counter == b.total)
  }

  /** Every record counts exactly the credited requests of its batch. */
  ghost predicate RecordsMatch(log: seq<Batch>, l: Ledger, credited: set<nat>) {
    && |log| == |l.ranges| == |l.bases|
    && forall i {:trigger log[i]} :: 0 <= i < |log| ==> RecordMatches(log[i], l, i, credited)
  }

  /** The commands written are the planned ones, in order. */
  ghost predicate CommandsMatch(cmds: seq<Command>, l: Ledger) {
    && LedgerInv(l) && |cmds| <= |l.owner|
    && forall r {:trigger cmds[r]} :: 0 <= r < |cmds| ==> cmds[r].request == r && cmds[r].id == IdOf(l, r)
  }

  /** The requests of the first `count` entries. */
  ghost function RequestsOf(log: seq<Comp.Tagged<Completion>>, count: nat): set<nat>
    requires count <= |log|
  {
    set k | 0 <= k < count :: log[k].entry.request
  }

  ghost predicate EntryMatches(e: Completion, cmds: seq<Command>, fetched: nat, n: nat)
    requires fetched <= |cmds| && n > 0
  {
    && e.request < fetched && e.id == cmds[e.request].id
    && e.headPos <= fetched && e.sqHead == Slot(e.headPos, n)
  }

  /** Commands in flight and commands posted split the fetched ones. */
  ghost predicate FlightInv(cmds: seq<Command>, fetched: nat, n: nat,
                            log: seq<Comp.Tagged<Completion>>, inflight: set<Command>, posted: set<nat>)
  {
    && fetched <= |cmds| && n > 0
    && (forall c {:trigger c in inflight} :: c in inflight ==> c.request < fetched && cmds[c.request] == c && c.request !in posted)
    && (forall k {:trigger log[k]} :: 0 <= k < |log| ==>
          EntryMatches(log[k].entry, cmds, fetched, n) && log[k].entry.request in posted)
    && (forall r {:trigger r in posted} :: 0 <= r < fetched ==> cmds[r] in inflight || r in posted)
  }

  /** Each request is posted at most once, and the reported heads never go back. */
  ghost predicate PostOrder(log: seq<Comp.Tagged<Completion>>) {
    forall j, k {:trigger log[j], log[k]} :: 0 <= j < k < |log| ==>
      log[j].entry.request != log[k].entry.request && log[j].entry.headPos <= log[k].entry.headPos
  }

  /** The entries not credited yet report heads that the host may still adopt. */
  ghost predicate HeadsAhead(log: seq<Comp.Tagged<Completion>>, creditCount: nat, headPos: nat) {
    forall k {:trigger log[k]} :: creditCount <= k < |log| ==> headPos <= log[k].entry.headPos
  }

  /** The last id spoken for: the end of the batch being issued, or else the counter. */
  function LastId(p: ProducerPc, counter: Word): Word {
    match p
    case Allocating(job, _) => job.end
    case Reserving(job, _) => job.end
    case Writing(job, _) => job.end
    case Belling(job, _) => job.end
    case _ => counter
  }

  /** The id space: the marker, the batches it has not passed, and the last id spoken for. */
  function Ids(marker: Word, ranges: seq<Range>, published: nat, last: Word): IdSpace
    requires published <= |ranges|
  {
    IdSpace(marker, ranges[published..], last)
  }

  ghost predicate IdsInv(marker: Word, ranges: seq<Range>, published: nat, last: Word) {
    && published <= |ranges|
    && IdInv(Ids(marker, ranges, published, last))
    && marker == (if published == 0 then 0 else ranges[published - 1].end)
  }

  /** The producer is issuing command `k` of the newest batch; `written` have gone out. */
  ghost predicate IssueInv(issued: nat, l: Ledger, job: Job, k: nat, written: nat) {
    var last := |l.ranges| - 1;
    && last >= 0 && |l.bases| == |l.ranges|
    && l.ranges[last] == Range(job.start, job.end)
    && 0 < job.start <= job.end && job.length == job.end - job.start + 1
    && k < job.length
    && issued == l.bases[last] + written
    && l.bases[last] + job.length == |l.owner|
  }

  ghost predicate JobInv(job: Job, counter: Word, marker: Word) {
    && 0 < job.length < 0xffff
    && PlanBatch(counter, job.length) == Plan(false, job.start, job.end)
    && (Wraps(counter, job.length) ==> marker != 0)
  }

  /** Where the producer is: between batches everything planned has been issued. */
  ghost predicate ProducerInv(p: ProducerPc, counter: Word, marker: Word, issued: nat, reserved: bool, l: Ledger) {
    match p
    case Idle => issued == |l.owner| && !reserved
    case Resetting(length) =>
      && issued == |l.owner| && !reserved
      && 0 < length < 0xffff && PlanBatch(counter, length).reset && marker != 0
    case Checking(job) => issued == |l.owner| && !reserved && JobInv(job, counter, marker)
    case Pushing(job) => issued == |l.owner| && !reserved && JobInv(job, counter, marker)
    case Allocating(job, k) => IssueInv(issued, l, job, k, k) && !reserved && AllocCmdid(counter) == job.start + k
    case Reserving(job, k) => IssueInv(issued, l, job, k, k) && !reserved && counter == job.start + k
    case Writing(job, k) => IssueInv(issued, l, job, k, k) && reserved && counter == job.start + k
    case Belling(job, k) => IssueInv(issued, l, job, k, k + 1) && !reserved && counter == job.start + k
    case WaitRinging => issued == |l.owner| && !reserved
    case Waiting => issued == |l.owner| && !reserved
  }

  /** While it is pushing, the producer's range is one the id space can take. */
  ghost predicate PushInv(p: ProducerPc, pushing: Rb.Producer<Batch>, ids: IdSpace) {
    if p.Pushing? then
      && (!pushing.NotPushing? ==> pushing.item == NewBatch(p.job))
      && Fits(ids, Range(p.job.start, p.job.end))
    else pushing.NotPushing?
  }

  ghost predicate HeadUnfinished(log: seq<Batch>, popped: nat) {
    popped < |log| ==> !IsComplete(log[popped])
  }

  /** Batches pushed since the tail was loaded have no credits yet. */
  ghost predicate Unseen(log: seq<Batch>, seen: nat) {
    && seen <= |log|
    && forall i {:trigger log[i]} :: seen <= i < |log| ==> log[i].counter == 0 < log[i].total
  }

  /** The loop index stands for the head and the bound for `seen`. */
  ghost predicate Walks(popped: nat, idx: nat, stop: nat, seen: nat) {
    && popped <= seen && stop - idx == seen - popped
    && Slot(popped, BATCH_INFO_BUFFER_SIZE) == Slot(idx, BATCH_INFO_BUFFER_SIZE)
  }

  /** Where the completion thread is between polls and credits: `held` counts the entry polled
      but not credited, and `ahead` the batch popped but not published. */
  ghost predicate ConsumerCounts(c: ConsumerPc, consumed: nat, creditCount: nat, popped: nat, published: nat) {
    && consumed == creditCount + (if c.Holding? || c.Loading? || c.Crediting? then 1 else 0)
    && popped == published + (if c.Publishing? then 1 else 0)
  }

  /** The completion thread's slot is that of the entry it holds. */
  ghost predicate SlotInv(c: ConsumerPc, creditCount: nat, n: nat)
    requires n > 0
  {
    match c
    case Holding(slot) => slot == Slot(creditCount, n)
    case Loading(slot) => slot == Slot(creditCount, n)
    case Crediting(slot, _, _, _) => slot == Slot(creditCount, n)
    case _ => true
  }

  /** The completion thread's view of the batch ring. */
  ghost predicate ScanInv(c: ConsumerPc, popping: Rb.Consumer<Batch>, log: seq<Batch>, popped: nat, ranges: seq<Range>) {
    match c
    case Crediting(_, head, stop, seen) =>
      && popping.NotPopping? && HeadUnfinished(log, popped)
      && head == Slot(popped, BATCH_INFO_BUFFER_SIZE) && Walks(popped, head, stop, seen) && Unseen(log, seen)
    case Popping(idx, stop, seen) =>
      popping.NotPopping? && Walks(popped, idx, stop, seen) && Unseen(log, seen)
    case PopRunning(idx, stop, seen) =>
      && Walks(popped, idx, stop, seen) && Unseen(log, seen)
      && idx < stop && popped < |log| && IsComplete(log[popped])
    case Publishing(idx, stop, seen, end) =>
      && popping.NotPopping? && Unseen(log, seen)
      && 0 < popped <= |ranges| && end == ranges[popped - 1].end
      && idx < stop && Walks(popped, idx + 1, stop, seen)
    case _ => popping.NotPopping? && HeadUnfinished(log, popped)
  }

  /** The batch of the entry in hand was pushed before the completion thread loaded the tail. */
  ghost predicate OwnerSeen(c: ConsumerPc, log: seq<Comp.Tagged<Completion>>, creditCount: nat, owner: seq<nat>) {
    c.Crediting? ==>
      && creditCount < |log| && log[creditCount].entry.request < |owner|
      && owner[log[creditCount].entry.request] < c.seen
  }

  /** A batch is listed as finished exactly once, when its record is complete. */
  ghost predicate FinishedInv(log: seq<Batch>, popped: nat, finished: seq<nat>) {
    && (forall i {:trigger i in finished} :: i in finished <==> 0 <= i < |log| && log[i].complete)
    && (forall j, k :: 0 <= j < k < |finished| ==> finished[j] != finished[k])
    && (forall i {:trigger log[i]} :: 0 <= i < popped && i < |log| ==> IsComplete(log[i]))
  }

  ghost predicate CreditInv(log: seq<Comp.Tagged<Completion>>, creditCount: nat, credited: set<nat>) {
    creditCount <= |log| && credited == RequestsOf(log, creditCount)
  }

  ghost predicate SizesInv(s: State) {
    |s.ring.slots| == BATCH_INFO_BUFFER_SIZE && |s.sq.slots| == |s.cq.slots| > 0 && s.cq.released <= s.creditCount
  }

  /** The three rings and the traffic between host and controller. */
  ghost predicate QueuesInv(s: State) {
    && Sub.Inv(s.sq) && Comp.Inv(s.cq) && Rb.Inv(s.ring)
    && SizesInv(s)
    && FlightInv(s.sq.log, s.sq.fetched, |s.sq.slots|, s.cq.log, s.inflight, s.posted)
    && s.posted == RequestsOf(s.cq.log, |s.cq.log|)
    && PostOrder(s.cq.log)
    && HeadsAhead(s.cq.log, s.creditCount, s.sq.headPos)
    && CreditInv(s.cq.log, s.creditCount, s.credited)
  }

  /** The batches: their records, their commands and their ids. */
  ghost predicate BatchesInv(s: State) {
    && LedgerInv(s.ledger)
    && RecordsMatch(s.ring.log, s.ledger, s.credited)
    && CommandsMatch(s.sq.log, s.ledger)
    && IdsInv(s.marker, s.ledger.ranges, s.published, LastId(s.producer, s.counter))
    && FinishedInv(s.ring.log, s.ring.popped, s.finished)
  }

  /** Where the two host threads are. */
  ghost predicate ThreadsInv(s: State) {
    && |s.cq.slots| > 0 && s.published <= |s.ledger.ranges|
    && ProducerInv(s.producer, s.counter, s.marker, |s.sq.log|, s.sq.reserved, s.ledger)
    && PushInv(s.producer, s.ring.producer, IdsOf(s))
    && ConsumerCounts(s.consumer, s.cq.consumed, s.creditCount, s.ring.popped, s.published)
    && SlotInv(s.consumer, s.creditCount, |s.cq.slots|)
    && ScanInv(s.consumer, s.ring.consumer, s.ring.log, s.ring.popped, s.ledger.ranges)
    && OwnerSeen(s.consumer, s.cq.log, s.creditCount, s.ledger.owner)
  }

  ghost predicate Inv(s: State) {
    QueuesInv(s) && BatchesInv(s) && ThreadsInv(s)
  }

  /** The invariant as a single fact: the comparison keeps the verifier from taking it apart
      where it is only passed on. */
  ghost predicate Good(s: State) {
    Inv(s) == true
  }

  /** The id space of a state. */
  function IdsOf(s: State): IdSpace
    requires s.published <= |s.ledger.ranges|
  {
    Ids(s.marker, s.ledger.ranges, s.published, LastId(s.producer, s.counter))
  }
}
