/**
 The lock-free single-producer/single-consumer ring of the NVMe batch manager.

 The first half is a step system: every load, array access and store of `push` and `pop`
 is an action of its own, and a run is any sequence of enabled actions.  The second half
 is the ring as an object whose methods perform those actions in order.
 */
module RingBuffers {
  import opened Circular

  /** How far the producer is inside `push`; `at` is the tail it loaded. */
  datatype Producer<T> =
    | NotPushing
    | TailLoaded(item: T, at: nat)
    | HeadChecked(item: T, at: nat)
    | ItemStored(item: T, at: nat)

  /** How far the consumer is inside `pop`; `at` is the head it loaded. */
  datatype Consumer<T> =
    | NotPopping
    | HeadLoaded(at: nat)
    | TailChecked(at: nat)
    | ItemCopied(at: nat, item: T)

  /** The shared memory, the two threads, and three history variables: everything ever
      pushed (in its current version), how much of it was popped, and what `pop` returned. */
  datatype Ring<T> = Ring(
    slots: seq<T>, head: nat, tail: nat,
    producer: Producer<T>, consumer: Consumer<T>,
    log: seq<T>, popped: nat, output: seq<T>)

  datatype Action<T> =
    | PushLoadTail(item: T)
    | PushLoadHead
    | PushStoreItem
    | PushStoreTail
    | PopLoadHead
    | PopLoadTail
    | PopCopyItem
    | PopStoreHead
    | Amend(at: nat, version: T)

  /** What a caller sees of an action. */
  datatype Event<T> =
    | Pushed(item: T)
    | PushRefused
    | Popped(item: T)
    | PopRefused
    | Amended(at: nat, item: T)
    | Silent

  function Empty<T>(slots: seq<T>): Ring<T> {
    Ring(slots, 0, 0, NotPushing, NotPopping, [], 0, [])
  }

  /** The consumer may rewrite an entry in place while it is not popping. */
  predicate Enabled<T>(r: Ring<T>, a: Action<T>) {
    match a
    case PushLoadTail(_) => r.producer.NotPushing?
    case PushLoadHead => r.producer.TailLoaded? && r.producer.at < |r.slots|
    case PushStoreItem => r.producer.HeadChecked? && r.producer.at < |r.slots|
    case PushStoreTail => r.producer.ItemStored? && r.producer.at < |r.slots|
    case PopLoadHead => r.consumer.NotPopping?
    case PopLoadTail => r.consumer.HeadLoaded?
    case PopCopyItem => r.consumer.TailChecked? && r.consumer.at < |r.slots|
    case PopStoreHead => r.consumer.ItemCopied? && r.consumer.at < |r.slots|
    case Amend(k, _) => r.consumer.NotPopping? && r.popped <= k < |r.log| && 0 < |r.slots|
  }

  function Apply<T>(r: Ring<T>, a: Action<T>): Ring<T>
    requires Enabled(r, a)
  {
    match a
    case PushLoadTail(item) => r.(producer := TailLoaded(item, r.tail))
    case PushLoadHead =>
      var p := r.producer;
      r.(producer := if Next(p.at, |r.slots|) != r.head
                     then HeadChecked(p.item, p.at) else NotPushing)
    case PushStoreItem =>
      var p := r.producer;
      r.(slots := r.slots[p.at := p.item], producer := ItemStored(p.item, p.at))
    case PushStoreTail =>
      var p := r.producer;
      r.(tail := Next(p.at, |r.slots|), producer := NotPushing, log := r.log + [p.item])
    case PopLoadHead => r.(consumer := HeadLoaded(r.head))
    case PopLoadTail =>
      r.(consumer := if r.consumer.at == r.tail then NotPopping else TailChecked(r.consumer.at))
    case PopCopyItem =>
      r.(consumer := ItemCopied(r.consumer.at, r.slots[r.consumer.at]))
    case PopStoreHead =>
      r.(head := Next(r.consumer.at, |r.slots|), consumer := NotPopping,
         popped := r.popped + 1, output := r.output + [r.consumer.item])
    case Amend(k, x) =>
      r.(slots := r.slots[Slot(k, |r.slots|) := x], log := r.log[k := x])
  }

  function Observed<T>(r: Ring<T>, a: Action<T>): Event<T>
    requires Enabled(r, a)
  {
    match a
    case PushLoadHead => if Apply(r, a).producer.NotPushing? then PushRefused else Silent
    case PushStoreTail => Pushed(r.producer.item)
    case PopLoadTail => if Apply(r, a).consumer.NotPopping? then PopRefused else Silent
    case PopStoreHead => Popped(r.consumer.item)
    case Amend(k, x) => Amended(k - r.popped, x)
    case _ => Silent
  }

  // ------------------------------------------------------------------ the bounded queue

  /** A first-in first-out queue of bounded capacity: the specification of the ring. */
  ghost predicate QueueStep<T>(capacity: int, q: seq<T>, e: Event<T>, q': seq<T>) {
    match e
    case Pushed(x) => |q| < capacity && q' == q + [x]
    case PushRefused => |q| == capacity && q' == q
    case Popped(x) => |q| > 0 && x == q[0] && q' == q[1..]
    case PopRefused => q == [] && q' == q
    case Amended(k, x) => k < |q| && q' == q[k := x]
    case Silent => q' == q
  }

  /** The queue that a ring represents. */
  function Contents<T>(r: Ring<T>): seq<T>
    requires r.popped <= |r.log|
  {
    r.log[r.popped..]
  }

  ghost predicate Inv<T>(r: Ring<T>) {
    var n := |r.slots|;
    && n > 0
    && r.popped <= |r.log| < r.popped + n
    && r.head == Slot(r.popped, n)
    && r.tail == Slot(|r.log|, n)
    && Window(r.slots, r.log, r.popped)
    && r.output == r.log[..r.popped]
    && ProducerInv(r)
    && ConsumerInv(r)
  }

  ghost predicate ProducerInv<T>(r: Ring<T>)
    requires |r.slots| > 0
  {
    match r.producer
    case NotPushing => true
    case TailLoaded(_, at) => at == r.tail
    case HeadChecked(_, at) => at == r.tail && |r.log| + 1 < r.popped + |r.slots|
    case ItemStored(x, at) =>
      && at == r.tail && |r.log| + 1 < r.popped + |r.slots|
      && r.slots[Slot(|r.log|, |r.slots|)] == x
  }

  ghost predicate ConsumerInv<T>(r: Ring<T>)
    requires |r.slots| > 0
  {
    match r.consumer
    case NotPopping => true
    case HeadLoaded(at) => at == r.head
    case TailChecked(at) => at == r.head && r.popped < |r.log|
    case ItemCopied(at, x) => at == r.head && r.popped < |r.log| && x == r.log[r.popped]
  }

  /** A full ring is one whose next tail is the head; an empty one has head equal to tail. */
  lemma IndicesDecide<T>(r: Ring<T>)
    requires Inv(r)
    ensures Next(r.tail, |r.slots|) == r.head <==> |Contents(r)| == |r.slots| - 1
    ensures r.head == r.tail <==> Contents(r) == []
  {
    var n := |r.slots|;
    SlotNext(|r.log|, n);
    if |r.log| + 1 < r.popped + n {
      SlotDistinct(r.popped, |r.log| + 1, n);
    } else {
      SlotLap(r.popped, n);
    }
    if r.popped < |r.log| {
      SlotDistinct(r.popped, |r.log|, n);
    }
  }

  lemma SlotLap(i: nat, n: nat)
    requires n > 0
    ensures Slot(i + n, n) == Slot(i, n)
  {
  }

  lemma StoreItemPreserves<T>(r: Ring<T>)
    requires Inv(r) && Enabled(r, PushStoreItem)
    ensures Inv(Apply(r, PushStoreItem)) && Contents(Apply(r, PushStoreItem)) == Contents(r)
  {
    WindowExtends(r.slots, r.log, r.popped, r.producer.item);
    var r' := Apply(r, PushStoreItem);
    forall i | r.popped <= i < |r.log| ensures r'.slots[Slot(i, |r.slots|)] == r.log[i] {
      assert (r.log + [r.producer.item])[i] == r.log[i];
    }
  }

  lemma PushPreserves<T>(r: Ring<T>, a: Action<T>)
    requires Inv(r) && Enabled(r, a)
    requires a.PushLoadTail? || a.PushLoadHead? || a.PushStoreItem? || a.PushStoreTail?
    ensures Inv(Apply(r, a))
    ensures QueueStep(|r.slots| - 1, Contents(r), Observed(r, a), Contents(Apply(r, a)))
  {
    if a.PushStoreItem? {
      StoreItemPreserves(r);
    } else {
      IndicesDecide(r);
      SlotNext(|r.log|, |r.slots|);
    }
  }

  lemma PopPreserves<T>(r: Ring<T>, a: Action<T>)
    requires Inv(r) && Enabled(r, a)
    requires a.PopLoadHead? || a.PopLoadTail? || a.PopCopyItem? || a.PopStoreHead?
    ensures Inv(Apply(r, a))
    ensures QueueStep(|r.slots| - 1, Contents(r), Observed(r, a), Contents(Apply(r, a)))
  {
    IndicesDecide(r);
    SlotNext(r.popped, |r.slots|);
  }

  lemma AmendPreserves<T>(r: Ring<T>, a: Action<T>)
    requires Inv(r) && Enabled(r, a) && a.Amend?
    ensures Inv(Apply(r, a))
    ensures QueueStep(|r.slots| - 1, Contents(r), Observed(r, a), Contents(Apply(r, a)))
  {
    var n := |r.slots|;
    WindowAmends(r.slots, r.log, r.popped, a.at, a.version);
    SlotDistinct(a.at, |r.log|, n);
  }

  /** Every action of either thread is a step of the bounded queue, or no step at all. */
  lemma ActionRefines<T>(r: Ring<T>, a: Action<T>)
    requires Inv(r) && Enabled(r, a)
    ensures Inv(Apply(r, a)) && |Apply(r, a).slots| == |r.slots|
    ensures QueueStep(|r.slots| - 1, Contents(r), Observed(r, a), Contents(Apply(r, a)))
  {
    match a
    case PushLoadTail(_) => PushPreserves(r, a);
    case PushLoadHead => PushPreserves(r, a);
    case PushStoreItem => PushPreserves(r, a);
    case PushStoreTail => PushPreserves(r, a);
    case Amend(_, _) => AmendPreserves(r, a);
    case _ => PopPreserves(r, a);
  }

  // ------------------------------------------------------------------ runs

  /** A schedule is any interleaving of the two threads' actions. */
  ghost predicate Schedule<T>(r: Ring<T>, actions: seq<Action<T>>)
    decreases |actions|
  {
    actions == [] || (Enabled(r, actions[0]) && Schedule(Apply(r, actions[0]), actions[1..]))
  }

  function Final<T>(r: Ring<T>, actions: seq<Action<T>>): Ring<T>
    requires Schedule(r, actions)
    decreases |actions|
  {
    if actions == [] then r else Final(Apply(r, actions[0]), actions[1..])
  }

  function Trace<T>(r: Ring<T>, actions: seq<Action<T>>): seq<Event<T>>
    requires Schedule(r, actions)
    decreases |actions|
  {
    if actions == [] then [] else [Observed(r, actions[0])] + Trace(Apply(r, actions[0]), actions[1..])
  }

  /** The queue can perform this sequence of events and end in `q'`. */
  ghost predicate QueueTrace<T(!new)>(capacity: int, q: seq<T>, events: seq<Event<T>>, q': seq<T>)
    decreases |events|
  {
    if events == [] then q == q'
    else exists mid :: QueueStep(capacity, q, events[0], mid) && QueueTrace(capacity, mid, events[1..], q')
  }

  /** Every interleaving of `push` and `pop` looks from outside like a bounded queue of one
      entry less than the ring, and whatever `pop` returned is a prefix of what was pushed. */
  lemma {:induction false} EveryRunIsAQueue<T(!new)>(r: Ring<T>, actions: seq<Action<T>>)
    requires Inv(r) && Schedule(r, actions)
    ensures Inv(Final(r, actions))
    ensures QueueTrace(|r.slots| - 1, Contents(r), Trace(r, actions), Contents(Final(r, actions)))
    ensures Final(r, actions).output == Final(r, actions).log[..Final(r, actions).popped]
    decreases |actions|
  {
    if actions != [] {
      var next := Apply(r, actions[0]);
      ActionRefines(r, actions[0]);
      EveryRunIsAQueue(next, actions[1..]);
      var events := Trace(r, actions);
      assert events[1..] == Trace(next, actions[1..]);
      assert QueueStep(|r.slots| - 1, Contents(r), events[0], Contents(next));
    }
  }

  /** The entries the consumer may rewrite lie in other slots than the one the producer writes. */
  lemma AmendsElsewhere<T(!new)>(r: Ring<T>)
    requires Inv(r) && r.producer.HeadChecked?
    ensures forall k, x {:trigger Amend(k, x)} :: Enabled(r, Amend(k, x)) ==> r.producer.at != Slot(k, |r.slots|)
  {
    forall k: nat, x: T | Enabled(r, Amend(k, x)) ensures r.producer.at != Slot(k, |r.slots|) {
      SlotDistinct(k, |r.log|, |r.slots|);
    }
  }

  /** The two threads never access the same slot at the same time: neither the slot the consumer copies
      nor one whose entry it rewrites is the one the producer writes. */
  lemma SlotsNeverShared<T(!new)>(r: Ring<T>, actions: seq<Action<T>>)
    requires Inv(r) && Schedule(r, actions)
    ensures var f := Final(r, actions);
            f.producer.HeadChecked? ==>
              && (f.consumer.TailChecked? ==> f.producer.at != f.consumer.at)
              && (forall k, x {:trigger Amend(k, x)} :: Enabled(f, Amend(k, x)) ==> f.producer.at != Slot(k, |f.slots|))
  {
    EveryRunIsAQueue(r, actions);
    IndicesDecide(Final(r, actions));
    if Final(r, actions).producer.HeadChecked? {
      AmendsElsewhere(Final(r, actions));
    }
  }

  lemma EmptyInv<T>(slots: seq<T>)
    requires |slots| > 0
    ensures Inv(Empty(slots)) && Contents(Empty(slots)) == []
  {
  }

  // ------------------------------------------------------------------ the object

  /** The ring as an object: `model` is the step system's view of it between calls. */
  class RingBuffer<T> {
    const data: array<T>
    var head: nat
    var tail: nat
    ghost var model: Ring<T>
    ghost var entries: seq<T>

    ghost predicate Valid()
      reads this, data
    {
      && Inv(model) == true && entries == Contents(model)
      && model.producer.NotPushing? && model.consumer.NotPopping?
      && data.Length == |model.slots|
      && (forall i :: 0 <= i < data.Length ==> data[i] == model.slots[i])
      && head == model.head && tail == model.tail
    }

    constructor (size: nat, fill: T)
      requires size > 0
      ensures Valid() && fresh(data) && data.Length == size && entries == []
    {
      data := new T[size](_ => fill);
      head, tail := 0, 0;
      new;
      model, entries := Empty(data[..]), [];
    }

    method Increment(idx: nat) returns (newIdx: nat)
      requires idx < data.Length
      ensures newIdx == Next(idx, data.Length)
    {
      newIdx := idx + 1;
      if newIdx == data.Length {
        newIdx := 0;
      }
    }

    method Push(item: T) returns (ok: bool)
      requires Valid()
      modifies this, data
      ensures Valid()
      ensures ok == (|old(entries)| < data.Length - 1)
      ensures entries == if ok then old(entries) + [item] else old(entries)
      ensures head == old(head) && (!ok ==> tail == old(tail) && data[..] == old(data[..]))
    {
      IndicesDecide(model);
      var currentTail := tail;
      Step(PushLoadTail(item));
      var nextTail := Increment(currentTail);
      Step(PushLoadHead);
      if nextTail != head {
        data[currentTail] := item;
        Step(PushStoreItem);
        tail := nextTail;
        Step(PushStoreTail);
        return true;
      }
      return false;
    }

    method Pop() returns (ok: bool, item: T)
      requires Valid()
      modifies this
      ensures Valid() && old(head) < data.Length
      ensures ok == (old(entries) != [])
      ensures ok ==> item == old(entries)[0] && entries == old(entries)[1..]
      ensures !ok ==> entries == old(entries)
      ensures head == if ok then Next(old(head), data.Length) else old(head)
      ensures tail == old(tail)
    {
      IndicesDecide(model);
      var currentHead := head;
      item := data[currentHead];
      Step(PopLoadHead);
      Step(PopLoadTail);
      if currentHead == tail {
        return false, item;
      }
      Step(PopCopyItem);
      head := Increment(currentHead);
      Step(PopStoreHead);
      return true, item;
    }

    method WasEmpty() returns (empty: bool)
      requires Valid()
      ensures empty <==> entries == []
    {
      IndicesDecide(model);
      empty := head == tail;
    }

    method WasFull() returns (full: bool)
      requires Valid()
      ensures full <==> |entries| == data.Length - 1
    {
      IndicesDecide(model);
      var nextTail := Increment(tail);
      full := nextTail == head;
    }

    method GetLastEntry() returns (idx: nat)
      requires Valid() && entries != []
      ensures idx == Slot(head + |entries| - 1, data.Length) && data[idx] == entries[|entries| - 1]
    {
      idx := if tail == 0 then data.Length - 1 else tail - 1;
      SlotNext(|model.log| - 1, data.Length);
      SlotShift(model.popped, |entries| - 1, data.Length);
    }

    /** The consumer rewrites an entry in place, as the batch manager does. */
    method Rewrite(idx: nat, item: T, ghost k: nat)
      requires Valid() && k < |entries| && idx == Slot(head + k, data.Length)
      modifies this`model, this`entries, data
      ensures Valid() && entries == old(entries)[k := item]
    {
      SlotShift(model.popped, k, data.Length);
      data[idx] := item;
      Step(Amend(model.popped + k, item));
    }

    /** Entry `k` is found `k` slots after the head. */
    lemma EntryAt(k: nat)
      requires Valid() && k < |entries|
      ensures data[Slot(head + k, data.Length)] == entries[k]
    {
      SlotShift(model.popped, k, data.Length);
    }

    lemma HeadEntry()
      requires Valid() && entries != []
      ensures head < data.Length && data[head] == entries[0]
    {
    }

    /** Walking from the head to the tail, one lap further on if it is behind, visits every entry. */
    lemma Extent()
      requires Valid()
      ensures head < data.Length && |entries| < data.Length
      ensures head + |entries| == if head > tail then tail + data.Length else tail
    {
      SlotShift(model.popped, |entries|, data.Length);
    }

    /** Replay one action of the step system on the ghost model. */
    ghost method Step(a: Action<T>)
      requires Inv(model) && Enabled(model, a)
      modifies this`model, this`entries
      ensures model == Apply(old(model), a) && Inv(model) && |model.slots| == |old(model.slots)|
      ensures entries == Contents(model)
      ensures QueueStep(|model.slots| - 1, Contents(old(model)), Observed(old(model), a), Contents(model))
    {
      ActionRefines(model, a);
      model := Apply(model, a);
      entries := Contents(model);
    }
  }
}
