/**
 The block cache of the ext2 file system: sixteen silos of contiguous blocks, each in a chunk of
 memory from a small allocator, filled from the device and evicted when none is free.
 */
module BlockCaches {
  import opened Sets
  import opened Memory

  const BLOCK_SIZE := 512
  const SILO_SIZE_BYTES := 0x40_0000
  const MAX_SILOS := 16

  datatype Silo = NoSilo | Silo(start: nat, end: nat, pages: nat)
  datatype Entry = Entry(silo: Silo, age: nat)
  /** A chunk of memory: how often it is taken, and where it is (0 before it is first used). */
  datatype Chunk = Chunk(taken: nat, p: nat)

  /** The start of the block an offset lies in. */
  function BlockStart(offset: nat): nat {
    offset - offset % BLOCK_SIZE
  }

  predicate Holds(s: Silo, offset: nat, count: nat) {
    s.Silo? && s.start <= offset && offset + count <= s.end
  }

  /** A new silo for this offset holds the bytes asked for. */
  predicate FitsSilo(offset: nat, count: nat) {
    offset % BLOCK_SIZE + count <= SILO_SIZE_BYTES
  }

  /** The byte at `x` lies in the silo. */
  predicate Inside(s: Silo, x: nat) {
    s.Silo? && s.start <= x < s.end
  }

  /** A silo holds a range if and only if every byte of the range lies in it. */
  lemma HoldsExact(s: Silo, offset: nat, count: nat)
    requires s.Silo? && count > 0
    ensures Holds(s, offset, count) <==> forall x: nat :: offset <= x < offset + count ==> Inside(s, x)
  {
    assert Inside(s, offset) && Inside(s, offset + count - 1) <==> Holds(s, offset, count);
  }

  /** A new silo starts at the last multiple of 512 up to the offset, and holds the range exactly if the
      range fits. */
  lemma NewSiloExact(offset: nat, count: nat, pages: nat)
    ensures BlockStart(offset) % 512 == 0 && BlockStart(offset) <= offset < BlockStart(offset) + 512
    ensures FitsSilo(offset, count) <==> Holds(Silo(BlockStart(offset), BlockStart(offset) + 0x40_0000, pages), offset, count)
  {
  }

  lemma PartOf(disk: nat -> nat, start: nat, n: nat, offset: nat, count: nat)
    requires start <= offset && offset + count <= start + n
    ensures Bytes(disk, start, n)[offset - start..offset - start + count] == Bytes(disk, offset, count)
  {
  }

  // ------------------------------------------------------------------ ownership

  /** Which entry's silo lies in each chunk (16 for none), and in which chunk each entry's silo lies. */
  datatype Owners = Owners(ofChunk: seq<nat>, ofEntry: seq<nat>)

  /** The silo of entry `i`, if it has one, lies in a chunk that is its own. */
  ghost predicate EntryOwns(entries: seq<Entry>, chunks: seq<Chunk>, o: Owners, i: nat)
    requires |entries| == |chunks| == |o.ofChunk| == |o.ofEntry| == MAX_SILOS && i < MAX_SILOS
  {
    entries[i].silo.Silo? ==>
      && o.ofEntry[i] < MAX_SILOS && o.ofChunk[o.ofEntry[i]] == i && entries[i].silo.pages == chunks[o.ofEntry[i]].p
      && chunks[o.ofEntry[i]].taken == 1
  }

  /** Chunk `c`, if it is taken, is taken once and has the silo of an entry. */
  ghost predicate ChunkOwned(entries: seq<Entry>, chunks: seq<Chunk>, o: Owners, c: nat)
    requires |entries| == |chunks| == |o.ofChunk| == |o.ofEntry| == MAX_SILOS && c < MAX_SILOS
  {
    if chunks[c].taken == 0 then o.ofChunk[c] == MAX_SILOS
    else chunks[c].taken == 1 && chunks[c].p > 0 && o.ofChunk[c] < MAX_SILOS
         && entries[o.ofChunk[c]].silo.Silo? && o.ofEntry[o.ofChunk[c]] == c
  }

  /** Silos and taken chunks belong together one to one. */
  ghost predicate Matched(entries: seq<Entry>, chunks: seq<Chunk>, o: Owners) {
    && |entries| == |chunks| == |o.ofChunk| == |o.ofEntry| == MAX_SILOS
    && (forall i :: 0 <= i < MAX_SILOS ==> EntryOwns(entries, chunks, o, i))
    && (forall c :: 0 <= c < MAX_SILOS ==> ChunkOwned(entries, chunks, o, c))
  }

  /** The entries that own the first `k` chunks. */
  ghost function OwnersOf(own: seq<nat>, k: nat): set<nat>
    requires k <= |own|
  {
    if k == 0 then {} else OwnersOf(own, k - 1) + {own[k - 1]}
  }

  lemma {:induction false} OwnersMember(own: seq<nat>, k: nat, x: nat)
    requires k <= |own|
    ensures x in OwnersOf(own, k) <==> exists c :: 0 <= c < k && own[c] == x
  {
    if k > 0 {
      OwnersMember(own, k - 1, x);
    }
  }

  lemma {:induction false} OwnersCount(own: seq<nat>, k: nat)
    requires k <= |own| && forall c, d {:trigger own[c], own[d]} :: 0 <= c < d < k ==> own[c] != own[d]
    ensures |OwnersOf(own, k)| == k
  {
    if k > 0 {
      OwnersCount(own, k - 1);
      OwnersMember(own, k - 1, own[k - 1]);
    }
  }

  /** So many different owners, all below their number, leave nobody out. */
  lemma EveryoneOwns(own: seq<nat>, e: nat)
    requires forall c, d {:trigger own[c], own[d]} :: 0 <= c < d < |own| ==> own[c] != own[d]
    requires forall c {:trigger own[c]} :: 0 <= c < |own| ==> own[c] < |own|
    ensures e < |own| ==> e in own
  {
    OwnersCount(own, |own|);
    forall x ensures x in OwnersOf(own, |own|) <==> x in own {
      if x >= 0 {
        OwnersMember(own, |own|, x);
      }
    }
    if e < |own| && e !in own {
      SubsetCount(OwnersOf(own, |own|), Below(|own|) - {e});
    }
  }

  /** With an entry that has no silo there is a chunk that is not taken. */
  lemma SomeChunkFree(entries: seq<Entry>, chunks: seq<Chunk>, o: Owners, e: nat)
    requires Matched(entries, chunks, o) && e < MAX_SILOS && entries[e].silo == NoSilo
    ensures exists c {:trigger chunks[c]} :: 0 <= c < MAX_SILOS && chunks[c].taken == 0
  {
    if forall c {:trigger chunks[c]} :: 0 <= c < MAX_SILOS ==> chunks[c].taken != 0 {
      var own := o.ofChunk;
      forall c, d | 0 <= c < d < MAX_SILOS ensures own[c] != own[d] {
        assert ChunkOwned(entries, chunks, o, c) && ChunkOwned(entries, chunks, o, d);
        assert chunks[c].taken != 0 && chunks[d].taken != 0;
      }
      forall c | 0 <= c < MAX_SILOS ensures own[c] < MAX_SILOS && own[c] != e {
        assert ChunkOwned(entries, chunks, o, c);
        assert chunks[c].taken != 0;
      }
      EveryoneOwns(own, e);
    }
  }

  // ------------------------------------------------------------------ memory

  /** Chunks that have memory have different memory. */
  ghost predicate Apart(chunks: seq<Chunk>, nextPage: nat) {
    && nextPage > 0
    && (forall c {:trigger chunks[c]} :: 0 <= c < |chunks| ==> chunks[c].p < nextPage)
    && (forall c, d {:trigger chunks[c], chunks[d]} :: 0 <= c < d < |chunks| && chunks[c].p > 0 ==>
          chunks[c].p != chunks[d].p)
  }

  /** Every silo is a copy of its part of the disk. */
  ghost predicate Copies(entries: seq<Entry>, mem: map<nat, seq<nat>>, disk: nat -> nat) {
    forall i {:trigger entries[i]} :: 0 <= i < |entries| && entries[i].silo.Silo? ==>
      && entries[i].silo.end == entries[i].silo.start + SILO_SIZE_BYTES && entries[i].silo.pages in mem
      && mem[entries[i].silo.pages] == Bytes(disk, entries[i].silo.start, SILO_SIZE_BYTES)
  }

  /** An entry is in use exactly when it has an age. */
  ghost predicate Aged(entries: seq<Entry>) {
    forall i {:trigger entries[i]} :: 0 <= i < |entries| ==> (entries[i].silo.Silo? <==> entries[i].age != 0)
  }

  // ------------------------------------------------------------------ which silo goes

  /** `order[i]` is the number of the load that filled entry `i`, or 0 for a free entry; `loads` is the
      number of loads so far.  Later loads have greater ages, and no age is past the clock. */
  ghost predicate Loaded(entries: seq<Entry>, order: seq<nat>, loads: nat, clock: nat) {
    && |order| == |entries|
    && (forall i {:trigger entries[i]} :: 0 <= i < |entries| ==>
          entries[i].age <= clock && order[i] <= loads && (order[i] > 0 <==> entries[i].age > 0))
    && (forall i, j {:trigger order[i], order[j]} :: 0 <= i < |order| && 0 <= j < |order| && i != j && order[j] > 0 ==>
          order[i] != order[j] && (order[i] < order[j] ==> entries[i].age < entries[j].age))
  }

  /** Every other silo was loaded before that of entry `e`. */
  ghost predicate LoadedLast(order: seq<nat>, e: nat) {
    && e < |order| && order[e] > 0
    && forall i {:trigger order[i]} :: 0 <= i < |order| && i != e ==> order[i] < order[e]
  }

  /** The choice made: the first entry that is free, and if none is, the first with the greatest age. */
  ghost predicate Chosen(entries: seq<Entry>, e: nat) {
    && e < |entries|
    && forall i {:trigger entries[i]} :: 0 <= i < |entries| ==>
         if entries[e].age == 0 then i < e ==> entries[i].age > 0
         else 0 < entries[i].age <= entries[e].age && (i < e ==> entries[i].age < entries[e].age)
  }

  /** No silo is older. */
  ghost predicate Oldest(entries: seq<Entry>, e: nat) {
    e < |entries| && forall i {:trigger entries[i]} :: 0 <= i < |entries| ==> entries[e].age <= entries[i].age
  }

  /** When all entries are in use, the one chosen is one of the oldest if and only if all are equally
      old. */
  lemma OldestExact(entries: seq<Entry>, e: nat)
    requires Chosen(entries, e) && entries[e].age > 0
    ensures Oldest(entries, e) <==>
            forall i, j {:trigger entries[i], entries[j]} :: 0 <= i < j < |entries| ==> entries[i].age == entries[j].age
  {
    if i, j :| 0 <= i < j < |entries| && entries[i].age != entries[j].age {
      assert entries[i].age < entries[e].age || entries[j].age < entries[e].age;
    } else {
      forall i | 0 <= i < |entries| ensures entries[e].age <= entries[i].age {
        assert i > e ==> entries[e].age == entries[i].age;
      }
    }
  }

  /** When all entries are in use, the silo chosen is the one loaded last, and so never the oldest. */
  lemma LastLoadedChosen(entries: seq<Entry>, order: seq<nat>, loads: nat, clock: nat, e: nat)
    requires Loaded(entries, order, loads, clock) && Chosen(entries, e) && entries[e].age > 0
    ensures LoadedLast(order, e) && (|entries| > 1 ==> !Oldest(entries, e))
  {
    forall i | 0 <= i < |order| && i != e ensures order[i] < order[e] && entries[i].age < entries[e].age {
      assert entries[i].age <= entries[e].age;
      assert order[i] > 0 && order[e] > 0;
    }
    var other := if e == 0 then 1 else 0;
    assert |entries| > 1 ==> entries[other].age < entries[e].age;
  }

  /** Sixteen silos loaded one after the other. */
  function FullCache(): (entries: seq<Entry>)
    ensures |entries| == MAX_SILOS
  {
    seq(MAX_SILOS, i requires 0 <= i < MAX_SILOS =>
      Entry(Silo(i * SILO_SIZE_BYTES, (i + 1) * SILO_SIZE_BYTES, i + 1), i + 1))
  }

  /** There the last entry is taken, and the first is the oldest. */
  lemma NewestEvicted(e: nat)
    ensures Chosen(FullCache(), e) <==> e == MAX_SILOS - 1
    ensures Oldest(FullCache(), e) <==> e == 0
  {
    var entries := FullCache();
    assert entries[0].age == 1 && entries[15].age == 16;
    assert e < MAX_SILOS ==> entries[e].age == e + 1;
  }

  lemma Unload(entries: seq<Entry>, order: seq<nat>, loads: nat, clock: nat, e: nat)
    requires Loaded(entries, order, loads, clock) && e < |entries|
    ensures Loaded(entries[e := Entry(NoSilo, 0)], order[e := 0], loads, clock)
  {
    var entries', order' := entries[e := Entry(NoSilo, 0)], order[e := 0];
    forall i, j | 0 <= i < |order| && 0 <= j < |order| && i != j && order'[j] > 0
      ensures order'[i] != order'[j] && (order'[i] < order'[j] ==> entries'[i].age < entries'[j].age)
    {
      assert order'[j] == order[j] && entries'[j] == entries[j];
      assert i != e ==> order'[i] == order[i] && entries'[i] == entries[i];
    }
  }

  lemma Reload(entries: seq<Entry>, order: seq<nat>, loads: nat, clock: nat, e: nat, silo: Silo, now: nat)
    requires Loaded(entries, order, loads, clock) && e < |entries| && entries[e].age == 0 && now > clock
    ensures Loaded(entries[e := Entry(silo, now)], order[e := loads + 1], loads + 1, now)
  {
    var entries', order' := entries[e := Entry(silo, now)], order[e := loads + 1];
    forall i, j | 0 <= i < |order| && 0 <= j < |order| && i != j && order'[j] > 0
      ensures order'[i] != order'[j] && (order'[i] < order'[j] ==> entries'[i].age < entries'[j].age)
    {
      assert i != e ==> order'[i] == order[i] <= loads && entries'[i] == entries[i];
      assert j != e ==> order'[j] == order[j] <= loads && entries'[j] == entries[j];
    }
  }

  lemma FreeEntry(entries: seq<Entry>, e: nat)
    requires Aged(entries) && e < |entries| && entries[e].age == 0
    ensures entries[e] == Entry(NoSilo, 0) && entries == entries[e := Entry(NoSilo, 0)]
  {
  }

  /** The silo of entry `e` is removed and its chunk given back. */
  lemma Unmatch(entries: seq<Entry>, chunks: seq<Chunk>, o: Owners, e: nat)
    requires Matched(entries, chunks, o) && e < MAX_SILOS && entries[e].silo.Silo?
    ensures var c := o.ofEntry[e];
            && c < MAX_SILOS && chunks[c].p == entries[e].silo.pages > 0 && chunks[c].taken == 1
            && Matched(entries[e := Entry(NoSilo, 0)], chunks[c := Chunk(0, chunks[c].p)],
                       o.(ofChunk := o.ofChunk[c := MAX_SILOS]))
  {
    assert EntryOwns(entries, chunks, o, e);
    var c := o.ofEntry[e];
    assert ChunkOwned(entries, chunks, o, c);
    var entries', chunks' := entries[e := Entry(NoSilo, 0)], chunks[c := Chunk(0, chunks[c].p)];
    var o' := o.(ofChunk := o.ofChunk[c := MAX_SILOS]);
    forall i | 0 <= i < MAX_SILOS ensures EntryOwns(entries', chunks', o', i) {
      assert EntryOwns(entries, chunks, o, i);
    }
    forall d | 0 <= d < MAX_SILOS ensures ChunkOwned(entries', chunks', o', d) {
      assert ChunkOwned(entries, chunks, o, d);
    }
  }

  /** A new silo in entry `e` takes chunk `c`. */
  lemma Rematch(entries: seq<Entry>, chunks: seq<Chunk>, o: Owners, e: nat, c: nat, silo: Silo, age: nat)
    requires Matched(entries, chunks, o) && e < MAX_SILOS && c < MAX_SILOS
    requires entries[e].silo == NoSilo && chunks[c].taken == 0 && silo.Silo? && silo.pages > 0
    ensures Matched(entries[e := Entry(silo, age)], chunks[c := Chunk(1, silo.pages)],
                    Owners(o.ofChunk[c := e], o.ofEntry[e := c]))
  {
    assert ChunkOwned(entries, chunks, o, c);
    var entries', chunks' := entries[e := Entry(silo, age)], chunks[c := Chunk(1, silo.pages)];
    var o' := Owners(o.ofChunk[c := e], o.ofEntry[e := c]);
    forall i | 0 <= i < MAX_SILOS ensures EntryOwns(entries', chunks', o', i) {
      assert EntryOwns(entries, chunks, o, i);
    }
    forall d | 0 <= d < MAX_SILOS ensures ChunkOwned(entries', chunks', o', d) {
      assert ChunkOwned(entries, chunks, o, d);
    }
  }

  /** Filling one chunk's memory leaves the other silos' copies alone. */
  lemma CopiesAfterLoad(entries: seq<Entry>, chunks: seq<Chunk>, o: Owners, nextPage: nat, mem: map<nat, seq<nat>>,
                        disk: nat -> nat, e: nat, c: nat, p: nat, start: nat, age: nat)
    requires Matched(entries, chunks, o) && Copies(entries, mem, disk) && e < MAX_SILOS && c < MAX_SILOS
    requires entries[e].silo == NoSilo && chunks[c].taken == 0 && p > 0
    requires Apart(chunks[c := Chunk(1, p)], nextPage)
    ensures Copies(entries[e := Entry(Silo(start, start + SILO_SIZE_BYTES, p), age)],
                   mem[p := Bytes(disk, start, SILO_SIZE_BYTES)], disk)
  {
    var chunks' := chunks[c := Chunk(1, p)];
    forall i | 0 <= i < MAX_SILOS && entries[i].silo.Silo? ensures entries[i].silo.pages != p {
      assert EntryOwns(entries, chunks, o, i);
      var d := o.ofEntry[i];
      assert chunks'[d] == chunks[d] && chunks'[c].p == p;
    }
  }

  /** A new silo in entry `e`, in chunk `c`, loaded now. */
  lemma AfterLoad(entries: seq<Entry>, chunks: seq<Chunk>, o: Owners, nextPage: nat, mem: map<nat, seq<nat>>,
                  disk: nat -> nat, order: seq<nat>, loads: nat, clock: nat,
                  e: nat, c: nat, p: nat, start: nat, now: nat)
    requires Matched(entries, chunks, o) && Copies(entries, mem, disk) && Aged(entries)
    requires Loaded(entries, order, loads, clock) && e < MAX_SILOS && c < MAX_SILOS
    requires entries[e] == Entry(NoSilo, 0) && chunks[c].taken == 0 && p > 0 && now > clock
    requires Apart(chunks[c := Chunk(1, p)], nextPage)
    ensures var entries' := entries[e := Entry(Silo(start, start + SILO_SIZE_BYTES, p), now)];
            && Matched(entries', chunks[c := Chunk(1, p)], Owners(o.ofChunk[c := e], o.ofEntry[e := c])) == true
            && Copies(entries', mem[p := Bytes(disk, start, SILO_SIZE_BYTES)], disk) == true
            && Aged(entries') == true && Loaded(entries', order[e := loads + 1], loads + 1, now) == true
  {
    var silo := Silo(start, start + SILO_SIZE_BYTES, p);
    Reload(entries, order, loads, clock, e, silo, now);
    Rematch(entries, chunks, o, e, c, silo, now);
    CopiesAfterLoad(entries, chunks, o, nextPage, mem, disk, e, c, p, start, now);
  }

  // ------------------------------------------------------------------ the cache

  class BlockCache {
    const disk: nat -> nat
    const entries: array<Entry>
    const chunks: array<Chunk>
    var mem: map<nat, seq<nat>>
    var nextPage: nat
    var clock: nat
    ghost var owners: Owners
    ghost var order: seq<nat>
    ghost var loads: nat

    ghost predicate Valid()
      reads this, entries, chunks
    {
      && entries.Length == chunks.Length == MAX_SILOS
      && Matched(entries[..], chunks[..], owners) == true && Apart(chunks[..], nextPage) == true
      && Copies(entries[..], mem, disk) == true && Aged(entries[..]) == true
      && Loaded(entries[..], order, loads, clock) == true
    }

    constructor (disk: nat -> nat)
      ensures Valid() && this.disk == disk && fresh(entries) && fresh(chunks)
    {
      this.disk := disk;
      entries := new Entry[MAX_SILOS](_ => Entry(NoSilo, 0));
      chunks := new Chunk[MAX_SILOS](_ => Chunk(0, 0));
      mem, nextPage, clock, loads := map[], 1, 0, 0;
      order := seq(MAX_SILOS, _ => 0);
      owners := Owners(seq(MAX_SILOS, _ => MAX_SILOS), seq(MAX_SILOS, _ => 0));
    }

    /** Take the first chunk that is not taken, with memory of its own the first time. */
    method Alloc(ghost k: nat) returns (p: nat, ghost c: nat)
      requires chunks.Length == MAX_SILOS && Apart(chunks[..], nextPage)
      requires k < MAX_SILOS && chunks[..][k].taken == 0
      modifies chunks, this`nextPage
      ensures c < MAX_SILOS && old(chunks[..])[c].taken == 0 && p > 0
      ensures chunks[..] == old(chunks[..])[c := Chunk(1, p)] && Apart(chunks[..], nextPage)
    {
      p, c := 0, 0;
      var i := 0;
      while i < MAX_SILOS
        invariant 0 <= i <= k && chunks[..] == old(chunks[..]) && nextPage == old(nextPage)
      {
        if chunks[i].taken == 0 {
          c, p := i, chunks[i].p;
          if p == 0 {
            p := nextPage;
            nextPage := nextPage + 1;
          }
          chunks[i] := Chunk(1, p);
          return;
        }
        i := i + 1;
      }
    }

    /** Give back the chunk at this place in memory. */
    method Free(p: nat, ghost c: nat)
      requires chunks.Length == MAX_SILOS && Apart(chunks[..], nextPage)
      requires c < MAX_SILOS && p > 0 && chunks[..][c] == Chunk(1, p)
      modifies chunks
      ensures chunks[..] == old(chunks[..])[c := Chunk(0, p)]
    {
      var i := 0;
      while i < MAX_SILOS
        invariant 0 <= i <= c && chunks[..] == old(chunks[..])
      {
        if chunks[i].p == p {
          assert i == c by {
            assert chunks[..][i].p == chunks[..][c].p;
          }
          chunks[i] := chunks[i].(taken := chunks[i].taken - 1);
          return;
        }
        i := i + 1;
      }
    }

    /** Remove the silo of an entry in use. */
    method Evict(e: nat)
      requires Valid() && e < MAX_SILOS && entries[..][e].age > 0
      modifies entries, chunks, this`owners, this`order
      ensures Valid() && entries[..] == old(entries[..])[e := Entry(NoSilo, 0)] && order == old(order)[e := 0]
    {
      Unload(entries[..], order, loads, clock, e);
      Unmatch(entries[..], chunks[..], owners, e);
      ghost var c := owners.ofEntry[e];
      Free(entries[e].silo.pages, c);
      entries[e] := Entry(NoSilo, 0);
      owners := owners.(ofChunk := owners.ofChunk[c := MAX_SILOS]);
      order := order[e := 0];
    }

    /** The first entry that is free, and if none is, the first with the greatest age. */
    method ChooseSilo() returns (e: nat)
      requires entries.Length == MAX_SILOS
      ensures Chosen(entries[..], e)
    {
      e := 0;
      var i := 0;
      while i < MAX_SILOS
        invariant 0 <= i <= MAX_SILOS && e < MAX_SILOS && (e < i || i == e == 0)
        invariant forall k {:trigger entries[k]} :: 0 <= k < i ==>
                    0 < entries[k].age <= entries[e].age && (k < e ==> entries[k].age < entries[e].age)
      {
        if entries[i].age > entries[e].age {
          e := i;
        }
        if entries[i].age == 0 {
          e := i;
          return;
        }
        i := i + 1;
      }
    }

    /** The entry to use next: the first that is free, and if none is, the one loaded last, which is
        evicted. */
    method FindBestSilo() returns (e: nat)
      requires Valid()
      modifies entries, chunks, this`owners, this`order
      ensures Valid() && e < MAX_SILOS && entries[..] == old(entries[..])[e := Entry(NoSilo, 0)]
      ensures Chosen(old(entries[..]), e) && (old(entries[..])[e].age > 0 ==> LoadedLast(old(order), e))
      ensures order == old(order)[e := 0]
    {
      e := ChooseSilo();
      if entries[e].age > 0 {
        LastLoadedChosen(entries[..], order, loads, clock, e);
        Evict(e);
      } else {
        FreeEntry(entries[..], e);
      }
    }

    /** Memory for the silo of a free entry. */
    method AllocFor(ghost e: nat) returns (p: nat, ghost c: nat)
      requires entries.Length == chunks.Length == MAX_SILOS && Apart(chunks[..], nextPage)
      requires Matched(entries[..], chunks[..], owners) && e < MAX_SILOS && entries[..][e].silo == NoSilo
      modifies chunks, this`nextPage
      ensures c < MAX_SILOS && old(chunks[..])[c].taken == 0 && p > 0
      ensures chunks[..] == old(chunks[..])[c := Chunk(1, p)] && Apart(chunks[..], nextPage)
    {
      SomeChunkFree(entries[..], chunks[..], owners, e);
      ghost var k :| 0 <= k < MAX_SILOS && chunks[..][k].taken == 0;
      p, c := Alloc(k);
    }

    /** Fill a free entry with a silo that starts at the block of this offset. */
    method Load(e: nat, offset: nat)
      requires Valid() && e < MAX_SILOS && entries[..][e] == Entry(NoSilo, 0)
      modifies entries, chunks, this
      ensures Valid() && entries[e].silo.Silo? && entries[e].silo.start == BlockStart(offset)
      ensures entries[e].silo.end == BlockStart(offset) + SILO_SIZE_BYTES
      ensures entries[..] == old(entries[..])[e := entries[e]]
      ensures order == old(order)[e := loads] && loads == old(loads) + 1
    {
      var start := BlockStart(offset);
      ghost var was := chunks[..];
      var p, c := AllocFor(e);
      var now: nat :| now > clock;
      AfterLoad(entries[..], was, owners, nextPage, mem, disk, order, loads, clock, e, c, p, start, now);
      entries[e] := Entry(Silo(start, start + SILO_SIZE_BYTES, p), now);
      assert entries[..] == old(entries[..])[e := Entry(Silo(start, start + SILO_SIZE_BYTES, p), now)];
      mem, clock := mem[p := Bytes(disk, start, SILO_SIZE_BYTES)], now;
      owners := Owners(owners.ofChunk[c := e], owners.ofEntry[e := c]);
      order, loads := order[e := loads + 1], loads + 1;
    }

    /** Read from the silo of an entry, if it holds the bytes. */
    method SiloRead(e: nat, offset: nat, count: nat) returns (ok: bool, data: seq<nat>)
      requires Valid() && e < MAX_SILOS && entries[e].silo.Silo?
      ensures ok == Holds(entries[e].silo, offset, count)
      ensures ok ==> data == Bytes(disk, offset, count)
    {
      var silo := entries[e].silo;
      assert entries[..][e].silo == silo;
      if !(offset >= silo.start && offset + count <= silo.end) {
        return false, [];
      }
      PartOf(disk, silo.start, SILO_SIZE_BYTES, offset, count);
      return true, mem[silo.pages][offset - silo.start..offset - silo.start + count];
    }

    /** Some silo holds the bytes. */
    ghost predicate Cached(offset: nat, count: nat)
      reads entries
    {
      exists i {:trigger entries[i]} :: 0 <= i < entries.Length && Holds(entries[i].silo, offset, count)
    }

    /** Read from a silo that holds the bytes, if there is one. */
    method ReadCached(offset: nat, count: nat) returns (ok: bool, data: seq<nat>)
      requires Valid()
      ensures ok <==> Cached(offset, count)
      ensures ok ==> data == Bytes(disk, offset, count)
    {
      var i := 0;
      while i < MAX_SILOS
        invariant 0 <= i <= MAX_SILOS
        invariant forall k {:trigger entries[k]} :: 0 <= k < i ==> !Holds(entries[k].silo, offset, count)
      {
        if entries[i].silo.Silo? {
          ok, data := SiloRead(i, offset, count);
          if ok {
            return;
          }
        }
        i := i + 1;
      }
      return false, [];
    }

    /** Read from a new silo. */
    method ReadNew(offset: nat, count: nat) returns (ok: bool, data: seq<nat>)
      requires Valid()
      modifies entries, chunks, this
      ensures Valid() && ok == FitsSilo(offset, count)
      ensures ok ==> data == Bytes(disk, offset, count)
    {
      var e := FindBestSilo();
      Load(e, offset);
      ok, data := SiloRead(e, offset, count);
    }

    /** Read from a silo that holds the bytes, or from a new one. */
    method DoSiloRead(offset: nat, count: nat) returns (ok: bool, data: seq<nat>)
      requires Valid()
      modifies entries, chunks, this
      ensures Valid() && ok == (FitsSilo(offset, count) || old(Cached(offset, count)))
      ensures ok ==> data == Bytes(disk, offset, count)
    {
      ok, data := ReadCached(offset, count);
      if !ok {
        ok, data := ReadNew(offset, count);
      }
    }

    /** Reads larger than a silo go to the device. */
    method Read(offset: nat, count: nat) returns (ok: bool, data: seq<nat>)
      requires Valid()
      modifies entries, chunks, this
      ensures Valid() && ok == (FitsSilo(offset, count) || old(Cached(offset, count)) || count > SILO_SIZE_BYTES)
      ensures ok ==> data == Bytes(disk, offset, count)
    {
      if count > SILO_SIZE_BYTES {
        return true, Bytes(disk, offset, count);
      }
      ok, data := DoSiloRead(offset, count);
    }
  }
}
