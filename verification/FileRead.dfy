/**
 Reading an ext2 file: the range index finds the block of each position, the block cache reads it.
 */
module FileReads {
  import opened Circular
  import opened Memory
  import opened FileIndex
  import opened BlockCaches

  const S_OK := 0
  /** The lengths in `read` are 32 bits wide. */
  const COUNTER := 0x1_0000_0000

  /** Where a block lies on the disk. */
  function AbsOffset(base: nat, bs: nat, block: nat): nat {
    Times(block, bs) + base
  }

  /** The byte at a position of a file whose blocks are these. */
  function FileByte(disk: nat -> nat, base: nat, bs: nat, blocks: seq<nat>, p: nat): nat
    requires bs > 0
  {
    if Quot(p, bs) < |blocks| then disk(AbsOffset(base, bs, blocks[Quot(p, bs)]) + Slot(p, bs)) else 0
  }

  function FileBytes(disk: nat -> nat, base: nat, bs: nat, blocks: seq<nat>, p: nat, n: nat): (b: seq<nat>)
    requires bs > 0
    ensures |b| == n
  {
    seq<nat>(n, i requires 0 <= i < n => FileByte(disk, base, bs, blocks, p + i))
  }

  /** Bytes of one block are consecutive on the disk. */
  lemma BytesInBlock(disk: nat -> nat, base: nat, bs: nat, blocks: seq<nat>, p: nat, n: nat)
    requires bs > 0 && Quot(p, bs) < |blocks| && Slot(p, bs) + n <= bs
    ensures Bytes(disk, AbsOffset(base, bs, blocks[Quot(p, bs)]) + Slot(p, bs), n)
            == FileBytes(disk, base, bs, blocks, p, n)
  {
    var a, b := Bytes(disk, AbsOffset(base, bs, blocks[Quot(p, bs)]) + Slot(p, bs), n),
                FileBytes(disk, base, bs, blocks, p, n);
    forall i | 0 <= i < n ensures a[i] == b[i] {
      QuotSame(p, i, bs);
    }
  }

  lemma BytesJoin(disk: nat -> nat, base: nat, bs: nat, blocks: seq<nat>, p: nat, n: nat, k: nat)
    requires bs > 0
    ensures FileBytes(disk, base, bs, blocks, p, n) + FileBytes(disk, base, bs, blocks, p + n, k)
            == FileBytes(disk, base, bs, blocks, p, n + k)
  {
  }

  /** A file on a partition is the file on the partition's own bytes: only the start moves. */
  lemma PartitionMoves(disk: nat -> nat, base: nat, bs: nat, blocks: seq<nat>, p: nat, n: nat)
    requires bs > 0
    ensures FileBytes(disk, base, bs, blocks, p, n) == FileBytes((x: nat) => disk(base + x), 0, bs, blocks, p, n)
  {
    var part := (x: nat) => disk(base + x);
    var a, b := FileBytes(disk, base, bs, blocks, p, n), FileBytes(part, 0, bs, blocks, p, n);
    forall i | 0 <= i < n ensures a[i] == b[i] {
      SameByte(disk, base, bs, blocks, p + i);
    }
  }

  lemma SameByte(disk: nat -> nat, base: nat, bs: nat, blocks: seq<nat>, p: nat)
    requires bs > 0
    ensures FileByte(disk, base, bs, blocks, p) == FileByte((x: nat) => disk(base + x), 0, bs, blocks, p)
  {
    if Quot(p, bs) < |blocks| {
      var at := AbsOffset(0, bs, blocks[Quot(p, bs)]) + Slot(p, bs);
      assert AbsOffset(base, bs, blocks[Quot(p, bs)]) + Slot(p, bs) == base + at;
    }
  }

  /** A file of the first `k` blocks in order is the partition from its start on. */
  lemma WholePartition(disk: nat -> nat, base: nat, bs: nat, k: nat, p: nat, n: nat)
    requires bs > 0 && p + n <= Times(k, bs)
    ensures FileBytes(disk, base, bs, FirstBlocks(k), p, n) == Bytes(disk, base + p, n)
  {
    var a, b := FileBytes(disk, base, bs, FirstBlocks(k), p, n), Bytes(disk, base + p, n);
    forall i | 0 <= i < n ensures a[i] == b[i] {
      PartitionByte(disk, base, bs, k, p + i);
      assert base + (p + i) == base + p + i;
    }
  }

  lemma PartitionByte(disk: nat -> nat, base: nat, bs: nat, k: nat, p: nat)
    requires bs > 0 && p < Times(k, bs)
    ensures FileByte(disk, base, bs, FirstBlocks(k), p) == disk(base + p)
  {
    QuotCompose(p, bs);
    QuotBelow(p, k, bs);
    assert AbsOffset(base, bs, FirstBlocks(k)[Quot(p, bs)]) + Slot(p, bs) == base + p;
  }

  function FirstBlocks(k: nat): (r: seq<nat>)
    ensures |r| == k && forall i {:trigger r[i]} :: 0 <= i < k ==> r[i] == i
  {
    seq(k, i requires 0 <= i < k => i)
  }

  /** Block 5 of 1024-byte blocks on a partition that starts at 1 MB. */
  lemma FifthBlock(disk: nat -> nat)
    ensures FileBytes(disk, 0x10_0000, 1024, [5], 0, 1) == [disk(1053696)]
  {
    TimesIsProduct(5, 1024);
  }

  // ------------------------------------------------------------------ building the index

  method CountBlocks(list: seq<nat>) returns (count: nat)
    ensures count == Used(list)
  {
    count := 0;
    var i := 0;
    while i < |list|
      invariant 0 <= i <= |list| && count == Used(list[..i])
    {
      if list[i] > 0 {
        count := count + 1;
      }
      i := i + 1;
      assert list[..i][..i - 1] == list[..i - 1];
    }
    assert list[..|list|] == list;
  }

  method BuildIndex(lists: seq<seq<nat>>, bs: nat) returns (nodes: seq<Node>)
    ensures nodes == Ranges(lists, bs)
  {
    nodes := [];
    var currBlock, k := 0, 0;
    while k < |lists|
      invariant 0 <= k <= |lists| && nodes == Ranges(lists[..k], bs) && currBlock == |Indexed(lists[..k])|
    {
      var n := CountBlocks(lists[k]);
      assert lists[..k + 1][..k] == lists[..k];
      TimesIsProduct(currBlock, bs);
      TimesIsProduct(n, bs);
      if n > 0 {
        nodes := nodes + [Node(currBlock * bs, n * bs, lists[k])];
      }
      currBlock := currBlock + n;
      k := k + 1;
    }
    assert lists[..|lists|] == lists;
  }

  // ------------------------------------------------------------------ how long it reads

  /** `bytes_copied` and `bytes_remaining` after turns that could copy these many bytes each. */
  function Counters(len: nat, sizes: seq<nat>): (nat, nat) {
    if sizes == [] then (0, len % COUNTER) else
      var (copied, remaining) := Counters(len, sizes[..|sizes| - 1]);
      var size := sizes[|sizes| - 1];
      var n := if size < remaining then size else remaining;
      (copied + n, remaining - n)
  }

  lemma {:induction false} CountersSum(len: nat, sizes: seq<nat>)
    ensures var (copied, remaining) := Counters(len, sizes); copied + remaining == len % COUNTER
  {
    if sizes != [] {
      CountersSum(len, sizes[..|sizes| - 1]);
    }
  }

  lemma {:induction false} TurnsEnough(len: nat, sizes: seq<nat>)
    requires forall i {:trigger sizes[i]} :: 0 <= i < |sizes| ==> sizes[i] > 0
    ensures Counters(len, sizes).1 <= if |sizes| < len % COUNTER then len % COUNTER - |sizes| else 0
  {
    if sizes != [] {
      TurnsEnough(len, sizes[..|sizes| - 1]);
    }
  }

  /** The loop ends, whatever the turns copy, if and only if the length fits the counters: then all is
      copied after `len` turns, and otherwise its condition still holds after any number of turns. */
  lemma LoopEndsExact(len: nat, sizes: seq<nat>)
    requires forall i {:trigger sizes[i]} :: 0 <= i < |sizes| ==> sizes[i] > 0
    ensures if len < COUNTER then |sizes| >= len ==> Counters(len, sizes) == (len, 0) else Counters(len, sizes).0 < len
  {
    CountersSum(len, sizes);
    TurnsEnough(len, sizes);
  }

  // ------------------------------------------------------------------ the file

  class File {
    const cache: BlockCache
    const base: nat
    const bs: nat
    const nodes: seq<Node>
    ghost const lists: seq<seq<nat>>
    var pos: nat

    ghost predicate Valid()
      reads this, cache, cache.entries, cache.chunks
    {
      cache.Valid() == true && 0 < bs <= 0x1_0000 && nodes == Ranges(lists, bs)
    }

    constructor (cache: BlockCache, base: nat, bs: nat, lists: seq<seq<nat>>)
      requires cache.Valid() && 0 < bs <= 0x1_0000
      ensures Valid() && this.cache == cache && this.base == base && this.bs == bs && this.lists == lists && pos == 0
    {
      var nodes := BuildIndex(lists, bs);
      this.cache, this.base, this.bs, this.nodes, this.lists, pos := cache, base, bs, nodes, lists, 0;
    }

    /** The block of a position and the place in it.  For a position the index does not contain the
        status is zero, which is success, and both are left as they were. */
    method Lookup(p: nat, block: nat, offset: nat) returns (status: nat, block': nat, offset': nat)
      requires Valid() && offset < bs
      ensures status == S_OK && offset' < bs
      ensures p < Times(|Indexed(lists)|, bs) ==>
                Quot(p, bs) < |Indexed(lists)| && block' == Indexed(lists)[Quot(p, bs)] && offset' == Slot(p, bs)
      ensures p >= Times(|Indexed(lists)|, bs) ==> block' == block && offset' == offset
    {
      var r := Search(nodes, p);
      if p < Times(|Indexed(lists)|, bs) {
        SearchFinds(lists, bs, p);
      } else {
        PastEndMissed(lists, bs, p);
      }
      if r == None {
        return 0, block, offset;
      }
      var delta := p - r.node.lower;
      QuotIsQuotient(delta, bs);
      return S_OK, r.node.blocks[delta / bs], delta % bs;
    }

    /** The part of a file. */
    ghost function Content(p: nat, n: nat): seq<nat>
      requires bs > 0
    {
      FileBytes(cache.disk, base, bs, Indexed(lists), p, n)
    }

    /** Read `n` bytes of a block into the buffer. */
    method ReadPiece(block: nat, offset: nat, n: nat, buffer: array<nat>, at: nat)
      requires Valid() && offset + n <= bs && at + n <= buffer.Length
      requires buffer !in {cache, cache.entries, cache.chunks, this}
      modifies cache, cache.entries, cache.chunks, buffer
      ensures Valid()
      ensures buffer[..at] == old(buffer[..at])
      ensures buffer[at..at + n] == Bytes(cache.disk, AbsOffset(base, bs, block) + offset, n)
    {
      TimesIsProduct(block, bs);
      var absoff := block * bs + base + offset;
      var _, data := cache.Read(absoff, n);
      forall i | 0 <= i < n {
        buffer[at + i] := data[i];
      }
    }

    /** One turn of the loop: the rest of a block, or of what is asked for. */
    method ReadTurn(curr: nat, block: nat, offset: nat, remaining: nat, buffer: array<nat>, copied: nat)
        returns (block': nat, offset': nat, n: nat)
      requires Valid() && offset < bs && copied + remaining <= buffer.Length
      requires buffer !in {cache, cache.entries, cache.chunks, this}
      modifies cache, cache.entries, cache.chunks, buffer
      ensures Valid() && offset' < bs && n <= remaining && (remaining > 0 ==> n > 0)
      ensures buffer[..copied] == old(buffer[..copied])
      ensures curr < Times(|Indexed(lists)|, bs) ==> buffer[copied..copied + n] == Content(curr, n)
    {
      var status: nat;
      status, block', offset' := Lookup(curr, block, offset);
      assert status == S_OK;
      n := if bs - offset' < remaining then bs - offset' else remaining;
      ReadPiece(block', offset', n, buffer, copied);
      if curr < Times(|Indexed(lists)|, bs) {
        BytesInBlock(cache.disk, base, bs, Indexed(lists), curr, n);
      }
    }

    /** The loop of `read`: the body is done at least once. */
    method ReadLoop(p: nat, len: nat, buffer: array<nat>)
      requires Valid() && len <= buffer.Length && len < COUNTER
      requires buffer !in {cache, cache.entries, cache.chunks, this}
      modifies cache, cache.entries, cache.chunks, buffer
      ensures Valid()
      ensures p + len <= Times(|Indexed(lists)|, bs) ==> buffer[..len] == Content(p, len)
    {
      ghost var inside := p + len <= Times(|Indexed(lists)|, bs);
      var block: nat, offset: nat, n: nat := 0, 0, 0;
      var copied: nat, remaining: nat, curr: nat, first := 0, len, p, true;
      while first || copied < len
        invariant Valid() && offset < bs && copied + remaining == len && copied <= len && curr == p + copied
        invariant inside ==> buffer[..copied] == Content(p, copied)
        decreases first, remaining
      {
        block, offset, n := ReadTurn(curr, block, offset, remaining, buffer, copied);
        if inside && copied < len {
          BytesJoin(cache.disk, base, bs, Indexed(lists), p, copied, n);
          assert buffer[..copied + n] == buffer[..copied] + buffer[copied..copied + n];
        }
        copied, remaining, curr, first := copied + n, remaining - n, curr + n, false;
      }
    }

    /** Read `len` bytes from position `p` on.  Inside a file without holes these are the file's. */
    method Read(p: nat, len: nat, buffer: array<nat>)
      requires Valid() && len <= buffer.Length && len < COUNTER
      requires buffer !in {cache, cache.entries, cache.chunks, this}
      modifies this, cache, cache.entries, cache.chunks, buffer
      ensures Valid() && pos == p + len
      ensures p + len <= Times(|Indexed(lists)|, bs) ==> buffer[..len] == Content(p, len)
      ensures NoHoles(lists) && p + len <= Times(|FileBlocks(lists)|, bs) ==>
                buffer[..len] == FileBytes(cache.disk, base, bs, FileBlocks(lists), p, len)
    {
      ReadLoop(p, len, buffer);
      IndexedIsFile(lists);
      pos := p + len;
    }
  }
}
