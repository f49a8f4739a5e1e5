/**
 The range index of an ext2 file: which block a byte position lies in, over block lists in file order.
 */
module FileIndex {
  import opened Circular

  /** A range of file positions and the block list it stands for. */
  datatype Node = Node(lower: nat, length: nat, blocks: seq<nat>)
  datatype Found = None | Some(node: Node)

  predicate Contains(n: Node, pos: nat) {
    n.lower <= pos < n.lower + n.length
  }

  /** How many addresses of a list are in use. */
  function Used(list: seq<nat>): (n: nat)
    ensures n <= |list|
  {
    if list == [] then 0 else Used(list[..|list| - 1]) + if list[|list| - 1] > 0 then 1 else 0
  }

  /** No holes: the addresses in use come first. */
  predicate Dense(list: seq<nat>) {
    forall i {:trigger list[i]} :: 0 <= i < |list| ==> (list[i] > 0 <==> i < Used(list))
  }

  /** The blocks the index gives access to: of each list as many as are in use, from its start. */
  function Indexed(lists: seq<seq<nat>>): seq<nat> {
    if lists == [] then [] else
      var last := lists[|lists| - 1];
      Indexed(lists[..|lists| - 1]) + last[..Used(last)]
  }

  /** The addresses in use, in order. */
  function InUse(list: seq<nat>): (r: seq<nat>)
    ensures |r| == Used(list)
  {
    if list == [] then [] else
      InUse(list[..|list| - 1]) + if list[|list| - 1] > 0 then [list[|list| - 1]] else []
  }

  /** The blocks of a file in order. */
  function FileBlocks(lists: seq<seq<nat>>): seq<nat> {
    if lists == [] then [] else FileBlocks(lists[..|lists| - 1]) + InUse(lists[|lists| - 1])
  }

  lemma {:induction false} InUsePositive(list: seq<nat>, i: nat)
    requires i < |InUse(list)|
    ensures InUse(list)[i] > 0
  {
    if i < |InUse(list[..|list| - 1])| {
      InUsePositive(list[..|list| - 1], i);
    }
  }

  lemma {:induction false} UsedSplit(list: seq<nat>, m: nat)
    requires m <= |list|
    ensures Used(list) == Used(list[..m]) + Used(list[m..])
  {
    if m == |list| {
      assert list[..m] == list;
    } else {
      var init, rest := list[..|list| - 1], list[m..];
      UsedSplit(init, m);
      assert init[..m] == list[..m] && init[m..] == rest[..|rest| - 1];
    }
  }

  lemma {:induction false} UsedAll(list: seq<nat>)
    requires forall k {:trigger list[k]} :: 0 <= k < |list| ==> list[k] > 0
    ensures Used(list) == |list|
  {
    if list != [] {
      UsedAll(list[..|list| - 1]);
    }
  }

  lemma {:induction false} UsedSome(list: seq<nat>, i: nat)
    requires i < |list| && list[i] > 0
    ensures Used(list) > 0
  {
    if i < |list| - 1 {
      UsedSome(list[..|list| - 1], i);
    }
  }

  /** The blocks of a list the index gives access to are its blocks in use exactly when it has no
      holes. */
  lemma NoHolesExact(list: seq<nat>)
    ensures list[..Used(list)] == InUse(list) <==> Dense(list)
  {
    if Dense(list) {
      DenseMeans(list);
    } else if list[..Used(list)] == InUse(list) {
      var first := list[..Used(list)];
      forall k | 0 <= k < |first| ensures first[k] > 0 {
        InUsePositive(list, k);
      }
      forall i | 0 <= i < |list| ensures list[i] > 0 <==> i < Used(list) {
        NoneLeft(list, i);
      }
    }
  }

  lemma {:induction false} DenseMeans(list: seq<nat>)
    requires Dense(list)
    ensures list[..Used(list)] == InUse(list)
  {
    if list != [] {
      var init := list[..|list| - 1];
      forall i | 0 <= i < |init| ensures init[i] > 0 <==> i < Used(init) {
        assert list[i] == init[i];
      }
      DenseMeans(init);
    }
  }

  /** If the first ones are all in use, there are no others. */
  lemma NoneLeft(list: seq<nat>, i: nat)
    requires i < |list| && forall k {:trigger list[..Used(list)][k]} :: 0 <= k < Used(list) ==> list[..Used(list)][k] > 0
    ensures list[i] > 0 <==> i < Used(list)
  {
    var u := Used(list);
    UsedSplit(list, u);
    UsedAll(list[..u]);
    if i < u {
      assert list[i] == list[..u][i];
    } else if list[i] > 0 {
      UsedSome(list[u..], i - u);
    }
  }

  /** A file without holes. */
  ghost predicate NoHoles(lists: seq<seq<nat>>) {
    forall k {:trigger lists[k]} :: 0 <= k < |lists| ==> Dense(lists[k])
  }

  /** The index gives access to a file's blocks if and only if no list has holes. */
  lemma {:induction false} IndexedIsFile(lists: seq<seq<nat>>)
    ensures |Indexed(lists)| == |FileBlocks(lists)|
    ensures Indexed(lists) == FileBlocks(lists) <==> NoHoles(lists)
  {
    if lists != [] {
      var before, last := lists[..|lists| - 1], lists[|lists| - 1];
      IndexedIsFile(before);
      NoHolesExact(last);
      assert NoHoles(lists) <==> NoHoles(before) && Dense(last) by {
        assert forall k :: 0 <= k < |before| ==> before[k] == lists[k];
      }
      SameHalves(Indexed(before), last[..Used(last)], FileBlocks(before), InUse(last));
    }
  }

  lemma SameHalves(a: seq<nat>, b: seq<nat>, c: seq<nat>, d: seq<nat>)
    requires |a| == |c| && |b| == |d|
    ensures a + b == c + d <==> a == c && b == d
  {
    if a + b == c + d {
      assert a == (a + b)[..|a|] && c == (c + d)[..|a|];
      assert b == (a + b)[|a|..] && d == (c + d)[|a|..];
    }
  }

  /** A hole before a block: the index gives the hole in its place. */
  lemma HoleIndexed()
    ensures Indexed([[0, 5]]) == [0] && FileBlocks([[0, 5]]) == [5] && !NoHoles([[0, 5]])
  {
    var list, lists := [0, 5], [[0, 5]];
    assert list[..1] == [0] && [0][..0] == [];
    assert Used(list) == 1 && InUse(list) == [5];
    assert lists[..0] == [];
    IndexedIsFile(lists);
  }

  // ------------------------------------------------------------------ arithmetic of blocks

  /** The size of `k` blocks. */
  function Times(k: nat, bs: nat): nat {
    if k == 0 then 0 else Times(k - 1, bs) + bs
  }

  /** How many whole blocks lie before a position.  Its place in its block is `Slot(p, bs)`. */
  function Quot(p: nat, bs: nat): nat
    requires bs > 0
  {
    if p < bs then 0 else 1 + Quot(p - bs, bs)
  }

  lemma {:induction false} TimesIsProduct(k: nat, bs: nat)
    ensures Times(k, bs) == k * bs
  {
    if k > 0 {
      TimesIsProduct(k - 1, bs);
      assert (k - 1) * bs + bs == k * bs;
    }
  }

  lemma {:induction false} QuotIsQuotient(p: nat, bs: nat)
    requires bs > 0
    ensures Quot(p, bs) == p / bs && Slot(p, bs) == p % bs
  {
    SlotIsRemainder(p, bs);
    QuotCompose(p, bs);
    TimesIsProduct(Quot(p, bs), bs);
    SameProduct(Quot(p, bs), p / bs, bs);
  }

  lemma SameProduct(a: int, b: int, bs: nat)
    requires bs > 0 && a * bs == b * bs
    ensures a == b
  {
    var d := a - b;
    assert d * bs == 0;
    assert d > 0 ==> d * bs > 0;
    assert d < 0 ==> (-d) * bs > 0;
  }

  lemma {:induction false} QuotCompose(p: nat, bs: nat)
    requires bs > 0
    ensures p == Times(Quot(p, bs), bs) + Slot(p, bs)
  {
    if p >= bs {
      QuotCompose(p - bs, bs);
    }
  }

  lemma {:induction false} TimesAdd(a: nat, b: nat, bs: nat)
    ensures Times(a + b, bs) == Times(a, bs) + Times(b, bs)
  {
    if b > 0 {
      TimesAdd(a, b - 1, bs);
    }
  }

  /** Positions counted from a block boundary. */
  lemma {:induction false} QuotShift(p: nat, b: nat, bs: nat)
    requires bs > 0 && Times(b, bs) <= p
    ensures Quot(p, bs) >= b && Quot(p - Times(b, bs), bs) == Quot(p, bs) - b
    ensures Slot(p - Times(b, bs), bs) == Slot(p, bs)
    decreases b
  {
    if b > 0 {
      QuotShift(p - bs, b - 1, bs);
    }
  }

  lemma {:induction false} QuotBelow(p: nat, b: nat, bs: nat)
    requires bs > 0
    ensures p < Times(b, bs) <==> Quot(p, bs) < b
    decreases b
  {
    if b > 0 && p >= bs {
      QuotBelow(p - bs, b - 1, bs);
    }
  }

  /** Within a block. */
  lemma {:induction false} QuotSame(p: nat, i: nat, bs: nat)
    requires bs > 0 && Slot(p, bs) + i < bs
    ensures Quot(p + i, bs) == Quot(p, bs) && Slot(p + i, bs) == Slot(p, bs) + i
  {
    if p >= bs {
      QuotSame(p - bs, i, bs);
    }
  }

  /** The ranges of the index. */
  function Ranges(lists: seq<seq<nat>>, bs: nat): seq<Node> {
    if lists == [] then [] else
      var before, last := lists[..|lists| - 1], lists[|lists| - 1];
      Ranges(before, bs)
      + if Used(last) > 0 then [Node(Times(|Indexed(before)|, bs), Times(Used(last), bs), last)] else []
  }

  /** The range that contains a position. */
  function Search(nodes: seq<Node>, pos: nat): (r: Found)
    ensures r.Some? ==> r.node in nodes && Contains(r.node, pos)
    ensures r.None? ==> forall n :: n in nodes ==> !Contains(n, pos)
  {
    if nodes == [] then None
    else if Contains(nodes[|nodes| - 1], pos) then Some(nodes[|nodes| - 1])
    else Search(nodes[..|nodes| - 1], pos)
  }

  // ------------------------------------------------------------------ what the index finds

  /** The ranges lie one after the other, up to the size of the file. */
  lemma {:induction false} RangesBelow(lists: seq<seq<nat>>, bs: nat, n: Node)
    requires n in Ranges(lists, bs)
    ensures n.lower + n.length <= Times(|Indexed(lists)|, bs)
  {
    var before, last := lists[..|lists| - 1], lists[|lists| - 1];
    TimesAdd(|Indexed(before)|, Used(last), bs);
    if n in Ranges(before, bs) {
      RangesBelow(before, bs, n);
    }
  }

  /** No position lies in two of them. */
  lemma {:induction false} RangesDisjoint(lists: seq<seq<nat>>, bs: nat, i: nat, j: nat, pos: nat)
    requires i < j < |Ranges(lists, bs)|
    ensures !(Contains(Ranges(lists, bs)[i], pos) && Contains(Ranges(lists, bs)[j], pos))
  {
    var before := lists[..|lists| - 1];
    if j < |Ranges(before, bs)| {
      RangesDisjoint(before, bs, i, j, pos);
    } else {
      RangesBelow(before, bs, Ranges(before, bs)[i]);
    }
  }

  /** The position is found in the block it lies in, at its place in that block. */
  ghost predicate Finds(nodes: seq<Node>, blocks: seq<nat>, bs: nat, pos: nat)
    requires bs > 0
  {
    var r := Search(nodes, pos);
    && Quot(pos, bs) < |blocks| && r.Some? && var delta := pos - r.node.lower;
    && Quot(delta, bs) < |r.node.blocks| && r.node.blocks[Quot(delta, bs)] == blocks[Quot(pos, bs)]
    && Slot(delta, bs) == Slot(pos, bs)
  }

  lemma FindsBefore(nodes: seq<Node>, blocks: seq<nat>, n: Node, more: seq<nat>, bs: nat, pos: nat)
    requires bs > 0 && Finds(nodes, blocks, bs, pos) && !Contains(n, pos)
    ensures Finds(nodes + [n], blocks + more, bs, pos)
  {
  }

  lemma FindsInNode(nodes: seq<Node>, blocks: seq<nat>, n: Node, used: nat, bs: nat, pos: nat, q: nat, delta: nat)
    requires bs > 0 && Contains(n, pos) && delta == pos - n.lower && q == Quot(delta, bs) < used <= |n.blocks|
    requires Quot(pos, bs) == |blocks| + q && Slot(delta, bs) == Slot(pos, bs)
    ensures Finds(nodes + [n], blocks + n.blocks[..used], bs, pos)
  {
  }

  lemma FindsInLast(nodes: seq<Node>, blocks: seq<nat>, last: seq<nat>, bs: nat, pos: nat)
    requires bs > 0 && Times(|blocks|, bs) <= pos < Times(|blocks|, bs) + Times(Used(last), bs)
    ensures Finds(nodes + [Node(Times(|blocks|, bs), Times(Used(last), bs), last)], blocks + last[..Used(last)], bs, pos)
  {
    var delta := pos - Times(|blocks|, bs);
    QuotShift(pos, |blocks|, bs);
    QuotBelow(delta, Used(last), bs);
    FindsInNode(nodes, blocks, Node(Times(|blocks|, bs), Times(Used(last), bs), last), Used(last), bs, pos,
                Quot(delta, bs), delta);
  }

  /** Every position of the file is. */
  lemma {:induction false} SearchFinds(lists: seq<seq<nat>>, bs: nat, pos: nat)
    requires bs > 0 && pos < Times(|Indexed(lists)|, bs)
    ensures Finds(Ranges(lists, bs), Indexed(lists), bs, pos)
  {
    var before, last := lists[..|lists| - 1], lists[|lists| - 1];
    var nodes, blocks := Ranges(before, bs), Indexed(before);
    TimesAdd(|blocks|, Used(last), bs);
    if pos >= Times(|blocks|, bs) {
      FindsInLast(nodes, blocks, last, bs, pos);
    } else {
      SearchFinds(before, bs, pos);
      if Used(last) > 0 {
        FindsBefore(nodes, blocks, Node(Times(|blocks|, bs), Times(Used(last), bs), last), last[..Used(last)], bs, pos);
      } else {
        assert last[..Used(last)] == [] && blocks + [] == blocks && nodes + [] == nodes;
      }
    }
  }

  /** And a position past the end is not found. */
  lemma PastEndMissed(lists: seq<seq<nat>>, bs: nat, pos: nat)
    requires pos >= Times(|Indexed(lists)|, bs)
    ensures Search(Ranges(lists, bs), pos) == None
  {
    var r := Search(Ranges(lists, bs), pos);
    if r.Some? {
      RangesBelow(lists, bs, r.node);
    }
  }

  /** A file of one block, and the position after it. */
  lemma PastOneBlock()
    ensures Indexed([[5]]) == [5] && Times(|Indexed([[5]])|, 512) == 512 && Search(Ranges([[5]], 512), 512) == None
  {
    var list, lists := [5], [[5]];
    assert list[..0] == [] && lists[..0] == [];
    assert Used(list) == 1 && list[..1] == [5];
    PastEndMissed(lists, 512, 512);
  }
}
