/**
 The generator of the Mersenne Twister: an array of 312 words, regenerated in place a whole array at
 a time, refines the defining recurrence.  Nothing here depends on what the words are or how two
 neighbours are twisted; `MersenneTwister` fills that in.
 */
module Twister {
  import opened Circular

  const NN := 312
  const MM := 156

  /** How words are made: twisted from three, tempered on the way out, seeded from the one before;
      and, to seed from an array, mixed with a key word and with an index. */
  datatype Maker<!W> = Maker(twist: (W, W, W) -> W, temper: W -> W, seedNext: (W, nat) -> W,
                             mixKey: (W, W, W, nat) -> W, mixIndex: (W, W, nat) -> W,
                             defaultSeed: W, arraySeed: W, top: W)

  /** The `k`th word of the sequence that starts with these. */
  function Term<W>(m: Maker<W>, init: seq<W>, k: nat): W
    requires |init| == NN
  {
    if k < NN then init[k]
    else m.twist(Term(m, init, k - NN), Term(m, init, k - NN + 1), Term(m, init, k - NN + MM))
  }

  function Seeded<W>(m: Maker<W>, seed: W, i: nat): W {
    if i == 0 then seed else m.seedNext(Seeded(m, seed, i - 1), i)
  }

  function SeedArray<W>(m: Maker<W>, seed: W): seq<W> {
    seq(NN, i requires 0 <= i < NN => Seeded(m, seed, i))
  }

  // ------------------------------------------------------------------ seeding from an array

  /** Put `w` in place `i`; the last place also goes to the first. */
  function Place<W>(s: seq<W>, i: nat, w: W): (r: seq<W>)
    requires |s| == NN && 0 < i < NN
    ensures |r| == NN
  {
    if i == NN - 1 then s[i := w][0 := w] else s[i := w]
  }

  /** The place treated in step `t`: 1 to 311, over and over. */
  function At(t: nat): (i: nat)
    ensures 0 < i < NN
  {
    1 + Slot(t, NN - 1)
  }

  /** What a step makes of a word, the word before it and the number of the step. */
  type Mix<!W> = (W, W, nat) -> W

  /** The array after `t` steps, the first of them step `from`. */
  function Pass<W>(f: Mix<W>, s: seq<W>, from: nat, t: nat): (r: seq<W>)
    requires |s| == NN
    ensures |r| == NN
  {
    if t == 0 then s else
      var p, i := Pass(f, s, from, t - 1), At(from + t - 1);
      Place(p, i, f(p[i], p[i - 1], from + t - 1))
  }

  /** Steps with the key, which is used cyclically. */
  function KeyMix<W>(m: Maker<W>, key: seq<W>): Mix<W>
    requires key != []
  {
    (cur: W, prev: W, step: nat) => var j := Slot(step, |key|); m.mixKey(cur, prev, key[j], j)
  }

  /** Steps with the index of the place. */
  function IndexMix<W>(m: Maker<W>): Mix<W> {
    (cur: W, prev: W, step: nat) => m.mixIndex(cur, prev, At(step))
  }

  /** The array after `t` steps with the key. */
  function KeyPass<W>(m: Maker<W>, key: seq<W>, s: seq<W>, t: nat): (r: seq<W>)
    requires |s| == NN && key != []
    ensures |r| == NN
  {
    Pass(KeyMix(m, key), s, 0, t)
  }

  /** The array after `t` more steps with the index, the first of them step `from`. */
  function IndexPass<W>(m: Maker<W>, s: seq<W>, from: nat, t: nat): (r: seq<W>)
    requires |s| == NN
    ensures |r| == NN
  {
    Pass(IndexMix(m), s, from, t)
  }

  /** What was in the place of step `from + t` at first. */
  function Was<W>(s: seq<W>, from: nat, t: nat): W
    requires |s| == NN
  {
    s[At(from + t)]
  }

  /** The words made, one after the other, without an array: each from the one made 311 steps before,
      or what was in its place, and from the one made just before. */
  function Made<W>(f: Mix<W>, s: seq<W>, from: nat, t: nat): W
    requires |s| == NN
  {
    f(if t < 311 then Was(s, from, t) else Made(f, s, from, t - 311),
      if t == 0 then s[At(from) - 1] else Made(f, s, from, t - 1), from + t)
  }

  /** After `t` steps the array has the last 311 words made in their places, what was there before in
      the others, and the word made last before the place that is next. */
  ghost predicate HasMade<W(!new)>(f: Mix<W>, s: seq<W>, from: nat, t: nat, p: seq<W>)
    requires |s| == NN
  {
    && |p| == NN
    && (forall u: nat {:trigger Made(f, s, from, u)} :: u < t <= u + 311 ==> p[At(from + u)] == Made(f, s, from, u))
    && (forall u: nat {:trigger Was(s, from, u)} :: t <= u < 311 ==> p[At(from + u)] == Was(s, from, u))
    && p[At(from + t) - 1] == if t == 0 then s[At(from) - 1] else Made(f, s, from, t - 1)
  }

  lemma AtDistinct(a: nat, b: nat)
    requires a < b < a + 311
    ensures At(a) != At(b)
  {
    SlotDistinct(a, b, NN - 1);
  }

  lemma AtNext(t: nat)
    ensures At(t + 1) == if At(t) == NN - 1 then 1 else At(t) + 1
    ensures At(t + 311) == At(t)
  {
    SlotNext(t, NN - 1);
  }

  lemma OneMoreMade<W(!new)>(f: Mix<W>, s: seq<W>, from: nat, t: nat, p: seq<W>)
    requires |s| == NN && HasMade(f, s, from, t, p)
    ensures HasMade(f, s, from, t + 1, Place(p, At(from + t), f(p[At(from + t)], p[At(from + t) - 1], from + t)))
  {
    var i := At(from + t);
    AtNext(from + t);
    if t >= 311 {
      AtNext(from + t - 311);
      assert p[At(from + (t - 311))] == Made(f, s, from, t - 311);
    }
    var w := f(p[i], p[i - 1], from + t);
    assert w == Made(f, s, from, t);
    forall u: nat | u < t + 1 <= u + 311 ensures Place(p, i, w)[At(from + u)] == Made(f, s, from, u) {
      if u < t {
        AtDistinct(from + u, from + t);
      }
    }
    forall u: nat | t + 1 <= u < 311 ensures Place(p, i, w)[At(from + u)] == Was(s, from, u) {
      AtDistinct(from + t, from + u);
    }
  }

  /** The passes over the array, with its wrap-around and its copied word, make these words. */
  lemma {:induction false} PassMakes<W(!new)>(f: Mix<W>, s: seq<W>, from: nat, t: nat)
    requires |s| == NN
    ensures HasMade(f, s, from, t, Pass(f, s, from, t))
  {
    if t > 0 {
      PassMakes(f, s, from, t - 1);
      OneMoreMade(f, s, from, t - 1, Pass(f, s, from, t - 1));
    }
  }

  function ByArray<W>(m: Maker<W>, key: seq<W>): (r: seq<W>)
    requires key != []
    ensures |r| == NN && r[0] == m.top
  {
    var k := if NN > |key| then NN else |key|;
    IndexPass(m, KeyPass(m, key, SeedArray(m, m.arraySeed), k), k, NN - 1)[0 := m.top]
  }

  /** The words of the first pass: key word and place in the key go round with the steps. */
  lemma KeyWords<W>(m: Maker<W>, key: seq<W>, s: seq<W>, t: nat)
    requires |s| == 312 && key != []
    ensures Made(KeyMix(m, key), s, 0, t)
            == m.mixKey(if t < 311 then s[t + 1] else Made(KeyMix(m, key), s, 0, t - 311),
                        if t == 0 then s[0] else Made(KeyMix(m, key), s, 0, t - 1), key[t % |key|], t % |key|)
  {
    SlotIsRemainder(t, |key|);
  }

  lemma MixesIndex<W>(m: Maker<W>, cur: W, prev: W, step: nat)
    ensures IndexMix(m)(cur, prev, step) == m.mixIndex(cur, prev, At(step))
  {
  }

  /** The words of the second pass: with the index of their place. */
  lemma IndexWords<W>(m: Maker<W>, s: seq<W>, from: nat, t: nat)
    requires |s| == 312
    ensures Made(IndexMix(m), s, from, t)
            == m.mixIndex(if t < 311 then s[1 + (from + t) % 311] else Made(IndexMix(m), s, from, t - 311),
                          if t == 0 then s[from % 311] else Made(IndexMix(m), s, from, t - 1), 1 + (from + t) % 311)
  {
    SlotIsRemainder(from, 311);
    SlotIsRemainder(from + t, 311);
    assert At(from + t) == 1 + (from + t) % 311 && At(from) - 1 == from % 311;
    var cur := if t < 311 then Was(s, from, t) else Made(IndexMix(m), s, from, t - 311);
    var prev := if t == 0 then s[At(from) - 1] else Made(IndexMix(m), s, from, t - 1);
    MixesIndex(m, cur, prev, from + t);
  }

  /** The array seeded from a key: the top word, and then the words of the second pass over what the
      first pass left, which starts where that stopped. */
  lemma ByArrayMakes<W(!new)>(m: Maker<W>, key: seq<W>, u: nat)
    requires key != [] && u < 311
    ensures var k := if |key| < 312 then 312 else |key|;
            var first := KeyPass(m, key, SeedArray(m, m.arraySeed), k);
            && ByArray(m, key)[0] == m.top
            && ByArray(m, key)[1 + Slot(k + u, 311)] == Made(IndexMix(m), first, k, u)
            && HasMade(KeyMix(m, key), SeedArray(m, m.arraySeed), 0, k, first)
  {
    var k := if NN > |key| then NN else |key|;
    PassMakes(KeyMix(m, key), SeedArray(m, m.arraySeed), 0, k);
    PassMakes(IndexMix(m), KeyPass(m, key, SeedArray(m, m.arraySeed), k), k, NN - 1);
  }

  // ------------------------------------------------------------------ regenerating in place

  /** The recurrence at one place of a sequence. */
  ghost predicate FollowsAt<W>(m: Maker<W>, x: nat -> W, k: nat) {
    x(k + NN) == m.twist(x(k), x(k + 1), x(k + MM))
  }

  ghost function Sequence<W>(m: Maker<W>, init: seq<W>): nat -> W
    requires |init| == NN
  {
    (k: nat) => Term(m, init, k)
  }

  lemma SequenceFollows<W>(m: Maker<W>, init: seq<W>, k: nat)
    requires |init| == NN
    ensures FollowsAt(m, Sequence(m, init), k)
  {
  }

  /** The first `i` words are of the next generation, the others of this one. */
  ghost predicate MixedFrom<W>(s: seq<W>, x: nat -> W, base: nat, i: nat) {
    |s| == NN && forall j {:trigger s[j]} :: 0 <= j < NN ==> s[j] == x(base + if j < i then NN + j else j)
  }

  /** The index of the word after `i`, and of the word `MM` further on. */
  function Lower(i: nat): (r: nat)
    requires i < NN
    ensures r < NN
  {
    if i == NN - 1 then 0 else i + 1
  }

  function Later(i: nat): (r: nat)
    requires i < NN
    ensures r < NN
  {
    if i < NN - MM then i + MM else i + MM - NN
  }

  /** Word `i` can be made from the array as it is, old words and new ones. */
  lemma NextWord<W>(m: Maker<W>, s: seq<W>, x: nat -> W, base: nat, i: nat)
    requires MixedFrom(s, x, base, i) && i < NN && FollowsAt(m, x, base + i)
    ensures MixedFrom(s[i := m.twist(s[i], s[Lower(i)], s[Later(i)])], x, base, i + 1)
  {
  }

  /** A whole generation on is the next generation. */
  lemma NextGeneration<W>(s: seq<W>, x: nat -> W, base: nat)
    requires MixedFrom(s, x, base, NN)
    ensures MixedFrom(s, x, base + NN, 0)
  {
  }

  // ------------------------------------------------------------------ the generator

  class Generator<W> {
    const m: Maker<W>
    const mt: array<W>
    var mti: nat
    /** The array the sequence started from, and the place in it of the word in `mt[0]`. */
    ghost var init: seq<W>
    ghost var base: nat

    /** Seeded, or not yet. */
    ghost predicate Valid()
      reads this, mt
    {
      && mt.Length == NN
      && (mti == NN + 1 || (mti <= NN && |init| == NN && MixedFrom(mt[..], Sequence(m, init), base, 0) == true))
    }

    /** The place in the sequence of the next word to be put out. */
    ghost function Next(): nat
      reads this
    {
      base + mti
    }

    constructor (m: Maker<W>)
      ensures Valid() && mti == NN + 1 && fresh(mt) && this.m == m
    {
      this.m := m;
      mt := new W[NN](_ => m.defaultSeed);
      mti, init := NN + 1, [];
    }

    method InitGenrand(seed: W)
      requires mt.Length == NN
      modifies this, mt
      ensures Valid() && init == mt[..] == SeedArray(m, seed) && base == 0 && mti == NN
    {
      mt[0] := seed;
      init, base := SeedArray(m, seed), 0;
      mti := 1;
      while mti < NN
        invariant 1 <= mti <= NN && init == SeedArray(m, seed) && base == 0
        invariant forall j {:trigger mt[j]} :: 0 <= j < mti ==> mt[j] == Seeded(m, seed, j)
      {
        mt[mti] := m.seedNext(mt[mti - 1], mti);
        mti := mti + 1;
      }
      SeedIsStart(m, init, mt[..]);
    }

    /** Write place `i`, and the first place with the last; step on to the next place. */
    method PlaceAt(i: nat, w: W) returns (next: nat)
      requires mt.Length == NN && 0 < i < NN
      modifies mt
      ensures mt[..] == Place(old(mt[..]), i, w) && next == if i == NN - 1 then 1 else i + 1
    {
      mt[i] := w;
      next := i + 1;
      if next >= NN {
        mt[0] := mt[NN - 1];
        next := 1;
      }
    }

    /** The first pass: `k` steps with the key. */
    method UseKey(key: seq<W>, k: nat) returns (i: nat)
      requires mt.Length == NN && key != []
      modifies mt
      ensures mt[..] == KeyPass(m, key, old(mt[..]), k) && i == At(k)
    {
      i := 1;
      var j, t := 0, 0;
      while t < k
        invariant 0 <= t <= k && i == At(t) && j == Slot(t, |key|)
        invariant mt[..] == KeyPass(m, key, old(mt[..]), t)
      {
        SlotNext(t, NN - 1);
        SlotNext(t, |key|);
        i := PlaceAt(i, m.mixKey(mt[i], mt[i - 1], key[j], j));
        j := j + 1;
        if j >= |key| {
          j := 0;
        }
        t := t + 1;
      }
    }

    /** The second pass: every place once more, with its index. */
    method UseIndex(start: nat, ghost from: nat)
      requires mt.Length == NN && start == At(from)
      modifies mt
      ensures mt[..] == IndexPass(m, old(mt[..]), from, NN - 1)
    {
      var i, t := start, 0;
      while t < NN - 1
        invariant 0 <= t <= NN - 1 && i == At(from + t)
        invariant mt[..] == IndexPass(m, old(mt[..]), from, t)
      {
        SlotNext(from + t, NN - 1);
        i := PlaceAt(i, m.mixIndex(mt[i], mt[i - 1], i));
        t := t + 1;
      }
    }

    method InitByArray(key: seq<W>)
      requires mt.Length == NN && key != []
      modifies this, mt
      ensures Valid() && init == ByArray(m, key) && base == 0 && mti == NN
    {
      InitGenrand(m.arraySeed);
      var k := if NN > |key| then NN else |key|;
      var i := UseKey(key, k);
      UseIndex(i, k);
      mt[0] := m.top;
      init := ByArray(m, key);
      SeedIsStart(m, init, mt[..]);
    }

    /** Replace word `i` using two other words of the array. */
    method Replace(i: nat, lower: nat, later: nat)
      requires mt.Length == NN == |init| && i < NN && lower == Lower(i) && later == Later(i)
      requires MixedFrom(mt[..], Sequence(m, init), base, i) == true
      modifies mt
      ensures MixedFrom(mt[..], Sequence(m, init), base, i + 1) == true
    {
      SequenceFollows(m, init, base + i);
      NextWord(m, mt[..], Sequence(m, init), base, i);
      mt[i] := m.twist(mt[i], mt[lower], mt[later]);
    }

    /** Regenerate the whole array in place, in three pieces. */
    method Regenerate()
      requires Valid() && mti == NN
      modifies this`mti, this`base, mt
      ensures Valid() && mti == 0 && base == old(base) + NN
    {
      var i := 0;
      while i < NN - MM
        invariant 0 <= i <= NN - MM && base == old(base)
        invariant MixedFrom(mt[..], Sequence(m, init), base, i) == true
      {
        Replace(i, i + 1, i + MM);
        i := i + 1;
      }
      while i < NN - 1
        invariant NN - MM <= i <= NN - 1 && base == old(base)
        invariant MixedFrom(mt[..], Sequence(m, init), base, i) == true
      {
        Replace(i, i + 1, i + MM - NN);
        i := i + 1;
      }
      Replace(NN - 1, 0, MM - 1);
      NextGeneration(mt[..], Sequence(m, init), base);
      mti := 0;
      base := base + NN;
    }

    /** The next number: the next word of the sequence, tempered.  A generator that was never seeded
        is seeded with the default. */
    method Genrand() returns (r: W)
      requires Valid()
      modifies this, mt
      ensures Valid() && mti <= NN
      ensures old(mti) <= NN ==> init == old(init) && Next() == old(Next()) + 1
      ensures old(mti) == NN + 1 ==> init == SeedArray(m, m.defaultSeed) && Next() == NN + 1
      ensures r == m.temper(Term(m, init, Next() - 1))
    {
      if mti >= NN {
        if mti == NN + 1 {
          InitGenrand(m.defaultSeed);
        }
        Regenerate();
      }
      var x := mt[mti];
      assert mt[..][mti] == Sequence(m, init)(base + mti);
      mti := mti + 1;
      r := m.temper(x);
    }

    /** The numbers drawn one after the other are the tempered words one after the other. */
    method Draw(n: nat) returns (out: seq<W>)
      requires Valid() && mti <= NN
      modifies this, mt
      ensures Valid() && mti <= NN && init == old(init) && Next() == old(Next()) + n
      ensures out == Outputs(m, init, old(Next()), n)
    {
      out := [];
      ghost var start, k := Next(), 0;
      while |out| < n
        invariant Valid() && mti <= NN && k == |out| <= n && init == old(init) && Next() == start + k
        invariant out == Outputs(m, init, start, k)
      {
        var r := Genrand();
        out := out + [r];
        k := k + 1;
      }
    }
  }

  /** `n` tempered words, from word `start` on. */
  function Outputs<W>(m: Maker<W>, init: seq<W>, start: nat, n: nat): (out: seq<W>)
    requires |init| == NN
    ensures |out| == n
  {
    if n == 0 then [] else Outputs(m, init, start, n - 1) + [m.temper(Term(m, init, start + n - 1))]
  }

  lemma {:induction false} OutputIs<W>(m: Maker<W>, init: seq<W>, start: nat, n: nat, k: nat)
    requires |init| == NN && k < n
    ensures Outputs(m, init, start, n)[k] == m.temper(Term(m, init, start + k))
  {
    if k < n - 1 {
      OutputIs(m, init, start, n - 1, k);
    }
  }

  lemma OutputsAfter<W>(m: Maker<W>, init: seq<W>, start: nat, n: nat)
    requires |init| == NN && n > 0
    ensures Outputs(m, init, start, n) == [m.temper(Term(m, init, start))] + Outputs(m, init, start + 1, n - 1)
  {
    var all, rest := Outputs(m, init, start, n), Outputs(m, init, start + 1, n - 1);
    forall k | 0 <= k < n ensures all[k] == ([m.temper(Term(m, init, start))] + rest)[k] {
      OutputIs(m, init, start, n, k);
      if k > 0 {
        OutputIs(m, init, start + 1, n - 1, k - 1);
      }
    }
  }

  lemma SeedIsStart<W>(m: Maker<W>, init: seq<W>, s: seq<W>)
    requires |init| == NN && s == init
    ensures MixedFrom(s, Sequence(m, init), 0, 0)
  {
  }
}
