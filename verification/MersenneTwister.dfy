/**
 The 64-bit Mersenne Twister itself (Nishimura's MT19937-64 of 2004/9/29): its words, its constants
 and its tempering.
 */
module MersenneTwister {
  import opened Circular
  import opened Words
  import opened Twister

  const MATRIX_A := 0xB5026F5AA96619E9
  const UM := 0xFFFFFFFF80000000
  const LM := 0x7FFFFFFF
  const MASK29 := 0x5555555555555555
  const MASK17 := 0x71D67FFFEDA60000
  const MASK37 := 0xFFF7EEE000000000
  const SEED_FACTOR := 6364136223846793005
  const KEY_FACTOR := 3935559000370003845
  const INDEX_FACTOR := 2862933555777941757

  /** The upper bits of one word and the lower bits of another. */
  function Join(upper: Word, lower: Word): Word {
    Or(And(upper, FromNat(UM)), And(lower, FromNat(LM)))
  }

  /** The word that two neighbours and a later word give. */
  function Twist(upper: Word, lower: Word, later: Word): Word {
    var x := Join(upper, lower);
    Xor(Xor(later, Shr(x, 1)), if x[0] then FromNat(MATRIX_A) else Zero())
  }

  /** The masks keep the top 33 bits and the low 31 bits. */
  lemma JoinBits(upper: Word, lower: Word, j: nat)
    requires j < 64
    ensures Join(upper, lower)[j] == if j < 31 then lower[j] else upper[j]
  {
    Pow2Values();
    HighBits(31, 64, j);
    LowBits(31, 64, j);
  }

  /** Twisting, bit by bit: the joined word, moved down by one, is added to the later word, and so is
      the matrix if the joined word is odd. */
  lemma TwistBits(upper: Word, lower: Word, later: Word, matrix: nat, i: nat)
    requires matrix == 0xB5026F5AA96619E9 && i < 64
    ensures var moved := i < 63 && if i + 1 < 31 then lower[i + 1] else upper[i + 1];
            Twist(upper, lower, later)[i] == ((later[i] != moved) != (lower[0] && FromNat(matrix)[i]))
  {
    var x := Join(upper, lower);
    JoinBits(upper, lower, 0);
    if i < 63 {
      JoinBits(upper, lower, i + 1);
    }
    assert Shr(x, 1)[i] == (i < 63 && x[i + 1]);
  }

  /** A word stirred and multiplied. */
  function Stir(w: Word, factor: nat): nat {
    factor * Value(Xor(w, Shr(w, 62)))
  }

  function SeedNext(prev: Word, i: nat): Word {
    FromNat(Stir(prev, SEED_FACTOR) + i)
  }

  function MixKey(cur: Word, prev: Word, key: Word, j: nat): Word {
    FromNat(Value(Xor(cur, FromNat(Stir(prev, KEY_FACTOR)))) + Value(key) + j)
  }

  /** Subtraction wraps around at 2^64. */
  function Difference(x: nat, i: nat): nat {
    if x >= i then x - i else x + (0x1_0000_0000_0000_0000 - i % 0x1_0000_0000_0000_0000)
  }

  function MixIndex(cur: Word, prev: Word, i: nat): Word {
    FromNat(Difference(Value(Xor(cur, FromNat(Stir(prev, INDEX_FACTOR)))), i))
  }

  // ------------------------------------------------------------------ seeding in numbers

  /** The number of two bits. */
  function Two(b0: bool, b1: bool): nat {
    (if b0 then 1 else 0) + (if b1 then 2 else 0)
  }

  /** The exclusive or of two numbers below 4. */
  function XorTwo(a: nat, b: nat): nat {
    Two(a % 2 != b % 2, a / 2 != b / 2)
  }

  /** A number of 64 bits, its lowest two bits changed by its top two. */
  function Folded(v: nat): nat {
    v - v % 4 + XorTwo(v % 4, v / 0x4000_0000_0000_0000)
  }

  lemma LowTwo(w: Word)
    ensures Value(w) == Two(w[0], w[1]) + 4 * Value(w[2..]) && Value(w) % 4 == Two(w[0], w[1])
  {
    ValueSplit(w, 2);
    ValueOfTwo(w[..2]);
    assert Pow2(2) == 4;
  }

  lemma QuotientIs(v: nat, low: nat, high: nat)
    requires v == low + 0x4000_0000_0000_0000 * high && low < 0x4000_0000_0000_0000
    ensures v / 0x4000_0000_0000_0000 == high
  {
  }

  lemma TopTwo(w: Word)
    ensures Value(w) / 0x4000_0000_0000_0000 == Two(w[62], w[63])
  {
    ValueSplit(w, 62);
    BitsOfValue(w[..62]);
    Pow2Values();
    assert Pow2(64) == 4 * Pow2(62);
    ValueOfTwo(w[62..]);
    QuotientIs(Value(w), Value(w[..62]), Value(w[62..]));
  }

  lemma XorTwoBits(a0: bool, a1: bool, b0: bool, b1: bool)
    ensures XorTwo(Two(a0, a1), Two(b0, b1)) == Two(a0 != b0, a1 != b1)
  {
  }

  lemma FoldedIs(w: Word)
    ensures Value(Xor(w, Shr(w, 62))) == Folded(Value(w))
  {
    var x := Xor(w, Shr(w, 62));
    assert x[2..] == w[2..];
    assert x[0] == (w[0] != w[62]) && x[1] == (w[1] != w[63]);
    LowTwo(w);
    LowTwo(x);
    TopTwo(w);
    XorTwoBits(w[0], w[1], w[62], w[63]);
  }

  /** The next word of a seeded array, in numbers. */
  lemma SeedInNumbers(prev: Word, i: nat)
    ensures Value(SeedNext(prev, i)) == (6364136223846793005 * Folded(Value(prev)) + i) % 0x1_0000_0000_0000_0000
  {
    FoldedIs(prev);
    ValueOfNat(Stir(prev, SEED_FACTOR) + i);
  }

  /** The two mixes, in numbers. */
  lemma KeyInNumbers(cur: Word, prev: Word, key: Word, j: nat)
    ensures Value(MixKey(cur, prev, key, j))
            == (Value(Xor(cur, FromNat(3935559000370003845 * Folded(Value(prev))))) + Value(key) + j)
               % 0x1_0000_0000_0000_0000
  {
    FoldedIs(prev);
    ValueOfNat(Value(Xor(cur, FromNat(Stir(prev, KEY_FACTOR)))) + Value(key) + j);
  }

  lemma DifferenceIs(x: nat, i: nat)
    ensures Difference(x, i) % 0x1_0000_0000_0000_0000 == (x - i) % 0x1_0000_0000_0000_0000
  {
    if x < i {
      var p := 0x1_0000_0000_0000_0000;
      var q, r, k, v := i / p, i % p, (x - i) / p, (x - i) % p;
      assert i == p * q + r && x - i == p * k + v;
      assert x + (p - r) == (k + q + 1) * p + v;
      RemainderIs(x + (p - r), k + q + 1, v);
    }
  }

  lemma IndexInNumbers(cur: Word, prev: Word, i: nat)
    ensures Value(MixIndex(cur, prev, i))
            == (Value(Xor(cur, FromNat(2862933555777941757 * Folded(Value(prev))))) - i) % 0x1_0000_0000_0000_0000
  {
    FoldedIs(prev);
    var x := Value(Xor(cur, FromNat(Stir(prev, INDEX_FACTOR))));
    DifferenceIs(x, i);
    ValueOfNat(Difference(x, i));
  }

  lemma {:induction false} NoValue(w: seq<bool>)
    requires forall i {:trigger w[i]} :: 0 <= i < |w| ==> !w[i]
    ensures Value(w) == 0
  {
    if w != [] {
      NoValue(w[1..]);
    }
  }

  ghost predicate IsZero(w: Word) {
    forall i {:trigger w[i]} :: 0 <= i < 64 ==> !w[i]
  }

  /** After a zero word comes the index. */
  lemma AfterZero(w: Word, i: nat)
    requires IsZero(w)
    ensures SeedNext(w, i) == FromNat(i)
  {
    NoValue(Xor(w, Shr(w, 62)));
  }

  lemma NotZero(i: nat)
    requires 0 < i < NN
    ensures !IsZero(FromNat(i))
  {
    ValueOfNat(i);
    if IsZero(FromNat(i)) {
      NoValue(FromNat(i));
    }
  }

  /** Word `i` of an array seeded this way, given the word before it.  Two zero words never follow each
      other. */
  ghost predicate SeedStep(s: seq<Word>, i: nat) {
    && 0 < i < |s|
    && Value(s[i]) == (6364136223846793005 * Folded(Value(s[i - 1])) + i) % 0x1_0000_0000_0000_0000
    && (IsZero(s[i - 1]) ==> s[i] == FromNat(i) && !IsZero(s[i]))
  }

  lemma NextSeeded(prev: Word, i: nat)
    requires 0 < i < NN
    ensures IsZero(prev) ==> SeedNext(prev, i) == FromNat(i) && !IsZero(FromNat(i))
  {
    NotZero(i);
    if IsZero(prev) {
      AfterZero(prev, i);
    }
  }

  lemma SeededSteps(m: Maker<Word>, seed: Word, i: nat)
    requires m.seedNext == SeedNext && 0 < i < NN
    ensures SeedStep(SeedArray(m, seed), i)
  {
    var prev := Seeded(m, seed, i - 1);
    assert Seeded(m, seed, i) == SeedNext(prev, i);
    SeedInNumbers(prev, i);
    NextSeeded(prev, i);
  }

  lemma TopBits(one: nat, j: nat)
    requires one == 1 && j < 64
    ensures Shl(FromNat(one), 63)[j] <==> j == 63
  {
  }

  // ------------------------------------------------------------------ tempering

  function Temper(x: Word): Word {
    var a := XorShr(x, 29, FromNat(MASK29));
    var b := XorShl(a, 17, FromNat(MASK17));
    var c := XorShl(b, 37, FromNat(MASK37));
    XorShr(c, 43, Ones())
  }

  function Untemper(y: Word): Word {
    var c := UnxorShr(y, 43, Ones());
    var b := UnxorShl(c, 37, FromNat(MASK37));
    var a := UnxorShl(b, 17, FromNat(MASK17));
    UnxorShr(a, 29, FromNat(MASK29))
  }

  /** The first three steps of tempering, bit by bit, with these masks in the second and third. */
  predicate Bit29(x: Word, i: nat)
    requires i < 64
  {
    x[i] != (i < 35 && i % 2 == 0 && x[i + 29])
  }

  predicate Bit17(x: Word, mask: Word, i: nat)
    requires i < 64
  {
    Bit29(x, i) != (i >= 17 && mask[i] && Bit29(x, i - 17))
  }

  predicate Bit37(x: Word, mask: Word, mask': Word, i: nat)
    requires i < 64
  {
    Bit17(x, mask, i) != (i >= 37 && mask'[i] && Bit17(x, mask, i - 37))
  }

  /** 1, 5, 21, ...: every other bit. */
  function Evens(k: nat): nat {
    if k == 0 then 0 else 4 * Evens(k - 1) + 1
  }

  lemma {:induction false} EvensSum(k: nat)
    ensures 3 * Evens(k) + 1 == Pow2(2 * k)
  {
    if k > 0 {
      EvensSum(k - 1);
      assert Pow2(2 * k) == 4 * Pow2(2 * (k - 1));
    }
  }

  lemma BitsStep(n: nat, half: nat, odd: bool, len: nat)
    requires n == 2 * half + if odd then 1 else 0
    ensures Bits(n, len + 1) == [odd] + Bits(half, len)
  {
    assert n / 2 == half && (n % 2 == 1) == odd;
  }

  /** Two bits more. */
  lemma TwoMore(q: nat, len: nat)
    ensures Bits(4 * q + 1, len + 2) == [true, false] + Bits(q, len)
  {
    BitsStep(4 * q + 1, 2 * q, true, len + 1);
    BitsStep(2 * q, q, false, len);
    assert [true] + ([false] + Bits(q, len)) == [true, false] + Bits(q, len);
  }

  function Alternating(k: nat): (w: seq<bool>)
    ensures |w| == 2 * k
  {
    if k == 0 then [] else [true, false] + Alternating(k - 1)
  }

  lemma {:induction false} AlternatingAt(k: nat, i: nat)
    requires i < 2 * k
    ensures Alternating(k)[i] <==> i % 2 == 0
  {
    if i >= 2 {
      AlternatingAt(k - 1, i - 2);
    }
  }

  lemma {:induction false} EvensAlternate(k: nat)
    ensures Bits(Evens(k), 2 * k) == Alternating(k)
  {
    if k > 0 {
      EvensAlternate(k - 1);
      TwoMore(Evens(k - 1), 2 * (k - 1));
    }
  }

  lemma Mask29Bits(mask: nat, i: nat)
    requires mask == 0x5555555555555555 && i < 64
    ensures FromNat(mask)[i] <==> i % 2 == 0
  {
    Pow2Values();
    EvensSum(32);
    EvensAlternate(32);
    AlternatingAt(32, i);
  }

  lemma TemperStep(x: Word, m29: Word, i: nat)
    requires i < 64 && forall j {:trigger m29[j]} :: 0 <= j < 64 ==> (m29[j] <==> j % 2 == 0)
    ensures XorShr(x, 29, m29)[i] == Bit29(x, i)
  {
  }

  lemma TemperRest(x: Word, a: Word, m17: Word, m37: Word, i: nat)
    requires i < 64 && forall j {:trigger a[j]} :: 0 <= j < 64 ==> a[j] == Bit29(x, j)
    ensures XorShr(XorShl(XorShl(a, 17, m17), 37, m37), 43, Ones())[i]
            == (Bit37(x, m17, m37, i) != (i < 21 && Bit37(x, m17, m37, i + 43)))
  {
    var b := XorShl(a, 17, m17);
    assert forall j :: 0 <= j < 64 ==> b[j] == Bit17(x, m17, j);
    var c := XorShl(b, 37, m37);
    assert forall j :: 0 <= j < 64 ==> c[j] == Bit37(x, m17, m37, j);
  }

  /** Tempering, bit by bit. */
  lemma TemperBits(x: Word, mask: nat, mask': nat, i: nat)
    requires mask == 0x71D67FFFEDA60000 && mask' == 0xFFF7EEE000000000 && i < 64
    ensures var m17, m37 := FromNat(mask), FromNat(mask');
            Temper(x)[i] == (Bit37(x, m17, m37, i) != (i < 21 && Bit37(x, m17, m37, i + 43)))
  {
    var m29 := FromNat(MASK29);
    forall j | 0 <= j < 64 ensures m29[j] <==> j % 2 == 0 {
      Mask29Bits(MASK29, j);
    }
    var a := XorShr(x, 29, m29);
    forall j | 0 <= j < 64 ensures a[j] == Bit29(x, j) {
      TemperStep(x, m29, j);
    }
    TemperRest(x, a, FromNat(mask), FromNat(mask'), i);
  }

  lemma UntemperTemper(x: Word)
    ensures Untemper(Temper(x)) == x
  {
    var a := XorShr(x, 29, FromNat(MASK29));
    var b := XorShl(a, 17, FromNat(MASK17));
    var c := XorShl(b, 37, FromNat(MASK37));
    XorShrBijective(x, 29, FromNat(MASK29));
    XorShlBijective(a, 17, FromNat(MASK17));
    XorShlBijective(b, 37, FromNat(MASK37));
    XorShrBijective(c, 43, Ones());
  }

  lemma TemperUntemper(y: Word)
    ensures Temper(Untemper(y)) == y
  {
    var c := UnxorShr(y, 43, Ones());
    var b := UnxorShl(c, 37, FromNat(MASK37));
    var a := UnxorShl(b, 17, FromNat(MASK17));
    XorShrBijective(y, 43, Ones());
    XorShlBijective(c, 37, FromNat(MASK37));
    XorShlBijective(b, 17, FromNat(MASK17));
    XorShrBijective(a, 29, FromNat(MASK29));
  }

  // ------------------------------------------------------------------ the generator

  function Mt19937(): Maker<Word> {
    Maker(Twist, Temper, SeedNext, MixKey, MixIndex, FromNat(5489), FromNat(19650218), Shl(FromNat(1), 63))
  }

  /** For every seed: the array starts with the seed, and every word follows from the one before; no two
      words in a row are zero, so the array never is. */
  lemma StartsFrom(seed: Word, i: nat)
    requires 0 < i < 312
    ensures var s := SeedArray(Mt19937(), seed); |s| == 312 && s[0] == seed && SeedStep(s, i)
  {
    SeededSteps(Mt19937(), seed, i);
  }

  /** Seeding from an array gives 2^63 as the first word. */
  lemma ArrayStartsHigh(key: seq<Word>, j: nat)
    requires key != [] && j < 64
    ensures ByArray(Mt19937(), key)[0][j] <==> j == 63
  {
    TopBits(1, j);
  }

  /** The other words are those of the second pass over those of the first, over the array of seed
      19650218. */
  lemma ArrayGoesOn(key: seq<Word>, seed: nat, u: nat)
    requires key != [] && seed == 19650218 && u < 311
    ensures var k := if |key| < 312 then 312 else |key|;
            var first := KeyPass(Mt19937(), key, SeedArray(Mt19937(), FromNat(seed)), k);
            ByArray(Mt19937(), key)[1 + Slot(k + u, 311)] == Made(IndexMix(Mt19937()), first, k, u)
  {
    ByArrayMakes(Mt19937(), key, u);
  }

  /** The recurrence of the words, bit by bit. */
  lemma TermBits(init: seq<Word>, k: nat, matrix: nat, i: nat)
    requires |init| == 312 && matrix == 0xB5026F5AA96619E9 && i < 64
    ensures var x := Sequence(Mt19937(), init);
            var moved := i < 63 && if i + 1 < 31 then x(k + 1)[i + 1] else x(k)[i + 1];
            x(k + 312)[i] == ((x(k + 156)[i] != moved) != (x(k + 1)[0] && FromNat(matrix)[i]))
  {
    var x := Sequence(Mt19937(), init);
    SequenceFollows(Mt19937(), init, k);
    TwistBits(x(k), x(k + 1), x(k + 156), matrix, i);
  }

  /** The number after these, 312 further on than the first. */
  function Following(y0: Word, y1: Word, yM: Word): Word {
    Temper(Twist(Untemper(y0), Untemper(y1), Untemper(yM)))
  }

  lemma FollowingIs(a: Word, b: Word, c: Word)
    ensures Following(Temper(a), Temper(b), Temper(c)) == Temper(Twist(a, b, c))
  {
    UntemperTemper(a);
    UntemperTemper(b);
    UntemperTemper(c);
  }

  /** Because tempering loses nothing, 312 numbers in a row determine every later one. */
  lemma NumbersFollow(init: seq<Word>, k: nat)
    requires |init| == NN
    ensures var x := Sequence(Mt19937(), init);
            Temper(x(k + NN)) == Following(Temper(x(k)), Temper(x(k + 1)), Temper(x(k + MM)))
  {
    var x := Sequence(Mt19937(), init);
    SequenceFollows(Mt19937(), init, k);
    FollowingIs(x(k), x(k + 1), x(k + MM));
  }

  /** For every seed and every `n`: seed the generator and draw `n` numbers. */
  method SeedAndDraw(seed: Word, n: nat) returns (out: seq<Word>)
    ensures out == Outputs(Mt19937(), SeedArray(Mt19937(), seed), NN, n)
  {
    var g := new Generator(Mt19937());
    g.InitGenrand(seed);
    out := g.Draw(n);
  }

  /** A generator that was never seeded draws the numbers of seed 5489. */
  method DrawUnseeded(n: nat) returns (out: seq<Word>)
    requires n > 0
    ensures out == Outputs(Mt19937(), SeedArray(Mt19937(), FromNat(5489)), NN, n)
  {
    var g := new Generator(Mt19937());
    var r := g.Genrand();
    var rest := g.Draw(n - 1);
    out := [r] + rest;
    OutputsAfter(Mt19937(), g.init, NN, n);
  }
}
