/**
 64-bit words as their bits, least significant first, with the operations of the Mersenne Twister.
 */
module Words {

  type Word = w: seq<bool> | |w| == 64 witness seq(64, _ => false)

  function Zero(): Word {
    seq(64, _ => false)
  }

  function Ones(): Word {
    seq(64, _ => true)
  }

  function Xor(a: Word, b: Word): Word {
    seq(64, i requires 0 <= i < 64 => a[i] != b[i])
  }

  function And(a: Word, b: Word): Word {
    seq(64, i requires 0 <= i < 64 => a[i] && b[i])
  }

  function Or(a: Word, b: Word): Word {
    seq(64, i requires 0 <= i < 64 => a[i] || b[i])
  }

  function Shr(a: Word, k: nat): Word {
    seq(64, i requires 0 <= i < 64 => i + k < 64 && a[i + k])
  }

  function Shl(a: Word, k: nat): Word {
    seq(64, i requires 0 <= i < 64 => i >= k && a[i - k])
  }

  // ------------------------------------------------------------------ numbers

  function Pow2(k: nat): (p: nat)
    ensures p > 0
  {
    if k == 0 then 1 else 2 * Pow2(k - 1)
  }

  /** The lowest `len` bits of a number. */
  function Bits(n: nat, len: nat): (w: seq<bool>)
    ensures |w| == len
  {
    if len == 0 then [] else [n % 2 == 1] + Bits(n / 2, len - 1)
  }

  function Value(w: seq<bool>): nat {
    if w == [] then 0 else (if w[0] then 1 else 0) + 2 * Value(w[1..])
  }

  /** The word of a number, as unsigned arithmetic truncates it. */
  function FromNat(n: nat): Word {
    Bits(n, 64)
  }

  /** What is left of a number above its lowest `len` bits. */
  function Above(n: nat, len: nat): nat {
    if len == 0 then n else Above(n / 2, len - 1)
  }

  /** So a word of a number has its value modulo a power of two. */
  lemma {:induction false} BitsWrap(n: nat, len: nat)
    ensures n == Above(n, len) * Pow2(len) + Value(Bits(n, len)) && Value(Bits(n, len)) < Pow2(len)
  {
    if len > 0 {
      BitsWrap(n / 2, len - 1);
      var rest := Bits(n / 2, len - 1);
      assert Bits(n, len)[1..] == rest;
      Doubled(n, n / 2, n % 2, Above(n, len), Pow2(len - 1), Value(rest));
    }
  }

  lemma Doubled(n: nat, half: nat, bit: nat, high: nat, p: nat, v: nat)
    requires n == 2 * half + bit && half == high * p + v
    ensures n == high * (2 * p) + (bit + 2 * v)
  {
    assert high * (2 * p) == 2 * (high * p);
  }

  lemma {:induction false} Pow2Add(a: nat, b: nat)
    ensures Pow2(a + b) == Pow2(a) * Pow2(b)
  {
    if b > 0 {
      Pow2Add(a, b - 1);
      assert 2 * (Pow2(a) * Pow2(b - 1)) == Pow2(a) * (2 * Pow2(b - 1));
    }
  }

  lemma RemainderIs(n: nat, a: nat, v: nat)
    requires n == a * 0x1_0000_0000_0000_0000 + v && v < 0x1_0000_0000_0000_0000
    ensures v == n % 0x1_0000_0000_0000_0000
  {
  }

  lemma BitsRemainder(n: nat, len: nat)
    requires Pow2(len) == 0x1_0000_0000_0000_0000
    ensures Value(Bits(n, len)) == n % 0x1_0000_0000_0000_0000
  {
    BitsWrap(n, len);
    RemainderIs(n, Above(n, len), Value(Bits(n, len)));
  }

  /** A word has the value of its number modulo 2^64. */
  lemma ValueOfNat(n: nat)
    ensures Value(FromNat(n)) == n % 0x1_0000_0000_0000_0000
  {
    Pow2Values();
    BitsRemainder(n, 64);
  }

  lemma {:induction false} BitsOfValue(w: seq<bool>)
    ensures Value(w) < Pow2(|w|) && Bits(Value(w), |w|) == w
  {
    if w != [] {
      BitsOfValue(w[1..]);
      assert w == [w[0]] + w[1..];
    }
  }

  /** The value of a word, its lowest `k` bits apart. */
  lemma {:induction false} ValueSplit(w: seq<bool>, k: nat)
    requires k <= |w|
    ensures Value(w) == Value(w[k..]) * Pow2(k) + Value(w[..k])
  {
    if k == 0 {
      assert w[..0] == [] && w[0..] == w;
    } else {
      var rest := w[1..];
      ValueSplit(rest, k - 1);
      assert w[..k][1..] == rest[..k - 1] && w[k..] == rest[k - 1..];
      var bit := if w[0] then 1 else 0;
      assert Value(w) == bit + 2 * Value(rest) && Value(w[..k]) == bit + 2 * Value(rest[..k - 1]);
      Doubled(Value(w), Value(rest), bit, Value(w[k..]), Pow2(k - 1), Value(rest[..k - 1]));
    }
  }

  lemma ValueOfTwo(w: seq<bool>)
    requires |w| == 2
    ensures Value(w) == (if w[0] then 1 else 0) + (if w[1] then 2 else 0)
  {
    var rest := w[1..];
    assert rest[1..] == [] && Value(rest) == (if rest[0] then 1 else 0) + 2 * Value(rest[1..]);
  }

  lemma Pow2Values()
    ensures Pow2(31) == 0x8000_0000 && Pow2(64) == 0x1_0000_0000_0000_0000
  {
    assert Pow2(4) == 16;
    Pow2Add(4, 4);
    Pow2Add(8, 8);
    Pow2Add(16, 16);
    Pow2Add(32, 32);
    assert Pow2(32) == 2 * Pow2(31);
  }

  lemma {:induction false} NoBits(len: nat, j: nat)
    requires j < len
    ensures !Bits(0, len)[j]
  {
    if j > 0 {
      NoBits(len - 1, j - 1);
    }
  }

  /** The low `k` bits. */
  lemma {:induction false} LowBits(k: nat, len: nat, j: nat)
    requires j < len
    ensures Bits(Pow2(k) - 1, len)[j] <==> j < k
  {
    if k == 0 {
      NoBits(len, j);
    } else {
      assert Pow2(k) - 1 == 2 * (Pow2(k - 1) - 1) + 1;
      if j > 0 {
        LowBits(k - 1, len - 1, j - 1);
      }
    }
  }

  lemma {:induction false} Pow2Order(k: nat, len: nat)
    requires k <= len
    ensures Pow2(k) <= Pow2(len)
  {
    if k < len {
      Pow2Order(k, len - 1);
    }
  }

  /** All bits from the `k`th on. */
  lemma {:induction false} HighBits(k: nat, len: nat, j: nat)
    requires k <= len && j < len
    ensures Pow2(k) <= Pow2(len) && (Bits(Pow2(len) - Pow2(k), len)[j] <==> j >= k)
  {
    Pow2Order(k, len);
    if k == 0 {
      LowBits(len, len, j);
    } else {
      Pow2Order(k - 1, len - 1);
      assert Pow2(len) - Pow2(k) == 2 * (Pow2(len - 1) - Pow2(k - 1));
      if j > 0 {
        HighBits(k - 1, len - 1, j - 1);
      }
    }
  }

  // ------------------------------------------------------------------ xor with a masked shift

  function XorShr(x: Word, k: nat, m: Word): Word {
    Xor(x, And(Shr(x, k), m))
  }

  function XorShl(x: Word, k: nat, m: Word): Word {
    Xor(x, And(Shl(x, k), m))
  }

  /** Bit `i` of the word that `XorShr` takes to `y`: known from the top down. */
  predicate BitBelow(y: Word, k: nat, m: Word, i: nat)
    requires k > 0 && i < 64
    decreases 64 - i
  {
    y[i] != (i + k < 64 && m[i] && BitBelow(y, k, m, i + k))
  }

  predicate BitAbove(y: Word, k: nat, m: Word, i: nat)
    requires k > 0 && i < 64
    decreases i
  {
    y[i] != (i >= k && m[i] && BitAbove(y, k, m, i - k))
  }

  function UnxorShr(y: Word, k: nat, m: Word): Word
    requires k > 0
  {
    seq(64, i requires 0 <= i < 64 => BitBelow(y, k, m, i))
  }

  function UnxorShl(y: Word, k: nat, m: Word): Word
    requires k > 0
  {
    seq(64, i requires 0 <= i < 64 => BitAbove(y, k, m, i))
  }

  lemma {:induction false} BelowIs(x: Word, k: nat, m: Word, i: nat)
    requires k > 0 && i < 64
    ensures BitBelow(XorShr(x, k, m), k, m, i) == x[i]
    decreases 64 - i
  {
    if i + k < 64 {
      BelowIs(x, k, m, i + k);
    }
  }

  lemma {:induction false} AboveIs(x: Word, k: nat, m: Word, i: nat)
    requires k > 0 && i < 64
    ensures BitAbove(XorShl(x, k, m), k, m, i) == x[i]
    decreases i
  {
    if i >= k {
      AboveIs(x, k, m, i - k);
    }
  }

  /** Whatever the mask, xor with a masked shift is a bijection. */
  lemma XorShrBijective(x: Word, k: nat, m: Word)
    requires k > 0
    ensures UnxorShr(XorShr(x, k, m), k, m) == x && XorShr(UnxorShr(x, k, m), k, m) == x
  {
    forall i | 0 <= i < 64 ensures UnxorShr(XorShr(x, k, m), k, m)[i] == x[i] {
      BelowIs(x, k, m, i);
    }
  }

  lemma XorShlBijective(x: Word, k: nat, m: Word)
    requires k > 0
    ensures UnxorShl(XorShl(x, k, m), k, m) == x && XorShl(UnxorShl(x, k, m), k, m) == x
  {
    forall i | 0 <= i < 64 ensures UnxorShl(XorShl(x, k, m), k, m)[i] == x[i] {
      AboveIs(x, k, m, i);
    }
  }
}
