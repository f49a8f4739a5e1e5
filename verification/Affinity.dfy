/**
 CPU affinities: a set of CPUs packed into words, and the mapping of logical CPU numbers to the
 CPUs of a node.
 */
module Affinity {
  import opened Words

  // ------------------------------------------------------------------ bit sets

  /** Bits past the end read as zero. */
  predicate At(bits: seq<bool>, n: nat) {
    n < |bits| && bits[n]
  }

  /** How many bits are set before bit `k`. */
  function Rank(bits: seq<bool>, k: nat): nat {
    if k == 0 then 0 else Rank(bits, k - 1) + if At(bits, k - 1) then 1 else 0
  }

  lemma {:induction false} RankOrder(bits: seq<bool>, j: nat, k: nat)
    requires j <= k
    ensures Rank(bits, j) <= Rank(bits, k)
    ensures j < k && At(bits, j) ==> Rank(bits, j) < Rank(bits, k)
  {
    if j < k {
      RankOrder(bits, j, k - 1);
    }
  }

  lemma {:induction false} RankFlat(bits: seq<bool>, j: nat, k: nat)
    requires j <= k && forall i :: j <= i < k ==> !At(bits, i)
    ensures Rank(bits, j) == Rank(bits, k)
  {
    if j < k {
      RankFlat(bits, j, k - 1);
    }
  }

  /** Setting a bit that was not set. */
  lemma {:induction false} RankSet(bits: seq<bool>, x: nat, k: nat)
    requires x < |bits| && !bits[x]
    ensures Rank(bits[x := true], k) == Rank(bits, k) + if x < k then 1 else 0
  {
    if k > 0 {
      RankSet(bits, x, k - 1);
    }
  }

  // ------------------------------------------------------------------ packed into words

  function One(): Word {
    seq(64, i => i == 0)
  }

  function Not(w: Word): Word {
    seq(64, i requires 0 <= i < 64 => !w[i])
  }

  lemma OrBit(w: Word, k: nat)
    requires k < 64
    ensures Or(w, Shl(One(), k)) == w[k := true]
  {
  }

  lemma AndNotBit(w: Word, k: nat)
    requires k < 64
    ensures And(w, Not(Shl(One(), k))) == w[k := false]
  {
  }

  lemma ShrBit(w: Word, k: nat)
    requires k < 64
    ensures And(Shr(w, k), One()) == One() <==> w[k]
  {
    assert And(Shr(w, k), One())[0] == w[k] && One()[0];
  }

  class Bitmask {
    const size: nat
    const maskp: array<Word>

    predicate Valid()
      reads this
    {
      maskp.Length == (size + 63) / 64
    }

    /** The set as bits. */
    ghost function Bits(): seq<bool>
      requires Valid()
      reads this, maskp
    {
      seq(size, n requires 0 <= n < size && maskp.Length == (size + 63) / 64 reads maskp => maskp[n / 64][n % 64])
    }

    constructor (n: nat)
      ensures Valid() && size == n && fresh(maskp) && Bits() == seq(n, _ => false)
    {
      size := n;
      maskp := new Word[(n + 63) / 64](_ => Zero());
    }

    method GetBit(n: nat) returns (b: bool)
      requires Valid()
      ensures b == At(Bits(), n)
    {
      if n < size {
        ShrBit(maskp[n / 64], n % 64);
        b := And(Shr(maskp[n / 64], n % 64), One()) == One();
      } else {
        b := false;
      }
    }

    method SetBit(n: nat, v: bool)
      requires Valid()
      modifies maskp
      ensures Bits() == if n < size then old(Bits())[n := v] else old(Bits())
    {
      if n < size {
        if v {
          OrBit(maskp[n / 64], n % 64);
          maskp[n / 64] := Or(maskp[n / 64], Shl(One(), n % 64));
        } else {
          AndNotBit(maskp[n / 64], n % 64);
          maskp[n / 64] := And(maskp[n / 64], Not(Shl(One(), n % 64)));
        }
      }
    }

    method Weight() returns (w: nat)
      requires Valid()
      ensures w == Rank(Bits(), size)
    {
      w := 0;
      var i := 0;
      while i < size
        invariant 0 <= i <= size && w == Rank(Bits(), i)
      {
        var b := GetBit(i);
        if b {
          w := w + 1;
        }
        i := i + 1;
      }
    }
  }

  // ------------------------------------------------------------------ logical to actual CPUs

  const CPU_BITS := 64

  /** The set of CPUs, or the error of setting a bit the fixed-size set does not have. */
  datatype Outcome = Cpus(bits: seq<bool>) | OutOfRange

  /** CPU `a` is asked for: it belongs to the node and its number among the node's CPUs is in the
      logical set. */
  predicate Chosen(mask: seq<bool>, logical: seq<bool>, a: nat) {
    At(mask, a) && At(logical, Rank(mask, a))
  }

  /** The next logical CPU from `l` on. */
  method NextLogical(logical: seq<bool>, start: nat) returns (l: nat)
    requires start <= |logical|
    ensures start <= l <= |logical| && (l < |logical| ==> logical[l])
    ensures forall k :: start <= k < l ==> !At(logical, k)
  {
    l := start;
    while l < |logical|
      invariant start <= l <= |logical|
      invariant forall k :: start <= k < l ==> !At(logical, k)
    {
      if logical[l] {
        return;
      }
      l := l + 1;
    }
  }

  /** From CPU `a0` on, the CPU of the node whose number is `l`. */
  method SelectCpu(mask: Bitmask, limit: nat, l: nat, a0: nat, c0: nat) returns (found: bool, a: nat, c: nat)
    requires mask.Valid() && mask.size <= limit && a0 <= limit && c0 == Rank(mask.Bits(), a0) <= l
    ensures a0 <= a <= limit && c == Rank(mask.Bits(), if found then a + 1 else a)
    ensures if found then a < limit && At(mask.Bits(), a) && Rank(mask.Bits(), a) == l
            else a == limit && c <= l
  {
    a, c := a0, c0;
    while a < limit
      invariant a0 <= a <= limit && c == Rank(mask.Bits(), a) <= l
    {
      var b := mask.GetBit(a);
      if b {
        c := c + 1;
        if l == c - 1 {
          return true, a, c;
        }
      }
      a := a + 1;
    }
    return false, a, c;
  }

  /** Where the two cursors stand: CPUs before `a` are done, logical numbers before `l` are done, and
      no logical number from `c` to `l` is in the set. */
  ghost predicate Scanned(mask: seq<bool>, logical: seq<bool>, bits: seq<bool>, a: nat, l: nat, c: nat) {
    && |bits| == CPU_BITS == |logical| && c == Rank(mask, a) <= l <= CPU_BITS
    && (forall x :: 0 <= x < CPU_BITS ==> (bits[x] <==> x < a && Chosen(mask, logical, x)))
    && (forall x :: CPU_BITS <= x < a ==> !Chosen(mask, logical, x))
    && (forall k :: c <= k < l ==> !At(logical, k))
    && Rank(bits, CPU_BITS) == Rank(logical, l)
  }

  /** Moving on to the next logical number in the set. */
  lemma SkipLogical(mask: seq<bool>, logical: seq<bool>, bits: seq<bool>, a: nat, l: nat, c: nat, l': nat)
    requires Scanned(mask, logical, bits, a, l, c) && l <= l' <= CPU_BITS
    requires forall k :: l <= k < l' ==> !At(logical, k)
    ensures Scanned(mask, logical, bits, a, l', c)
  {
    RankFlat(logical, l, l');
  }

  /** The CPUs passed over on the way to the chosen one are not chosen. */
  lemma PassOver(mask: seq<bool>, logical: seq<bool>, bits: seq<bool>, a: nat, l: nat, c: nat, a': nat)
    requires Scanned(mask, logical, bits, a, l, c) && a <= a' && Rank(mask, a') <= l
    ensures forall x :: a <= x < a' ==> !Chosen(mask, logical, x)
    ensures Scanned(mask, logical, bits, a', l, Rank(mask, a'))
  {
  }

  lemma Choose(mask: seq<bool>, logical: seq<bool>, bits: seq<bool>, a: nat, l: nat, c: nat)
    requires Scanned(mask, logical, bits, a, l, c) && a < CPU_BITS && l < CPU_BITS
    requires At(mask, a) && c == l && At(logical, l)
    ensures Scanned(mask, logical, bits[a := true], a + 1, l + 1, c + 1)
  {
    RankSet(bits, a, CPU_BITS);
  }

  /** Once every logical number has been met, or every CPU, nothing is left to choose. */
  lemma NothingLeft(mask: seq<bool>, logical: seq<bool>, bits: seq<bool>, a: nat, l: nat, c: nat)
    requires Scanned(mask, logical, bits, a, l, c)
    requires Rank(logical, l) == Rank(logical, CPU_BITS) || |mask| <= a
    ensures forall x :: a <= x ==> !Chosen(mask, logical, x)
  {
    forall x | a <= x && Chosen(mask, logical, x) ensures false {
      var k := Rank(mask, x);
      RankOrder(mask, a, x);
      RankOrder(logical, l, k);
      RankOrder(logical, k, CPU_BITS);
    }
  }

  /** Every logical number in the set is the number of a CPU of the node. */
  ghost predicate Available(mask: seq<bool>, logical: seq<bool>) {
    forall k :: 0 <= k < |logical| && logical[k] ==> k < Rank(mask, |mask|)
  }

  /** The bits are the CPUs chosen, and as many as the logical set has if all of these are available. */
  ghost predicate Answers(mask: seq<bool>, logical: seq<bool>, bits: seq<bool>) {
    && |bits| == CPU_BITS
    && (forall x :: 0 <= x < CPU_BITS ==> (bits[x] <==> Chosen(mask, logical, x)))
    && (forall x :: CPU_BITS <= x ==> !Chosen(mask, logical, x))
    && (Available(mask, logical) ==> Rank(bits, CPU_BITS) == Rank(logical, CPU_BITS))
  }

  /** A node whose only CPU is number 64, and logical CPU 0: no 64 bits are an answer. */
  lemma FarCpu(bits: seq<bool>)
    ensures var mask, logical := seq(65, i => i == 64), seq(CPU_BITS, i => i == 0);
            Chosen(mask, logical, 64) && !Answers(mask, logical, bits)
  {
    var mask, logical := seq(65, i => i == 64), seq(CPU_BITS, i => i == 0);
    RankFlat(mask, 0, 64);
    assert Chosen(mask, logical, 64);
  }

  lemma ScanAnswers(mask: seq<bool>, logical: seq<bool>, bits: seq<bool>, a: nat, l: nat, c: nat)
    requires Scanned(mask, logical, bits, a, l, c)
    requires Rank(logical, l) == Rank(logical, CPU_BITS) || |mask| <= a
    ensures Answers(mask, logical, bits)
  {
    NothingLeft(mask, logical, bits, a, l, c);
    if Available(mask, logical) && |mask| <= a {
      RankFlat(mask, |mask|, a);
      RankFlat(logical, l, CPU_BITS);
    }
  }

  /** One turn: the next logical number, and the CPU with that number.  If there is no such number or
      no such CPU, none is found. */
  method Turn(logical: seq<bool>, mask: Bitmask, limit: nat, bits: seq<bool>, a: nat, l: nat, c: nat)
      returns (found: bool, bits': seq<bool>, a': nat, l': nat, c': nat)
    requires mask.Valid() && mask.size <= limit && a <= limit && Scanned(mask.Bits(), logical, bits, a, l, c)
    ensures found && a' > CPU_BITS ==> Chosen(mask.Bits(), logical, a' - 1)
    ensures !found || a' <= CPU_BITS ==> Scanned(mask.Bits(), logical, bits', a', l', c') && a' <= limit
    ensures !found || a' <= CPU_BITS ==> Rank(logical, l') == Rank(logical, l) + if found then 1 else 0
    ensures !found ==> l' == CPU_BITS || a' == limit
  {
    ghost var m := mask.Bits();
    bits', a', c' := bits, a, c;
    l' := NextLogical(logical, l);
    SkipLogical(m, logical, bits, a, l, c, l');
    RankFlat(logical, l, l');
    if l' >= CPU_BITS {
      return false, bits', a', l', c';
    }
    found, a', c' := SelectCpu(mask, limit, l', a, c);
    PassOver(m, logical, bits, a, l', c, a');
    if found {
      if a' < CPU_BITS {
        Choose(m, logical, bits, a', l', c' - 1);
        bits' := bits[a' := true];
      }
      a', l' := a' + 1, l' + 1;
    }
  }

  method GetActualAffinities(logical: seq<bool>, mask: Bitmask) returns (r: Outcome)
    requires |logical| == CPU_BITS && mask.Valid() && Rank(logical, CPU_BITS) <= Rank(mask.Bits(), mask.size)
    ensures r.Cpus? ==> Answers(mask.Bits(), logical, r.bits)
    ensures r.OutOfRange? ==> exists x :: CPU_BITS <= x && Chosen(mask.Bits(), logical, x)
  {
    ghost var m := mask.Bits();
    var limit := 64 * mask.maskp.Length;
    var wanted := Rank(logical, CPU_BITS);
    var bits := seq(CPU_BITS, _ => false);
    RankFlat(bits, 0, CPU_BITS);
    var cnt, l, a, c, found := 0, 0, 0, 0, true;
    while cnt < wanted
      invariant 0 <= a <= limit && 0 <= l && 0 <= c && cnt == Rank(logical, l) <= wanted && Scanned(m, logical, bits, a, l, c)
      decreases wanted - cnt
    {
      found, bits, a, l, c := Turn(logical, mask, limit, bits, a, l, c);
      if found {
        if a > CPU_BITS {
          return OutOfRange;
        }
        cnt := cnt + 1;
      }
      RankOrder(logical, l, CPU_BITS);
      if !found || a >= limit {
        break;
      }
    }
    ScanAnswers(m, logical, bits, a, l, c);
    return Cpus(bits);
  }
}
