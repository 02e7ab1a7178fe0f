/**
  Bit-level operations on naturals, as C applies them to unsigned values that do not overflow.
  Shifts are repeated doubling and halving, so that their laws need no multiplication.
 */
module Bits {

  type Byte = b: nat | b < 256

  function Zeros(n: nat): (s: seq<Byte>)
    ensures |s| == n
  {
    seq(n, _ => 0)
  }

  function Pow2(n: nat): (p: nat)
    ensures p > 0
  {
    if n == 0 then 1 else 2 * Pow2(n - 1)
  }

  /** Bit `i` of `v`, counting from the least significant one. */
  function Bit(v: nat, i: nat): nat {
    if i == 0 then v % 2 else Bit(v / 2, i - 1)
  }

  /** The C operators `v << n` (without overflow) and `v >> n`. */
  function Shl(v: nat, n: nat): nat {
    if n == 0 then v else 2 * Shl(v, n - 1)
  }

  function Shr(v: nat, n: nat): nat {
    if n == 0 then v else Shr(v, n - 1) / 2
  }

  /** The low `n` bits of `v`. */
  function Low(v: nat, n: nat): nat {
    if n == 0 then 0 else v % 2 + 2 * Low(v / 2, n - 1)
  }

  /** The C operators `a & b` and `a | b`. */
  function And(a: nat, b: nat): nat {
    if a == 0 || b == 0 then 0 else (if a % 2 == 1 && b % 2 == 1 then 1 else 0) + 2 * And(a / 2, b / 2)
  }

  function Or(a: nat, b: nat): nat
    decreases a + b
  {
    if a == 0 then b else if b == 0 then a
    else (if a % 2 == 1 || b % 2 == 1 then 1 else 0) + 2 * Or(a / 2, b / 2)
  }

  /** The low `n` bits of `v` read lowest first as a number, the first bit read being the most significant. */
  function Rev(v: nat, n: nat): nat {
    if n == 0 then 0 else (if v % 2 == 1 then Pow2(n - 1) else 0) + Rev(v / 2, n - 1)
  }

  // ---------- shifts ----------

  lemma {:induction false} Pow2IsShl(n: nat)
    ensures Pow2(n) == Shl(1, n)
  {
    if n > 0 { Pow2IsShl(n - 1); }
  }

  lemma {:induction false} Pow2Mono(a: nat, b: nat)
    requires a <= b
    ensures Pow2(a) <= Pow2(b)
  {
    if a < b { Pow2Mono(a, b - 1); }
  }

  lemma Pow2Values()
    ensures Pow2(3) == 8 && Pow2(4) == 16 && Pow2(5) == 32 && Pow2(7) == 128 && Pow2(8) == 256 && Pow2(9) == 512
    ensures Pow2(12) == 4096 && Pow2(13) == 8192 && Pow2(15) == 32768 && Pow2(16) == 65536
  {
    assert Pow2(4) == 16;
    assert Pow2(8) == 256;
    assert Pow2(12) == 4096;
  }

  lemma {:induction false} ShlShl(v: nat, a: nat, b: nat)
    ensures Shl(Shl(v, a), b) == Shl(v, a + b)
  {
    if b > 0 { ShlShl(v, a, b - 1); }
  }

  lemma {:induction false} ShlHalf(v: nat, n: nat)
    ensures Shl(2 * v, n) == 2 * Shl(v, n)
  {
    if n > 0 { ShlHalf(v, n - 1); }
  }

  lemma {:induction false} ShlSum(a: nat, b: nat, n: nat)
    ensures Shl(a + b, n) == Shl(a, n) + Shl(b, n)
  {
    if n > 0 { ShlSum(a, b, n - 1); }
  }

  lemma {:induction false} ShlMono(a: nat, b: nat, n: nat)
    requires a <= b
    ensures Shl(a, n) <= Shl(b, n)
  {
    if n > 0 { ShlMono(a, b, n - 1); }
  }

  lemma {:induction false} ShlBelow(v: nat, m: nat, n: nat)
    requires v < Pow2(m)
    ensures Shl(v, n) < Pow2(m + n)
  {
    if n > 0 { ShlBelow(v, m, n - 1); }
  }

  lemma {:induction false} ShrHalf(v: nat, n: nat)
    ensures Shr(v / 2, n) == Shr(v, n) / 2 == Shr(v, n + 1)
  {
    if n > 0 { ShrHalf(v, n - 1); }
  }

  lemma {:induction false} ShrBelow(v: nat, n: nat)
    ensures Shr(v, n) <= v
  {
    if n > 0 { ShrBelow(v, n - 1); }
  }

  lemma {:induction false} ShrOfSmall(v: nat, n: nat)
    requires v < Pow2(n)
    ensures Shr(v, n) == 0
  {
    if n > 0 {
      ShrOfSmall(v / 2, n - 1);
      ShrHalf(v, n - 1);
    }
  }

  /** The quotient by 2^n compares with `t` as the number compares with `t << n`. */
  lemma {:induction false} ShrCompare(v: nat, n: nat, t: nat)
    ensures v < Shl(t, n) <==> Shr(v, n) < t
  {
    if n > 0 {
      ShrCompare(v / 2, n - 1, t);
      ShrHalf(v, n - 1);
    }
  }

  /** A number is its low part plus its shifted high part. */
  lemma {:induction false} LowHigh(v: nat, n: nat)
    ensures v == Low(v, n) + Shl(Shr(v, n), n) && Low(v, n) < Pow2(n)
  {
    if n > 0 {
      LowHigh(v / 2, n - 1);
      ShrHalf(v, n - 1);
    }
  }

  lemma {:induction false} LowOfSmall(v: nat, n: nat)
    requires v < Pow2(n)
    ensures Low(v, n) == v
  {
    if n > 0 { LowOfSmall(v / 2, n - 1); }
  }

  /** Adding multiples of 2^n above a low part does not change either of them. */
  lemma {:induction false} LowOfSum(a: nat, b: nat, n: nat)
    requires a < Pow2(n)
    ensures Low(a + Shl(b, n), n) == a && Shr(a + Shl(b, n), n) == b
  {
    if n > 0 {
      LowOfSum(a / 2, b, n - 1);
      assert (a + Shl(b, n)) / 2 == a / 2 + Shl(b, n - 1);
      ShrHalf(a + Shl(b, n), n - 1);
    }
  }

  // ---------- single bits ----------

  lemma {:induction false} BitIsBinary(v: nat, i: nat)
    ensures Bit(v, i) == 0 || Bit(v, i) == 1
  {
    if i > 0 { BitIsBinary(v / 2, i - 1); }
  }

  lemma {:induction false} BitOfShr(v: nat, n: nat, i: nat)
    ensures Bit(Shr(v, n), i) == Bit(v, n + i)
  {
    if n > 0 {
      ShrHalf(v, n - 1);
      BitOfShr(v / 2, n - 1, i);
    }
  }

  lemma {:induction false} BitOfShl(v: nat, n: nat, i: nat)
    ensures Bit(Shl(v, n), i) == if i < n then 0 else Bit(v, i - n)
  {
    if n > 0 && i > 0 { BitOfShl(v, n - 1, i - 1); }
  }

  lemma {:induction false} BitOfLow(v: nat, n: nat, i: nat)
    ensures Bit(Low(v, n), i) == if i < n then Bit(v, i) else 0
  {
    if n == 0 { BitOfZero(i); } else if i > 0 { BitOfLow(v / 2, n - 1, i - 1); }
  }

  lemma {:induction false} BitOfZero(i: nat)
    ensures Bit(0, i) == 0
  {
    if i > 0 { BitOfZero(i - 1); }
  }

  lemma {:induction false} BitAbove(v: nat, n: nat, i: nat)
    requires v < Pow2(n) && n <= i
    ensures Bit(v, i) == 0
  {
    if n == 0 { BitOfZero(i); } else { BitAbove(v / 2, n - 1, i - 1); }
  }

  lemma {:induction false} BitOfAnd(a: nat, b: nat, i: nat)
    ensures Bit(And(a, b), i) == if Bit(a, i) == 1 && Bit(b, i) == 1 then 1 else 0
  {
    BitOfZero(i);
    if a != 0 && b != 0 && i > 0 { BitOfAnd(a / 2, b / 2, i - 1); }
  }

  lemma {:induction false} BitOfOr(a: nat, b: nat, i: nat)
    ensures Bit(Or(a, b), i) == if Bit(a, i) == 1 || Bit(b, i) == 1 then 1 else 0
  {
    BitOfZero(i);
    BitIsBinary(a, i);
    BitIsBinary(b, i);
    if a != 0 && b != 0 && i > 0 { BitOfOr(a / 2, b / 2, i - 1); }
  }

  /** Two values are equal when they have the same bits. */
  lemma {:induction false} SameBits(a: nat, b: nat, n: nat)
    requires a < Pow2(n) && b < Pow2(n)
    requires forall i: nat :: i < n ==> Bit(a, i) == Bit(b, i)
    ensures a == b
  {
    if n > 0 {
      forall i: nat | i < n - 1 ensures Bit(a / 2, i) == Bit(b / 2, i) {
        assert Bit(a, i + 1) == Bit(b, i + 1);
      }
      SameBits(a / 2, b / 2, n - 1);
      assert Bit(a, 0) == Bit(b, 0);
    }
  }

  // ---------- masks ----------

  lemma {:induction false} AndBelow(a: nat, b: nat, n: nat)
    requires b < Pow2(n)
    ensures And(a, b) < Pow2(n)
  {
    if a != 0 && b != 0 && n > 0 { AndBelow(a / 2, b / 2, n - 1); }
  }

  lemma {:induction false} OrBelow(a: nat, b: nat, n: nat)
    requires a < Pow2(n) && b < Pow2(n)
    ensures Or(a, b) < Pow2(n)
  {
    if a != 0 && b != 0 && n > 0 { OrBelow(a / 2, b / 2, n - 1); }
  }

  lemma {:induction false} OrCommutes(a: nat, b: nat)
    ensures Or(a, b) == Or(b, a)
    decreases a + b
  {
    if a != 0 && b != 0 { OrCommutes(a / 2, b / 2); }
  }

  /** Masking with `(1 << n) - 1` keeps the low bits. */
  lemma {:induction false} AndMask(v: nat, n: nat)
    ensures And(v, Pow2(n) - 1) == Low(v, n)
  {
    if n > 0 {
      AndMask(v / 2, n - 1);
      if v == 0 { LowOfSmall(0, n); }
    }
  }

  /** Masking with a single bit tests it. */
  lemma {:induction false} AndSingleBit(v: nat, n: nat)
    ensures And(v, Pow2(n)) != 0 <==> Bit(v, n) == 1
  {
    if n > 0 {
      AndSingleBit(v / 2, n - 1);
      if v == 0 { BitOfZero(n); }
    } else {
      assert And(v / 2, 0) == 0;
    }
  }

  /** `a | (b << n)` is a sum when `a` fits in `n` bits. */
  lemma {:induction false} OrIsSum(a: nat, b: nat, n: nat)
    requires a < Pow2(n)
    ensures Or(a, Shl(b, n)) == a + Shl(b, n)
  {
    if n > 0 && a != 0 && Shl(b, n) != 0 { OrIsSum(a / 2, b, n - 1); }
  }

  // ---------- reading bits first to last ----------

  lemma {:induction false} RevBelow(v: nat, n: nat)
    ensures Rev(v, n) < Pow2(n)
  {
    if n > 0 { RevBelow(v / 2, n - 1); }
  }

  /** Reading one more bit doubles the number read so far and adds the bit. */
  lemma {:induction false} RevStep(v: nat, n: nat)
    ensures Rev(v, n + 1) == 2 * Rev(v, n) + Bit(v, n)
  {
    if n > 0 { RevStep(v / 2, n - 1); }
  }

  /** The first `n` of `m` bits read are the leading digits of all `m` of them. */
  lemma {:induction false} RevPrefix(v: nat, n: nat, m: nat)
    requires n <= m
    ensures Shr(Rev(v, m), m - n) == Rev(v, n)
  {
    if n < m {
      RevPrefix(v, n, m - 1);
      RevStep(v, m - 1);
      BitIsBinary(v, m - 1);
      assert Rev(v, m) / 2 == Rev(v, m - 1);
      ShrHalf(Rev(v, m), m - 1 - n);
    }
  }

  lemma {:induction false} BitOfRev(v: nat, n: nat, i: nat)
    requires i < n
    ensures Bit(Rev(v, n), i) == Bit(v, n - 1 - i)
  {
    RevStep(v, n - 1);
    BitIsBinary(v, n - 1);
    if i > 0 {
      BitOfRev(v, n - 1, i - 1);
      assert Rev(v, n) / 2 == Rev(v, n - 1);
    }
  }

  lemma RevRev(v: nat, n: nat)
    requires v < Pow2(n)
    ensures Rev(Rev(v, n), n) == v
  {
    var r := Rev(v, n);
    forall i: nat | i < n ensures Bit(Rev(r, n), i) == Bit(v, i) {
      BitOfRev(r, n, i);
      BitOfRev(v, n, n - 1 - i);
    }
    RevBelow(r, n);
    SameBits(Rev(r, n), v, n);
  }

  /** Only the low `n` bits matter. */
  lemma {:induction false} RevOfLow(v: nat, n: nat)
    ensures Rev(Low(v, n), n) == Rev(v, n)
  {
    if n > 0 { RevOfLow(v / 2, n - 1); }
  }

  // ---------- remainders ----------

  lemma QuotientUnique(x: nat, m: nat, q: nat, r: nat)
    requires r < m && x == q * m + r
    ensures x % m == r
  {
    var d := q - x / m;
    assert d * m == q * m - (x / m) * m == x % m - r;
  }
}
