/**
  The canonical Huffman decoder of the zlib reader: the table builder, the 9-bit fast table
  and the slow search, against the code assignment of section 3.2.2 of RFC 1951.
 */
module Huffman {
  import opened Bits

  const FAST_BITS: nat := 9
  const MAX_SYMBOLS: nat := 288

  /** Code lengths as the builder receives them: one per symbol, zero for an unused symbol. */
  ghost predicate ValidLens(lens: seq<nat>) {
    |lens| <= MAX_SYMBOLS && forall i :: 0 <= i < |lens| ==> lens[i] <= 15
  }

  // ---------- section 3.2.2: the code assigned to each symbol ----------

  /** How many of the first `n` symbols have code length `len`. */
  function CountUpTo(lens: seq<nat>, n: nat, len: nat): nat
    requires n <= |lens|
  {
    if n == 0 then 0 else CountUpTo(lens, n - 1, len) + if lens[n - 1] == len then 1 else 0
  }

  function Count(lens: seq<nat>, len: nat): nat {
    if len == 0 then 0 else CountUpTo(lens, |lens|, len)
  }

  /** The smallest code of length `len`. */
  function FirstCode(lens: seq<nat>, len: nat): nat {
    if len <= 1 then 0 else 2 * (FirstCode(lens, len - 1) + Count(lens, len - 1))
  }

  /** One more than the largest code of length `len`. */
  function TopCode(lens: seq<nat>, len: nat): nat {
    FirstCode(lens, len) + Count(lens, len)
  }

  /** Symbols of one length get consecutive codes in symbol order. */
  function Code(lens: seq<nat>, sym: nat): nat
    requires sym < |lens|
  {
    FirstCode(lens, lens[sym]) + CountUpTo(lens, sym, lens[sym])
  }

  /** The code of `sym`, most significant bit first, is a prefix of the bits of `w`, lowest bit first. */
  ghost predicate Assigned(lens: seq<nat>, sym: nat, w: nat) {
    sym < |lens| && lens[sym] > 0 && Rev(w, lens[sym]) == Code(lens, sym)
  }

  datatype Symbol = NoSymbol | Symbol(sym: nat, len: nat)

  ghost predicate CodeOf(lens: seq<nat>, sym: nat, len: nat, code: nat) {
    sym < |lens| && lens[sym] == len && Code(lens, sym) == code
  }

  ghost predicate HasCode(lens: seq<nat>, len: nat, code: nat) {
    exists sym: nat :: CodeOf(lens, sym, len, code)
  }

  ghost function SymbolWithCode(lens: seq<nat>, len: nat, code: nat): nat
    requires HasCode(lens, len, code)
  {
    var sym: nat :| CodeOf(lens, sym, len, code);
    sym
  }

  /**
    The decoder of the standard: `code` holds the `n` bits read so far; read one more bit and
    stop as soon as the bits read are some symbol's code.
   */
  ghost function BitByBit(lens: seq<nat>, w: nat, n: nat, code: nat): Symbol
    decreases 15 - n
  {
    if n >= 15 then NoSymbol
    else
      var code' := 2 * code + Bit(w, n);
      if HasCode(lens, n + 1, code') then Symbol(SymbolWithCode(lens, n + 1, code'), n + 1)
      else
        BitByBit(lens, w, n + 1, code')
  }

  // ---------- which length lists are accepted ----------

  ghost predicate CodesFit(first: nat, count: nat, len: nat) {
    count > 0 ==> first + count <= Pow2(len)
  }

  ghost predicate FitsAt(lens: seq<nat>, len: nat) {
    CodesFit(FirstCode(lens, len), Count(lens, len), len)
  }

  /** The builder's test: wherever a length is used, its codes fit in that many bits. */
  ghost predicate Fits(lens: seq<nat>) {
    forall len: nat :: 1 <= len <= 15 ==> FitsAt(lens, len)
  }

  /** The sum of 2^-len over the used symbols, scaled by 2^15. */
  function KraftSum(lens: seq<nat>, n: nat): nat
    requires n <= |lens| && forall i :: 0 <= i < n ==> lens[i] <= 15
  {
    if n == 0 then 0
    else KraftSum(lens, n - 1) + if lens[n - 1] == 0 then 0 else Pow2(15 - lens[n - 1])
  }

  /** The same sum taken length by length over the first `n` symbols. */
  function KraftByLength(lens: seq<nat>, n: nat, top: nat): nat
    requires n <= |lens| && top <= 15
  {
    if top == 0 then 0 else KraftByLength(lens, n, top - 1) + Shl(CountUpTo(lens, n, top), 15 - top)
  }

  lemma {:induction false} ShlOfZero(n: nat)
    ensures Shl(0, n) == 0
  {
    if n > 0 { ShlOfZero(n - 1); }
  }

  lemma {:induction false} KraftByLengthEmpty(lens: seq<nat>, top: nat)
    requires top <= 15
    ensures KraftByLength(lens, 0, top) == 0
  {
    if top > 0 {
      KraftByLengthEmpty(lens, top - 1);
      ShlOfZero(15 - top);
    }
  }

  lemma {:induction false} KraftByLengthStep(lens: seq<nat>, n: nat, top: nat)
    requires 0 < n <= |lens| && top <= 15
    ensures KraftByLength(lens, n, top)
         == KraftByLength(lens, n - 1, top) + if 1 <= lens[n - 1] <= top then Pow2(15 - lens[n - 1]) else 0
  {
    if top > 0 {
      KraftByLengthStep(lens, n, top - 1);
      ShlSum(CountUpTo(lens, n - 1, top), 1, 15 - top);
      Pow2IsShl(15 - top);
    }
  }

  lemma {:induction false} KraftSumByLength(lens: seq<nat>, n: nat)
    requires n <= |lens| && forall i :: 0 <= i < |lens| ==> lens[i] <= 15
    ensures KraftSum(lens, n) == KraftByLength(lens, n, 15)
  {
    if n == 0 {
      KraftByLengthEmpty(lens, 15);
    } else {
      KraftSumByLength(lens, n - 1);
      KraftByLengthStep(lens, n, 15);
    }
  }

  /** The codes of length at most `len` cover this much of the 15-bit code space, and they cover its start. */
  lemma {:induction false} TopCodeIsKraft(lens: seq<nat>, len: nat)
    requires len <= 15
    ensures Shl(TopCode(lens, len), 15 - len) == KraftByLength(lens, |lens|, len)
  {
    if len == 0 {
      ShlOfZero(15);
    } else {
      TopCodeIsKraft(lens, len - 1);
      ShlHalf(TopCode(lens, len - 1), 15 - len);
      ShlSum(FirstCode(lens, len), Count(lens, len), 15 - len);
    }
  }

  lemma {:induction false} KraftMono(lens: seq<nat>, a: nat, b: nat)
    requires a <= b <= 15
    ensures KraftByLength(lens, |lens|, a) <= KraftByLength(lens, |lens|, b)
    ensures (forall len :: a < len <= b ==> Count(lens, len) == 0) ==>
      KraftByLength(lens, |lens|, a) == KraftByLength(lens, |lens|, b)
  {
    if a < b {
      KraftMono(lens, a, b - 1);
      ShlOfZero(15 - b);
      assert Count(lens, b) == CountUpTo(lens, |lens|, b);
    }
  }

  lemma FullScale(len: nat)
    requires len <= 15
    ensures Shl(Pow2(len), 15 - len) == Pow2(15)
  {
    Pow2IsShl(len);
    ShlShl(1, len, 15 - len);
    Pow2IsShl(15);
  }

  lemma ScaleBack(t: nat, len: nat)
    requires len <= 15 && Shl(t, 15 - len) <= Pow2(15)
    ensures t <= Pow2(len)
  {
    FullScale(len);
    if t > Pow2(len) {
      ShlMono(Pow2(len) + 1, t, 15 - len);
      ShlSum(Pow2(len), 1, 15 - len);
      Pow2IsShl(15 - len);
    }
  }

  lemma KraftImpliesFits(lens: seq<nat>, len: nat)
    requires 1 <= len <= 15 && KraftByLength(lens, |lens|, 15) <= Pow2(15)
    ensures FitsAt(lens, len)
  {
    TopCodeIsKraft(lens, len);
    KraftMono(lens, len, 15);
    ScaleBack(TopCode(lens, len), len);
  }

  lemma {:induction false} FitsImpliesKraft(lens: seq<nat>, len: nat)
    requires ValidLens(lens) && Fits(lens) && len <= 15
    ensures KraftByLength(lens, |lens|, len) <= Pow2(15)
  {
    if len > 0 {
      if Count(lens, len) == 0 {
        FitsImpliesKraft(lens, len - 1);
        KraftMono(lens, len - 1, len);
      } else {
        assert FitsAt(lens, len);
        TopCodeIsKraft(lens, len);
        FullScale(len);
        ShlMono(TopCode(lens, len), Pow2(len), 15 - len);
      }
    }
  }

  /** A length list is accepted exactly when it satisfies the Kraft inequality. */
  lemma AcceptedIffKraft(lens: seq<nat>)
    requires ValidLens(lens)
    ensures Fits(lens) <==> KraftSum(lens, |lens|) <= Pow2(15)
  {
    KraftSumByLength(lens, |lens|);
    if Fits(lens) { FitsImpliesKraft(lens, 15); }
    if KraftSum(lens, |lens|) <= Pow2(15) {
      forall len: nat | 1 <= len <= 15 ensures FitsAt(lens, len) {
        KraftImpliesFits(lens, len);
      }
    }
  }

  // ---------- where codes lie in the 16-bit window space ----------

  /** Windows, read first bit first, below this bound start with a code of length at most `len`. */
  function Bound(lens: seq<nat>, len: nat): nat
    requires len <= 16
  {
    Shl(TopCode(lens, len), 16 - len)
  }

  lemma BoundStep(lens: seq<nat>, len: nat)
    requires 1 <= len <= 15
    ensures Shl(FirstCode(lens, len), 16 - len) == Bound(lens, len - 1) <= Bound(lens, len)
  {
    if len == 1 { ShlOfZero(15); ShlOfZero(16); }
    ShlHalf(TopCode(lens, len - 1), 16 - len);
    ShlMono(FirstCode(lens, len), TopCode(lens, len), 16 - len);
  }

  lemma {:induction false} BoundMono(lens: seq<nat>, a: nat, b: nat)
    requires a <= b <= 15
    ensures Bound(lens, a) <= Bound(lens, b)
  {
    if a < b {
      BoundMono(lens, a, b - 1);
      BoundStep(lens, b);
    }
  }

  lemma {:induction false} CountMono(lens: seq<nat>, a: nat, b: nat, len: nat)
    requires a <= b <= |lens|
    ensures CountUpTo(lens, a, len) <= CountUpTo(lens, b, len)
    ensures a < b && lens[a] == len ==> CountUpTo(lens, a, len) < CountUpTo(lens, b, len)
  {
    if a < b { CountMono(lens, a, b - 1, len); }
  }

  /** A window starts with a code of length `len` exactly when it lies between two bounds. */
  lemma WindowInRange(lens: seq<nat>, w: nat, len: nat)
    requires 1 <= len <= 15
    ensures Bound(lens, len - 1) <= Rev(w, 16) < Bound(lens, len)
       <==> FirstCode(lens, len) <= Rev(w, len) < TopCode(lens, len)
  {
    RevPrefix(w, len, 16);
    BoundStep(lens, len);
    ShrCompare(Rev(w, 16), 16 - len, TopCode(lens, len));
    ShrCompare(Rev(w, 16), 16 - len, FirstCode(lens, len));
  }

  lemma AssignedInRange(lens: seq<nat>, sym: nat, w: nat)
    requires ValidLens(lens) && Assigned(lens, sym, w)
    ensures Bound(lens, lens[sym] - 1) <= Rev(w, 16) < Bound(lens, lens[sym])
  {
    CountMono(lens, sym, |lens|, lens[sym]);
    WindowInRange(lens, w, lens[sym]);
  }

  /** No code is a prefix of another: a window starts with at most one code. */
  lemma PrefixFree(lens: seq<nat>, s: nat, t: nat, w: nat)
    requires ValidLens(lens) && Assigned(lens, s, w) && Assigned(lens, t, w)
    ensures s == t
  {
    AssignedInRange(lens, s, w);
    AssignedInRange(lens, t, w);
    if lens[s] < lens[t] { BoundMono(lens, lens[s], lens[t] - 1); }
    if lens[t] < lens[s] { BoundMono(lens, lens[t], lens[s] - 1); }
    if s < t { CountMono(lens, s, t, lens[s]); }
    if t < s { CountMono(lens, t, s, lens[s]); }
  }

  /** Every rank below the count of a length belongs to a symbol of that length. */
  lemma {:induction false} SymbolOfRank(lens: seq<nat>, n: nat, len: nat, rank: nat) returns (sym: nat)
    requires n <= |lens| && rank < CountUpTo(lens, n, len)
    ensures sym < n && lens[sym] == len && CountUpTo(lens, sym, len) == rank
  {
    if lens[n - 1] == len && rank == CountUpTo(lens, n - 1, len) {
      sym := n - 1;
    } else {
      sym := SymbolOfRank(lens, n - 1, len, rank);
    }
  }

  lemma RangeIsAssigned(lens: seq<nat>, w: nat, len: nat) returns (sym: nat)
    requires ValidLens(lens) && 1 <= len <= 15
    requires Bound(lens, len - 1) <= Rev(w, 16) < Bound(lens, len)
    ensures Assigned(lens, sym, w) && lens[sym] == len
  {
    WindowInRange(lens, w, len);
    sym := SymbolOfRank(lens, |lens|, len, Rev(w, len) - FirstCode(lens, len));
  }

  // ---------- the bit-by-bit decoder finds exactly the assigned symbol ----------

  lemma {:induction false} BitByBitFinds(lens: seq<nat>, w: nat, n: nat)
    requires ValidLens(lens) && n <= 15
    ensures var r := BitByBit(lens, w, n, Rev(w, n));
      match r
      case NoSymbol => forall sym: nat :: Assigned(lens, sym, w) ==> lens[sym] <= n
      case Symbol(sym, len) => Assigned(lens, sym, w) && lens[sym] == len > n
    decreases 15 - n
  {
    if n < 15 {
      RevStep(w, n);
      var code := Rev(w, n + 1);
      if !HasCode(lens, n + 1, code) {
        BitByBitFinds(lens, w, n + 1);
        forall sym: nat | Assigned(lens, sym, w) ensures lens[sym] != n + 1 {
          assert !CodeOf(lens, sym, n + 1, code);
        }
      }
    }
  }

  /** `r` names the symbol whose code the window starts with, if there is one. */
  ghost predicate Resolves(lens: seq<nat>, w: nat, r: Symbol) {
    match r
    case NoSymbol => forall sym: nat :: !Assigned(lens, sym, w)
    case Symbol(sym, len) => Assigned(lens, sym, w) && lens[sym] == len
  }

  /** The standard's decoder finds exactly the symbol whose code the window starts with. */
  lemma BitByBitResolves(lens: seq<nat>, w: nat, r: Symbol)
    requires ValidLens(lens)
    ensures Resolves(lens, w, r) <==> r == BitByBit(lens, w, 0, 0)
  {
    BitByBitFinds(lens, w, 0);
    var b := BitByBit(lens, w, 0, 0);
    if b.Symbol? && r.Symbol? && Resolves(lens, w, r) { PrefixFree(lens, r.sym, b.sym, w); }
    if b.NoSymbol? {
      forall sym: nat ensures !Assigned(lens, sym, w) {}
    }
  }

  // ---------- slots of the value table ----------

  /** How many of the first `n` symbols have a code shorter than `len`. */
  function ShorterUpTo(lens: seq<nat>, n: nat, len: nat): nat
    requires n <= |lens|
  {
    if len <= 1 then 0 else ShorterUpTo(lens, n, len - 1) + CountUpTo(lens, n, len - 1)
  }

  function FirstSlot(lens: seq<nat>, len: nat): nat {
    ShorterUpTo(lens, |lens|, len)
  }

  function Slot(lens: seq<nat>, sym: nat): nat
    requires sym < |lens|
  {
    FirstSlot(lens, lens[sym]) + CountUpTo(lens, sym, lens[sym])
  }

  lemma {:induction false} ShorterStep(lens: seq<nat>, n: nat, len: nat)
    requires 0 < n <= |lens|
    ensures ShorterUpTo(lens, n, len) == ShorterUpTo(lens, n - 1, len) + if 1 <= lens[n - 1] < len then 1 else 0
  {
    if len > 1 { ShorterStep(lens, n, len - 1); }
  }

  lemma {:induction false} ShorterBound(lens: seq<nat>, n: nat, len: nat)
    requires n <= |lens|
    ensures ShorterUpTo(lens, n, len) <= n
  {
    if n == 0 {
      if len > 1 { ShorterBound(lens, 0, len - 1); }
    } else {
      ShorterStep(lens, n, len);
      ShorterBound(lens, n - 1, len);
    }
  }

  lemma {:induction false} ShorterMono(lens: seq<nat>, a: nat, b: nat)
    requires 1 <= a <= b
    ensures FirstSlot(lens, a) <= FirstSlot(lens, b)
    ensures a < b ==> FirstSlot(lens, a) + Count(lens, a) <= FirstSlot(lens, b)
  {
    if a < b { ShorterMono(lens, a, b - 1); }
  }

  lemma SlotInRange(lens: seq<nat>, sym: nat)
    requires sym < |lens| && lens[sym] > 0
    ensures Slot(lens, sym) < FirstSlot(lens, lens[sym]) + Count(lens, lens[sym]) <= |lens|
  {
    CountMono(lens, sym, |lens|, lens[sym]);
    ShorterBound(lens, |lens|, lens[sym] + 1);
  }

  lemma SlotInjective(lens: seq<nat>, s: nat, t: nat)
    requires s < |lens| && t < |lens| && lens[s] > 0 && lens[t] > 0 && s != t
    ensures Slot(lens, s) != Slot(lens, t)
  {
    SlotInRange(lens, s);
    SlotInRange(lens, t);
    if lens[s] < lens[t] { ShorterMono(lens, lens[s], lens[t]); }
    if lens[t] < lens[s] { ShorterMono(lens, lens[t], lens[s]); }
    if s < t { CountMono(lens, s, t, lens[s]); } else { CountMono(lens, t, s, lens[s]); }
  }

  // ---------- reversing codes with masks ----------

  function SwapGroups(v: nat, hi: nat, lo: nat, shift: nat): nat {
    Or(Shr(And(v, hi), shift), Shl(And(v, lo), shift))
  }

  function BitReverse16(v: nat): nat {
    var a := SwapGroups(v, 0xAAAA, 0x5555, 1);
    var b := SwapGroups(a, 0xCCCC, 0x3333, 2);
    var c := SwapGroups(b, 0xF0F0, 0x0F0F, 4);
    SwapGroups(c, 0xFF00, 0x00FF, 8)
  }

  function BitReverse(v: nat, bits: nat): nat
    requires bits <= 16
  {
    Shr(BitReverse16(v), 16 - bits)
  }

  /** Whether bit index `i` is in the upper half of its pair of `shift`-bit groups. */
  predicate UpperGroup(i: nat, shift: nat) {
    if shift == 1 then i % 2 == 1 else if shift == 2 then i / 2 % 2 == 1
    else if shift == 4 then i / 4 % 2 == 1 else i / 8 % 2 == 1
  }

  /** `hi` selects the bits of the upper groups, `lo` those of the lower groups, of 16 bits. */
  ghost predicate GroupMasks(hi: nat, lo: nat, shift: nat) {
    && shift in {1, 2, 4, 8}
    && (forall i: nat :: i < 32 ==> Bit(hi, i) == (if i < 16 && UpperGroup(i, shift) then 1 else 0))
    && (forall i: nat :: i < 32 ==> Bit(lo, i) == (if i < 16 && !UpperGroup(i, shift) then 1 else 0))
  }

  /** The mask of the upper (or lower) groups, from bit index `i` on. */
  function MaskFrom(i: nat, shift: nat, upper: bool): nat
    decreases 16 - i
  {
    if i >= 16 then 0 else (if UpperGroup(i, shift) == upper then 1 else 0) + 2 * MaskFrom(i + 1, shift, upper)
  }

  lemma {:induction false} BitOfMask(i: nat, shift: nat, upper: bool, k: nat)
    ensures Bit(MaskFrom(i, shift, upper), k) == if i + k < 16 && UpperGroup(i + k, shift) == upper then 1 else 0
    decreases k
  {
    if i >= 16 { BitOfZero(k); } else if k > 0 { BitOfMask(i + 1, shift, upper, k - 1); }
  }

  lemma MasksAreGroups(hi: nat, lo: nat, shift: nat)
    requires shift in {1, 2, 4, 8} && hi == MaskFrom(0, shift, true) && lo == MaskFrom(0, shift, false)
    ensures GroupMasks(hi, lo, shift)
  {
    forall i: nat | i < 32
      ensures Bit(hi, i) == if i < 16 && UpperGroup(i, shift) then 1 else 0
      ensures Bit(lo, i) == if i < 16 && !UpperGroup(i, shift) then 1 else 0
    {
      BitOfMask(0, shift, true, i);
      BitOfMask(0, shift, false, i);
    }
  }

  lemma MasksOf1()
    ensures GroupMasks(0xAAAA, 0x5555, 1)
  {
    assert MaskFrom(12, 1, true) == 0xA && MaskFrom(12, 1, false) == 0x5;
    assert MaskFrom(8, 1, true) == 0xAA && MaskFrom(8, 1, false) == 0x55;
    assert MaskFrom(4, 1, true) == 0xAAA && MaskFrom(4, 1, false) == 0x555;
    MasksAreGroups(0xAAAA, 0x5555, 1);
  }

  lemma MasksOf2()
    ensures GroupMasks(0xCCCC, 0x3333, 2)
  {
    assert MaskFrom(12, 2, true) == 0xC && MaskFrom(12, 2, false) == 0x3;
    assert MaskFrom(8, 2, true) == 0xCC && MaskFrom(8, 2, false) == 0x33;
    assert MaskFrom(4, 2, true) == 0xCCC && MaskFrom(4, 2, false) == 0x333;
    MasksAreGroups(0xCCCC, 0x3333, 2);
  }

  lemma MasksOf4()
    ensures GroupMasks(0xF0F0, 0x0F0F, 4)
  {
    assert MaskFrom(12, 4, true) == 0xF && MaskFrom(12, 4, false) == 0x0;
    assert MaskFrom(8, 4, true) == 0xF0 && MaskFrom(8, 4, false) == 0xF;
    assert MaskFrom(4, 4, true) == 0xF0F && MaskFrom(4, 4, false) == 0xF0;
    MasksAreGroups(0xF0F0, 0x0F0F, 4);
  }

  lemma MasksOf8()
    ensures GroupMasks(0xFF00, 0x00FF, 8)
  {
    assert MaskFrom(12, 8, true) == 0xF && MaskFrom(12, 8, false) == 0x0;
    assert MaskFrom(8, 8, true) == 0xFF && MaskFrom(8, 8, false) == 0x0;
    assert MaskFrom(4, 8, true) == 0xFF0 && MaskFrom(4, 8, false) == 0xF;
    MasksAreGroups(0xFF00, 0x00FF, 8);
  }

  /** The index exchanged with `i` when neighbouring groups of `shift` bits change places. */
  function Partner(i: nat, shift: nat): nat {
    if !UpperGroup(i, shift) then i + shift else if i >= shift then i - shift else 0
  }

  lemma SwapBitOr(v: nat, hi: nat, lo: nat, shift: nat, i: nat)
    ensures Bit(SwapGroups(v, hi, lo, shift), i)
         == if (Bit(v, i + shift) == 1 && Bit(hi, i + shift) == 1)
            || (i >= shift && Bit(v, i - shift) == 1 && Bit(lo, i - shift) == 1) then 1 else 0
  {
    BitOfOr(Shr(And(v, hi), shift), Shl(And(v, lo), shift), i);
    BitOfShr(And(v, hi), shift, i);
    BitOfShl(And(v, lo), shift, i);
    BitOfAnd(v, hi, i + shift);
    if i >= shift { BitOfAnd(v, lo, i - shift); }
  }

  lemma PartnerGroup(i: nat, shift: nat)
    requires shift in {1, 2, 4, 8} && i < 16
    ensures UpperGroup(i, shift) ==> i >= shift && !UpperGroup(i - shift, shift)
    ensures !UpperGroup(i, shift) ==> i + shift < 16 && UpperGroup(i + shift, shift)
    ensures Partner(i, shift) < 16
    ensures UpperGroup(i, shift) && i + shift < 16 ==> !UpperGroup(i + shift, shift)
    ensures !UpperGroup(i, shift) && i >= shift ==> UpperGroup(i - shift, shift)
  {
    if shift == 1 {} else if shift == 2 {} else if shift == 4 {} else {}
  }

  lemma SwapBit(v: nat, hi: nat, lo: nat, shift: nat, i: nat)
    requires GroupMasks(hi, lo, shift) && i < 16
    ensures Bit(SwapGroups(v, hi, lo, shift), i) == Bit(v, Partner(i, shift))
  {
    PartnerGroup(i, shift);
    SwapBitOr(v, hi, lo, shift, i);
    BitIsBinary(v, Partner(i, shift));
    assert Bit(hi, i + shift) == if !UpperGroup(i, shift) then 1 else 0;
    assert i >= shift ==> Bit(lo, i - shift) == if UpperGroup(i, shift) then 1 else 0;
  }

  lemma SwapBelow(v: nat, hi: nat, lo: nat, shift: nat, n: nat)
    requires hi < Pow2(n + shift) && lo < Pow2(n)
    ensures SwapGroups(v, hi, lo, shift) < Pow2(n + shift)
  {
    AndBelow(v, hi, n + shift);
    AndBelow(v, lo, n);
    ShlBelow(And(v, lo), n, shift);
    ShrBelow(And(v, hi), shift);
    OrBelow(Shr(And(v, hi), shift), Shl(And(v, lo), shift), n + shift);
  }

  lemma PartnersReverse(i: nat)
    requires i < 16
    ensures Partner(Partner(Partner(Partner(i, 8), 4), 2), 1) == 15 - i
  {}

  lemma SwapAllBit(v: nat, hi: seq<nat>, lo: seq<nat>, i: nat)
    requires |hi| == 4 && |lo| == 4 && i < 16
    requires GroupMasks(hi[0], lo[0], 1) && GroupMasks(hi[1], lo[1], 2)
    requires GroupMasks(hi[2], lo[2], 4) && GroupMasks(hi[3], lo[3], 8)
    ensures var a := SwapGroups(v, hi[0], lo[0], 1);
      var b := SwapGroups(a, hi[1], lo[1], 2);
      var c := SwapGroups(b, hi[2], lo[2], 4);
      Bit(SwapGroups(c, hi[3], lo[3], 8), i) == Bit(v, 15 - i)
  {
    var a := SwapGroups(v, hi[0], lo[0], 1);
    var b := SwapGroups(a, hi[1], lo[1], 2);
    var c := SwapGroups(b, hi[2], lo[2], 4);
    var i1 := Partner(i, 8);
    var i2 := Partner(i1, 4);
    var i3 := Partner(i2, 2);
    PartnerGroup(i, 8);
    PartnerGroup(i1, 4);
    PartnerGroup(i2, 2);
    SwapBit(c, hi[3], lo[3], 8, i);
    SwapBit(b, hi[2], lo[2], 4, i1);
    SwapBit(a, hi[1], lo[1], 2, i2);
    SwapBit(v, hi[0], lo[0], 1, i3);
    PartnersReverse(i);
  }

  /** Four swaps of growing groups reverse the low 16 bits. */
  lemma BitReverse16Reverses(v: nat)
    ensures BitReverse16(v) == Rev(v, 16)
  {
    MasksOf1();
    MasksOf2();
    MasksOf4();
    MasksOf8();
    var d := BitReverse16(v);
    forall i: nat | i < 16 ensures Bit(d, i) == Bit(Rev(v, 16), i) {
      BitOfRev(v, 16, i);
      SwapAllBit(v, [0xAAAA, 0xCCCC, 0xF0F0, 0xFF00], [0x5555, 0x3333, 0x0F0F, 0x00FF], i);
    }
    Pow2Values();
    var a := SwapGroups(v, 0xAAAA, 0x5555, 1);
    var b := SwapGroups(a, 0xCCCC, 0x3333, 2);
    SwapBelow(SwapGroups(b, 0xF0F0, 0x0F0F, 4), 0xFF00, 0x00FF, 8, 8);
    RevBelow(v, 16);
    SameBits(d, Rev(v, 16), 16);
  }

  lemma BitReverseReverses(v: nat, bits: nat)
    requires bits <= 16
    ensures BitReverse(v, bits) == Rev(v, bits)
  {
    BitReverse16Reverses(v);
    RevPrefix(v, bits, 16);
  }

  // ---------- the fast table ----------

  /** A fast entry packs the code length above nine bits of symbol. */
  function FastValue(len: nat, sym: nat): nat {
    Or(Shl(len, 9), sym)
  }

  /** The entry of window `w` once the first `n` symbols are entered: the last one whose short code starts it. */
  ghost function FastEntry(lens: seq<nat>, n: nat, w: nat): nat
    requires n <= |lens|
  {
    if n == 0 then 0
    else if lens[n - 1] <= FAST_BITS && Assigned(lens, n - 1, w) then FastValue(lens[n - 1], n - 1)
    else FastEntry(lens, n - 1, w)
  }

  lemma FastValueParts(len: nat, sym: nat)
    requires sym < 512
    ensures FastValue(len, sym) == 512 * len + sym
    ensures Shr(FastValue(len, sym), 9) == len && And(FastValue(len, sym), 511) == sym
  {
    Pow2Values();
    OrCommutes(Shl(len, 9), sym);
    OrIsSum(sym, len, 9);
    assert Shl(len, 9) == 512 * len by {
      assert Shl(len, 1) == 2 * len;
      assert Shl(len, 3) == 8 * len;
      assert Shl(len, 5) == 32 * len;
      assert Shl(len, 7) == 128 * len;
    }
    AndMask(FastValue(len, sym), 9);
    LowOfSum(sym, len, 9);
  }

  /** A fast entry is the symbol of the short code the window starts with, and is zero when there is none. */
  lemma {:induction false} FastEntryMeaning(lens: seq<nat>, n: nat, w: nat)
    requires ValidLens(lens) && n <= |lens|
    ensures FastEntry(lens, n, w) == 0 ==> forall sym: nat :: sym < n && Assigned(lens, sym, w) ==>
      lens[sym] > FAST_BITS
    ensures FastEntry(lens, n, w) != 0 ==>
      exists sym: nat :: sym < n && Assigned(lens, sym, w) && lens[sym] <= FAST_BITS
        && FastEntry(lens, n, w) == FastValue(lens[sym], sym)
  {
    if n > 0 {
      FastValueParts(lens[n - 1], n - 1);
      FastEntryMeaning(lens, n - 1, w);
    }
  }

  /** `w` is one of the positions `start`, `start + 2^len`, `start + 2 * 2^len`, ... */
  predicate InStride(w: nat, start: nat, len: nat) {
    Low(w, len) == start
  }

  /** The positions filled for a code are the windows that start with it. */
  lemma FastPositions(w: nat, code: nat, len: nat)
    requires code < Pow2(len)
    ensures InStride(w, Rev(code, len), len) <==> Rev(w, len) == code
  {
    RevOfLow(w, len);
    RevRev(code, len);
    LowHigh(w, len);
    RevRev(Low(w, len), len);
  }

  lemma CodeBelow(lens: seq<nat>, sym: nat)
    requires ValidLens(lens) && Fits(lens) && sym < |lens| && lens[sym] > 0
    ensures Code(lens, sym) < TopCode(lens, lens[sym]) <= Pow2(lens[sym])
  {
    assert FitsAt(lens, lens[sym]);
    CountMono(lens, sym, |lens|, lens[sym]);
  }

  lemma NextInStride(m: nat, j: nat, start: nat, len: nat)
    requires InStride(j, start, len) && j < m < j + Pow2(len)
    ensures !InStride(m, start, len)
  {
    LowHigh(j, len);
    LowHigh(m, len);
    Pow2IsShl(len);
    if Low(m, len) == start {
      if Shr(m, len) <= Shr(j, len) {
        ShlMono(Shr(m, len), Shr(j, len), len);
      } else {
        ShlMono(Shr(j, len) + 1, Shr(m, len), len);
        ShlSum(Shr(j, len), 1, len);
      }
    }
  }

  lemma ShortCodeFacts(lens: seq<nat>, sym: nat)
    requires ValidLens(lens) && Fits(lens) && sym < |lens| && 0 < lens[sym] <= FAST_BITS
    ensures var code, s := Code(lens, sym), lens[sym];
      && BitReverse(code, s) < Pow2(s)
      && FastValue(s, sym) < 0x1_0000
      && forall w: nat :: InStride(w, BitReverse(code, s), s) <==> Assigned(lens, sym, w)
  {
    var code, s := Code(lens, sym), lens[sym];
    CodeBelow(lens, sym);
    BitReverseReverses(code, s);
    RevBelow(code, s);
    FastValueParts(s, sym);
    forall w: nat ensures InStride(w, BitReverse(code, s), s) <==> Assigned(lens, sym, w) {
      FastPositions(w, code, s);
    }
  }

  lemma InStrideStep(j: nat, start: nat, len: nat)
    requires InStride(j, start, len)
    ensures InStride(j + Pow2(len), start, len)
  {
    LowHigh(j, len);
    Pow2IsShl(len);
    ShlSum(Shr(j, len), 1, len);
    LowOfSum(start, Shr(j, len) + 1, len);
  }

  lemma FastEntryStepAt(lens: seq<nat>, n: nat, w: nat)
    requires n < |lens|
    ensures if lens[n] <= FAST_BITS && Assigned(lens, n, w) then FastEntry(lens, n + 1, w) == FastValue(lens[n], n)
      else FastEntry(lens, n + 1, w) == FastEntry(lens, n, w)
  {}

  lemma FastEntryStep(lens: seq<nat>, n: nat)
    requires n < |lens|
    ensures forall w: nat ::
      if lens[n] <= FAST_BITS && Assigned(lens, n, w) then FastEntry(lens, n + 1, w) == FastValue(lens[n], n)
      else FastEntry(lens, n + 1, w) == FastEntry(lens, n, w)
  {}

  /** One turn of the length loop: the codes double, the slots add up, the bound is preshifted. */
  ghost predicate Recurrence(first: seq<nat>, slot: seq<nat>, count: seq<nat>, bound: seq<nat>, len: nat)
    requires |first| == |slot| == 17 && |count| == |bound| == 16 && len < 16
  {
    && first[len + 1] == 2 * (first[len] + count[len])
    && slot[len + 1] == slot[len] + count[len]
    && slot[len] <= MAX_SYMBOLS
    && bound[len] == Shl(first[len] + count[len], 16 - len)
  }

  ghost predicate Recurrences(first: seq<nat>, slot: seq<nat>, count: seq<nat>, bound: seq<nat>) {
    && |first| == |slot| == 17 && |count| == |bound| == 16
    && first[1] == 0 && slot[1] == 0
    && (forall len: nat :: 1 <= len < 16 ==> Recurrence(first, slot, count, bound, len))
  }

  lemma LengthTables(lens: seq<nat>) returns (first: seq<nat>, slot: seq<nat>, count: seq<nat>, bound: seq<nat>)
    requires |lens| <= MAX_SYMBOLS
    ensures Recurrences(first, slot, count, bound)
    ensures forall len: nat {:trigger first[len]} {:trigger slot[len]} :: len < 17 ==>
      first[len] == FirstCode(lens, len) && slot[len] == FirstSlot(lens, len)
    ensures forall len: nat {:trigger count[len]} {:trigger bound[len]} :: len < 16 ==>
      count[len] == Count(lens, len) && bound[len] == Bound(lens, len)
  {
    first := seq(17, len requires 0 <= len => FirstCode(lens, len));
    slot := seq(17, len requires 0 <= len => FirstSlot(lens, len));
    count := seq(16, len requires 0 <= len => Count(lens, len));
    bound := seq(16, len requires 0 <= len < 16 => Bound(lens, len));
    forall len: nat | 1 <= len < 16 ensures Recurrence(first, slot, count, bound, len) {
      ShorterBound(lens, |lens|, len);
      assert FirstCode(lens, len + 1) == 2 * (FirstCode(lens, len) + Count(lens, len));
    }
  }

  ghost predicate LengthEntry(lens: seq<nat>, len: nat, first: nat, slot: nat, bound: nat)
    requires len < 16
  {
    first == FirstCode(lens, len) && slot == FirstSlot(lens, len) && bound == Bound(lens, len)
  }

  /** The decoder tables that `stbi__zbuild_huffman` fills. */
  class ZHuffman {
    const fast: array<nat>
    const firstCode: array<nat>
    const maxCode: array<nat>
    const firstSymbol: array<nat>
    const size: array<nat>
    const value: array<nat>

    ghost predicate Shape() {
      && fast.Length == 512 && firstCode.Length == 16 && maxCode.Length == 17 && firstSymbol.Length == 16
      && size.Length == MAX_SYMBOLS && value.Length == MAX_SYMBOLS
      && fast != firstCode && fast != maxCode && fast != firstSymbol && fast != size && fast != value
      && firstCode != maxCode && firstCode != firstSymbol && firstCode != size && firstCode != value
      && maxCode != firstSymbol && maxCode != size && maxCode != value
      && firstSymbol != size && firstSymbol != value && size != value
    }

    /** `a` is not one of the tables. */
    ghost predicate Apart(a: array<nat>) {
      && a != fast && a != firstCode && a != maxCode
      && a != firstSymbol && a != size && a != value
    }

    ghost function Tables(): set<object> {
      {fast, firstCode, maxCode, firstSymbol, size, value}
    }

    constructor ()
      ensures Shape() && fresh(Tables())
    {
      fast := new nat[512];
      firstCode := new nat[16];
      maxCode := new nat[17];
      firstSymbol := new nat[16];
      size := new nat[MAX_SYMBOLS];
      value := new nat[MAX_SYMBOLS];
    }

    /** The per-length tables are filled for the lengths below `top`. */
    ghost predicate LengthsFilled(lens: seq<nat>, top: nat)
      requires Shape() && top <= 16
      reads firstCode, maxCode, firstSymbol
    {
      forall len: nat :: 1 <= len < top ==> LengthEntry(lens, len, firstCode[len], firstSymbol[len], maxCode[len])
    }

    /** The slots of the first `n` symbols are filled. */
    ghost predicate SlotsFilled(lens: seq<nat>, n: nat)
      requires Shape() && ValidLens(lens) && n <= |lens|
      reads size, value
    {
      forall sym: nat :: sym < n && lens[sym] > 0 ==>
        Slot(lens, sym) < MAX_SYMBOLS && size[Slot(lens, sym)] == lens[sym] && value[Slot(lens, sym)] == sym
    }

    ghost predicate FastFilled(lens: seq<nat>, n: nat)
      requires Shape() && n <= |lens|
      reads fast
    {
      forall w: nat :: w < 512 ==> fast[w] == FastEntry(lens, n, w)
    }

    /** The tables describe the canonical code of `lens`. */
    ghost predicate Represents(lens: seq<nat>)
      reads fast, firstCode, maxCode, firstSymbol, size, value
    {
      && Shape() && ValidLens(lens) && Fits(lens)
      && LengthsFilled(lens, 16) && maxCode[16] == 0x10000
      && SlotsFilled(lens, |lens|) && FastFilled(lens, |lens|)
    }

    method CountSizes(sizeList: seq<nat>) returns (sizes: array<nat>)
      requires ValidLens(sizeList)
      ensures fresh(sizes) && sizes.Length == 17
      ensures forall len: nat {:trigger sizes[len]} :: len < 16 ==> sizes[len] == Count(sizeList, len)
    {
      sizes := new nat[17](_ => 0);
      for i := 0 to |sizeList|
        invariant forall len: nat :: len < 16 ==> sizes[len] == CountUpTo(sizeList, i, len)
      {
        sizes[sizeList[i]] := sizes[sizeList[i]] + 1;
      }
      sizes[0] := 0;
    }

    /** Write `v` at `start` and every 2^`len`-th position after it. */
    method FillFast(start: nat, len: nat, v: nat)
      requires Shape() && start < Pow2(len)
      modifies fast
      ensures forall w: nat :: w < 512 ==> fast[w] == if InStride(w, start, len) then v else old(fast[w])
    {
      var j := start;
      forall w: nat | w <= j ensures InStride(w, start, len) <==> w == j { LowOfSmall(w, len); }
      while j < 512
        invariant InStride(j, start, len)
        invariant forall w: nat :: w < 512 ==> fast[w] == if w < j && InStride(w, start, len) then v else old(fast[w])
      {
        fast[j] := v;
        InStrideStep(j, start, len);
        forall w: nat | j < w < j + Pow2(len) ensures !InStride(w, start, len) { NextInStride(w, j, start, len); }
        j := j + Shl(1, len);
        Pow2IsShl(len);
      }
    }

    /** Whether no length is used by more symbols than it has codes. */
    method CheckSizes(ghost lens: seq<nat>, sizes: array<nat>) returns (ok: bool)
      requires sizes.Length == 17 && forall len: nat {:trigger sizes[len]} :: len < 16 ==>
        sizes[len] == Count(lens, len)
      ensures ok <==> forall len: nat :: 1 <= len < 16 ==> Count(lens, len) <= Pow2(len)
    {
      var i := 1;
      while i < 16
        invariant 1 <= i <= 16
        invariant forall len: nat :: 1 <= len < i ==> Count(lens, len) <= Pow2(len)
      {
        Pow2IsShl(i);
        if sizes[i] > Shl(1, i) { return false; }
        i := i + 1;
      }
      ok := true;
    }

    method Build(sizeList: seq<nat>) returns (ok: bool)
      requires Shape() && ValidLens(sizeList)
      modifies fast, firstCode, maxCode, firstSymbol, size, value
      ensures ok <==> Fits(sizeList)
      ensures ok ==> Represents(sizeList)
    {
      forall w | 0 <= w < 512 { fast[w] := 0; }
      var sizes := CountSizes(sizeList);
      ok := CheckSizes(sizeList, sizes);
      if !ok {
        ghost var len: nat :| 1 <= len < 16 && Count(sizeList, len) > Pow2(len);
        assert !FitsAt(sizeList, len);
        return;
      }
      var nextCode := new nat[16];
      ghost var first, slot, count, bound := LengthTables(sizeList);
      ok := AssignLengths(first, slot, count, bound, sizes, nextCode);
      forall len: nat | 1 <= len < 16 ensures FitsAt(sizeList, len) <==> CodesFit(first[len], count[len], len) {}
      if ok {
        forall len: nat | 1 <= len < 16
          ensures LengthEntry(sizeList, len, firstCode[len], firstSymbol[len], maxCode[len])
        {}
        FillSymbols(sizeList, nextCode);
      }
    }

    /** Store the values of length `i`. */
    method StoreLength(i: nat, code: nat, k: nat, top: nat, nextCode: array<nat>)
      requires Shape() && 1 <= i < 16 && code < 0x1_0000 && k < 0x1_0000
      requires nextCode.Length == 16 && Apart(nextCode)
      modifies firstCode, maxCode, firstSymbol, nextCode
      ensures nextCode[i] == firstCode[i] == code && firstSymbol[i] == k && maxCode[i] == Shl(top, 16 - i)
      ensures forall len: nat :: len < 16 && len != i ==> nextCode[len] == old(nextCode[len])
      ensures forall len: nat :: len < 16 && len != i ==> firstCode[len] == old(firstCode[len])
      ensures forall len: nat :: len < 16 && len != i ==> firstSymbol[len] == old(firstSymbol[len])
      ensures forall len: nat :: len < 17 && len != i ==> maxCode[len] == old(maxCode[len])
    {
      nextCode[i] := code;
      firstCode[i] := code % 0x1_0000;
      firstSymbol[i] := k % 0x1_0000;
      maxCode[i] := Shl(top, 16 - i);
    }

    /** Compute the first code, first slot and preshifted bound of every length. */
    method AssignLengths(ghost first: seq<nat>, ghost slot: seq<nat>, ghost count: seq<nat>, ghost bound: seq<nat>,
                         sizes: array<nat>, nextCode: array<nat>) returns (ok: bool)
      requires Shape()
      requires sizes.Length == 17 && Apart(sizes) && nextCode.Length == 16 && Apart(nextCode) && sizes != nextCode
      requires Recurrences(first, slot, count, bound)
      requires forall len: nat :: 1 <= len < 16 ==> sizes[len] == count[len]
      modifies firstCode, maxCode, firstSymbol, nextCode
      ensures ok <==> forall len: nat :: 1 <= len < 16 ==> CodesFit(first[len], count[len], len)
      ensures ok ==> forall len: nat {:trigger nextCode[len]} :: 1 <= len < 16 ==> nextCode[len] == first[len]
      ensures ok ==> forall len: nat {:trigger firstCode[len]} :: 1 <= len < 16 ==> firstCode[len] == first[len]
      ensures ok ==> forall len: nat {:trigger firstSymbol[len]} :: 1 <= len < 16 ==> firstSymbol[len] == slot[len]
      ensures ok ==> forall len: nat {:trigger maxCode[len]} :: 1 <= len < 16 ==> maxCode[len] == bound[len]
      ensures ok ==> maxCode[16] == 0x10000
    {
      var code, k := 0, 0;
      var i := 1;
      while i < 16
        invariant 1 <= i <= 16
        invariant forall len: nat :: 1 <= len < 16 ==> sizes[len] == count[len]
        invariant code == first[i] <= Pow2(i) && k == slot[i]
        invariant forall len: nat :: 1 <= len < i ==> CodesFit(first[len], count[len], len)
        invariant forall len: nat {:trigger nextCode[len]} :: 1 <= len < i ==> nextCode[len] == first[len]
        invariant forall len: nat {:trigger firstCode[len]} :: 1 <= len < i ==> firstCode[len] == first[len]
        invariant forall len: nat {:trigger firstSymbol[len]} :: 1 <= len < i ==> firstSymbol[len] == slot[len]
        invariant forall len: nat {:trigger maxCode[len]} :: 1 <= len < i ==> maxCode[len] == bound[len]
      {
        CodeFits(code, i);
        Pow2IsShl(i);
        assert Recurrence(first, slot, count, bound, i);
        StoreLength(i, code, k, code + sizes[i], nextCode);
        code := code + sizes[i];
        if sizes[i] > 0 {
          if code - 1 >= Shl(1, i) { return false; }
        }
        code := 2 * code;
        k := k + sizes[i];
        i := i + 1;
      }
      maxCode[16] := 0x10000;
      ok := true;
    }

    /**
      The search for codes the fast table does not hold; the code length is the first whose bound exceeds the window.
     */
    method SlowPath(ghost lens: seq<nat>, window: nat) returns (r: Symbol)
      requires Represents(lens)
      requires forall sym: nat :: Assigned(lens, sym, window) ==> lens[sym] > FAST_BITS
      ensures Resolves(lens, window, r)
    {
      BitReverseReverses(window, 16);
      RevBelow(window, 16);
      Pow2Values();
      var k := BitReverse(window, 16);
      NoShortCode(lens, window);
      var s := FAST_BITS + 1;
      while k >= maxCode[s]
        invariant FAST_BITS + 1 <= s <= 16
        invariant Bound(lens, s - 1) <= k
        decreases 16 - s
      {
        assert s < 16;
        assert LengthEntry(lens, s, firstCode[s], firstSymbol[s], maxCode[s]);
        s := s + 1;
      }
      if s >= 16 {
        Unresolved(lens, window);
        return NoSymbol;
      }
      assert LengthEntry(lens, s, firstCode[s], firstSymbol[s], maxCode[s]);
      ghost var sym := RangeIsAssigned(lens, window, s);
      RevPrefix(window, s, 16);
      SlotInRange(lens, sym);
      var b := Shr(k, 16 - s) - firstCode[s] + firstSymbol[s];
      assert b == Slot(lens, sym) && size[b] == s && value[b] == sym;
      if b >= MAX_SYMBOLS { return NoSymbol; }
      if size[b] != s { return NoSymbol; }
      r := Symbol(value[b], s);
    }

    /** Fast table, then slow path: on every window, exactly what the standard's bit-by-bit decoder finds. */
    method Lookup(ghost lens: seq<nat>, window: nat) returns (r: Symbol)
      requires Represents(lens)
      ensures r == BitByBit(lens, window, 0, 0) && Resolves(lens, window, r)
    {
      r := LookUpTables(lens, window);
      BitByBitResolves(lens, window, r);
    }

    method LookUpTables(ghost lens: seq<nat>, window: nat) returns (r: Symbol)
      requires Represents(lens)
      ensures Resolves(lens, window, r)
    {
      Pow2Values();
      AndMask(window, 9);
      LowHigh(window, 9);
      ghost var w := Low(window, 9);
      FastEntryMeaning(lens, |lens|, w);
      var b := fast[And(window, 511)];
      if b > 0 {
        ghost var sym: nat :| sym < |lens| && Assigned(lens, sym, w) && lens[sym] <= FAST_BITS &&
          b == FastValue(lens[sym], sym);
        FastValueParts(lens[sym], sym);
        AssignedLow(lens, sym, window, 9);
        return Symbol(And(b, 511), Shr(b, 9));
      }
      forall sym: nat | Assigned(lens, sym, window) ensures lens[sym] > FAST_BITS {
        if lens[sym] <= FAST_BITS { AssignedLow(lens, sym, window, 9); }
      }
      r := SlowPath(lens, window);
    }

    /** Enter every used symbol into the slot table and, when its code is short, into the fast table. */
    method FillSymbols(sizeList: seq<nat>, nextCode: array<nat>)
      requires Shape() && ValidLens(sizeList) && Fits(sizeList) && LengthsFilled(sizeList, 16)
      requires nextCode.Length == 16 && Apart(nextCode)
      requires forall len: nat {:trigger nextCode[len]} :: 1 <= len < 16 ==> nextCode[len] == FirstCode(sizeList, len)
      requires FastFilled(sizeList, 0)
      modifies fast, size, value, nextCode
      ensures SlotsFilled(sizeList, |sizeList|) && FastFilled(sizeList, |sizeList|)
    {
      var i := 0;
      while i < |sizeList|
        invariant i <= |sizeList|
        invariant LengthsFilled(sizeList, 16)
        invariant forall len: nat {:trigger nextCode[len]} :: 1 <= len < 16 ==>
          nextCode[len] == FirstCode(sizeList, len) + CountUpTo(sizeList, i, len)
        invariant SlotsFilled(sizeList, i) && FastFilled(sizeList, i)
      {
        var s := sizeList[i];
        if s > 0 {
          assert LengthEntry(sizeList, s, firstCode[s], firstSymbol[s], maxCode[s]);
          FillSlot(sizeList, i, nextCode[s] - firstCode[s] + firstSymbol[s]);
          FillShort(sizeList, i, nextCode[s]);
          nextCode[s] := nextCode[s] + 1;
        } else {
          FastEntryStep(sizeList, i);
        }
        i := i + 1;
      }
    }

    method FillSlot(sizeList: seq<nat>, i: nat, c: nat)
      requires Shape() && ValidLens(sizeList) && i < |sizeList| && sizeList[i] > 0
      requires c == Slot(sizeList, i)
      requires SlotsFilled(sizeList, i)
      modifies size, value
      ensures SlotsFilled(sizeList, i + 1)
    {
      SlotInRange(sizeList, i);
      forall sym: nat | sym < i && sizeList[sym] > 0 ensures Slot(sizeList, sym) != c {
        SlotInjective(sizeList, sym, i);
      }
      size[c] := sizeList[i];
      value[c] := i;
    }

    method FillShort(sizeList: seq<nat>, i: nat, code: nat)
      requires Shape() && ValidLens(sizeList) && Fits(sizeList) && i < |sizeList| && sizeList[i] > 0
      requires code == Code(sizeList, i)
      requires FastFilled(sizeList, i)
      modifies fast
      ensures FastFilled(sizeList, i + 1)
    {
      var s := sizeList[i];
      if s <= FAST_BITS {
        ShortCodeFacts(sizeList, i);
        var start, v := BitReverse(code, s), FastValue(s, i) % 0x1_0000;
        FillFast(start, s, v);
        forall w: nat | w < 512 ensures fast[w] == FastEntry(sizeList, i + 1, w) {
          FastEntryStepAt(sizeList, i, w);
          assert old(fast[w]) == FastEntry(sizeList, i, w);
        }
      } else {
        FastEntryStep(sizeList, i);
      }
    }
  }

  /** Only the first bits of a window decide whether a short code starts it. */
  lemma AssignedLow(lens: seq<nat>, sym: nat, w: nat, n: nat)
    requires sym < |lens| && lens[sym] <= n
    ensures Assigned(lens, sym, Low(w, n)) <==> Assigned(lens, sym, w)
  {
    RevOfLowPrefix(w, lens[sym], n);
  }

  lemma {:induction false} RevOfLowPrefix(w: nat, k: nat, n: nat)
    requires k <= n
    ensures Rev(Low(w, n), k) == Rev(w, k)
  {
    if k > 0 { RevOfLowPrefix(w / 2, k - 1, n - 1); }
  }

  lemma NoShortCode(lens: seq<nat>, w: nat)
    requires ValidLens(lens) && forall sym: nat :: Assigned(lens, sym, w) ==> lens[sym] > FAST_BITS
    ensures Bound(lens, FAST_BITS) <= Rev(w, 16)
  {
    ShlOfZero(16);
    var s: nat := FAST_BITS;
    while s > 0 && Rev(w, 16) < Bound(lens, s)
      invariant s <= FAST_BITS
      invariant s < FAST_BITS ==> Rev(w, 16) < Bound(lens, s + 1)
    {
      s := s - 1;
    }
    if s < FAST_BITS { var sym := RangeIsAssigned(lens, w, s + 1); }
  }

  /** Beyond the last bound no code starts the window. */
  lemma Unresolved(lens: seq<nat>, w: nat)
    requires ValidLens(lens) && Rev(w, 16) >= Bound(lens, 15)
    ensures Resolves(lens, w, NoSymbol)
  {
    forall sym: nat ensures !Assigned(lens, sym, w) {
      if Assigned(lens, sym, w) {
        AssignedInRange(lens, sym, w);
        BoundMono(lens, lens[sym], 15);
      }
    }
  }

  lemma CodeFits(code: nat, len: nat)
    requires len <= 15 && code <= Pow2(len)
    ensures code < 0x1_0000
  {
    Pow2Mono(len, 15);
    Pow2Values();
  }
}
