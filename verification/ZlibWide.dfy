/**
  A whole stream whose only block announces 287 literal and length codes, one more than the standard allows: it is
  accepted.
 */
module ZlibWide {
  import opened Bits
  import opened BitStream
  import opened Huffman
  import opened ZBitReader
  import opened Inflate
  import opened ZlibBlocks
  import opened Zlib
  import opened ZlibStandard
  import opened ZlibDecode

  /** A dynamic block whose literal code has one symbol, the end of the block, and the checksum of no data. */
  const WIDE: seq<Byte> := [
    0x78, 0x01, 0xF5, 0xC0, 0x81, 0, 0, 0, 0, 0, 0x90, 0xFF, 0x6B, 0x29, 0, 0, 0, 0, 1]

  /** The bytes of the block. */
  predicate WideBytes(input: seq<Byte>) {
    && |input| > 14 && input[2] == 0xF5 && input[3] == 0xC0 && input[4] == 0x81 && input[10] == 0x90 &&
      input[11] == 0xFF
    && (forall k: nat :: 5 <= k < 10 ==> input[k] == 0)
    && input[12] == 0x6B && input[13] == 0x29 && input[14] == 0
  }

  lemma BitHalf(b: nat, v: nat, r: nat)
    requires b == v + 2 * r && v < 2
    ensures Bit(b, 0) == v && forall i: nat {:trigger Bit(r, i)} :: Bit(b, i + 1) == Bit(r, i)
  {
    assert b % 2 == v && b / 2 == r;
  }

  lemma HalfByte(b: nat, v0: nat, v1: nat, v2: nat, v3: nat, r: nat)
    requires b == v0 + 2 * v1 + 4 * v2 + 8 * v3 + 16 * r && v0 < 2 && v1 < 2 && v2 < 2 && v3 < 2
    ensures Bit(b, 0) == v0 && Bit(b, 1) == v1 && Bit(b, 2) == v2 && Bit(b, 3) == v3
    ensures forall i: nat {:trigger Bit(r, i)} :: Bit(b, i + 4) == Bit(r, i)
  {
    var r3 := v3 + 2 * r;
    var r2 := v2 + 2 * r3;
    var r1 := v1 + 2 * r2;
    BitHalf(b, v0, r1);
    BitHalf(r1, v1, r2);
    BitHalf(r2, v2, r3);
    BitHalf(r3, v3, r);
    assert Bit(b, 1) == Bit(r1, 0) && Bit(b, 2) == Bit(r1, 1) == Bit(r2, 0);
    assert Bit(b, 3) == Bit(r1, 2) == Bit(r2, 1) == Bit(r3, 0);
    forall i: nat ensures Bit(b, i + 4) == Bit(r, i) {
      assert Bit(r3, i + 1) == Bit(r, i) && Bit(r2, i + 2) == Bit(r3, i + 1) && Bit(r1, i + 3) == Bit(r2, i + 2);
    }
  }

  /** A byte and its eight bits in the stream. */
  lemma ByteBits(bits: seq<bool>, input: seq<Byte>, k: nat, p: nat, v0: nat, v1: nat, v2: nat, v3: nat, v4: nat,
                 v5: nat, v6: nat, v7: nat)
    requires BitsOf(bits, input) && k < |input| && p == 8 * k
    requires v0 < 2 && v1 < 2 && v2 < 2 && v3 < 2 && v4 < 2 && v5 < 2 && v6 < 2 && v7 < 2
    requires input[k] == v0 + 2 * v1 + 4 * v2 + 8 * v3 + 16 * v4 + 32 * v5 + 64 * v6 + 128 * v7
    ensures InBit(bits, p) == v0 && InBit(bits, p + 1) == v1 && InBit(bits, p + 2) == v2 && InBit(bits, p + 3) == v3
    ensures InBit(bits, p + 4) == v4 && InBit(bits, p + 5) == v5 && InBit(bits, p + 6) == v6 && InBit(bits, p + 7) == v7
  {
    var b: nat := input[k];
    var r := v4 + 2 * v5 + 4 * v6 + 8 * v7;
    HalfByte(b, v0, v1, v2, v3, r);
    HalfByte(r, v4, v5, v6, v7, 0);
    HoldsByte(bits, input, k);
    assert Bit(b, 4) == Bit(r, 0) && Bit(b, 5) == Bit(r, 1) && Bit(b, 6) == Bit(r, 2) && Bit(b, 7) == Bit(r, 3);
    assert forall i: nat :: i < 8 ==> Bit(b, i) == InBit(bits, p + i);
  }

  /** The three header bits, and the counts: 287 literal codes, one distance code, 18 code length codes. */
  ghost predicate CountsStand(bits: seq<bool>, p: nat) {
    && Field(bits, p, 1) == 1 && Field(bits, p + 1, 2) == 2
    && Field(bits, p + 3, 5) == 30 && Field(bits, p + 8, 5) == 0 && Field(bits, p + 13, 4) == 14
  }

  lemma WideCounts(bits: seq<bool>, input: seq<Byte>, p: nat)
    requires BitsOf(bits, input) && WideBytes(input) && p == 16
    ensures CountsStand(bits, p)
  {
    ByteBits(bits, input, 2, p, 1, 0, 1, 0, 1, 1, 1, 1);
    ByteBits(bits, input, 3, p + 8, 0, 0, 0, 0, 0, 0, 1, 1);
    ByteBits(bits, input, 4, p + 16, 1, 0, 0, 0, 0, 0, 0, 1);
    FewBits(bits, p);
    FewBits(bits, p + 1);
    FewBits(bits, p + 3);
    FewBits(bits, p + 8);
    FewBits(bits, p + 13);
  }

  lemma FewBits(bits: seq<bool>, p: nat)
    ensures Field(bits, p, 1) == InBit(bits, p) && Field(bits, p, 2) == InBit(bits, p) + 2 * InBit(bits, p + 1)
    ensures Field(bits, p, 4) == Field(bits, p, 2) + 4 * InBit(bits, p + 2) + 8 * InBit(bits, p + 3)
    ensures Field(bits, p, 5) == Field(bits, p, 4) + 16 * InBit(bits, p + 4)
  {
    assert Field(bits, p + 4, 1) == InBit(bits, p + 4) + 2 * Field(bits, p + 5, 0);
    ThreeBits(bits, p + 1);
    assert Field(bits, p + 3, 1) == InBit(bits, p + 3) &&
      Field(bits, p + 3, 2) == InBit(bits, p + 3) + 2 * Field(bits, p + 4, 1);
    assert Field(bits, p + 2, 3) == InBit(bits, p + 2) + 2 * Field(bits, p + 3, 2);
    assert Field(bits, p + 1, 1) == InBit(bits, p + 1);
    assert Field(bits, p + 1, 4) == InBit(bits, p + 1) + 2 * Field(bits, p + 2, 3);
  }

  lemma SevenBits(bits: seq<bool>, p: nat)
    ensures Field(bits, p, 7) == InBit(bits, p) + 2 * InBit(bits, p + 1) + 4 * InBit(bits, p + 2) +
      8 * InBit(bits, p + 3)
      + 16 * InBit(bits, p + 4) + 32 * InBit(bits, p + 5) + 64 * InBit(bits, p + 6)
  {
    ThreeBits(bits, p + 4);
    assert Field(bits, p + 3, 4) == InBit(bits, p + 3) + 2 * Field(bits, p + 4, 3);
    assert Field(bits, p + 2, 5) == InBit(bits, p + 2) + 2 * Field(bits, p + 3, 4);
    assert Field(bits, p + 1, 6) == InBit(bits, p + 1) + 2 * Field(bits, p + 2, 5);
  }

  /** The sizes of the code length code: one bit each for the symbols 1 and 18. */
  lemma WideSizeBits(bits: seq<bool>, input: seq<Byte>, p: nat, i: nat)
    requires BitsOf(bits, input) && WideBytes(input) && p == 33 && i < 18
    ensures WideSizeStands(bits, p, i)
  {
    var q := p + 3 * i;
    WideSizeBit(bits, input, q, q / 8, q % 8);
    WideSizeBit(bits, input, q + 1, (q + 1) / 8, (q + 1) % 8);
    WideSizeBit(bits, input, q + 2, (q + 2) / 8, (q + 2) % 8);
    ThreeBits(bits, q);
  }

  lemma WideSizeBit(bits: seq<bool>, input: seq<Byte>, q: nat, k: nat, j: nat)
    requires BitsOf(bits, input) && WideBytes(input) && q == 8 * k + j && j < 8 && 33 <= q < 87
    ensures InBit(bits, q) == if q == 39 || q == 84 then 1 else 0
  {
    if k == 4 {
      ByteBits(bits, input, k, 8 * k, 1, 0, 0, 0, 0, 0, 0, 1);
    } else if k == 10 {
      ByteBits(bits, input, k, 8 * k, 0, 0, 0, 0, 1, 0, 0, 1);
    } else {
      ByteBits(bits, input, k, 8 * k, 0, 0, 0, 0, 0, 0, 0, 0);
    }
  }

  lemma ThreeBits(bits: seq<bool>, p: nat)
    ensures Field(bits, p, 3) == InBit(bits, p) + 2 * InBit(bits, p + 1) + 4 * InBit(bits, p + 2)
  {
    assert Field(bits, p + 2, 1) == InBit(bits, p + 2) + 2 * Field(bits, p + 3, 0);
    assert Field(bits, p + 1, 2) == InBit(bits, p + 1) + 2 * Field(bits, p + 2, 1);
  }

  ghost predicate WideSizesStand(bits: seq<bool>, p: nat) {
    forall i: nat :: i < 18 ==> WideSizeStands(bits, p, i)
  }

  ghost predicate WideSizeStands(bits: seq<bool>, p: nat, i: nat) {
    Field(bits, p + 3 * i, 3) == if i == 2 || i == 17 then 1 else 0
  }

  function SizesUpTo(n: nat): seq<nat> {
    seq(19, i requires 0 <= i => if (i == 18 && n > 2) || (i == 1 && n > 17) then 1 else 0)
  }

  lemma {:induction false} WideSizes(order: Order, bits: seq<bool>, p: nat, n: nat)
    requires order == LENGTH_ORDER && n <= 18 && WideSizesStand(bits, p)
    ensures CodeLengthLens(order, bits, p, n) == SizesUpTo(n)
  {
    if n > 0 {
      WideSizes(order, bits, p, n - 1);
      assert WideSizeStands(bits, p, n - 1);
      assert order[n - 1] == 18 <==> n - 1 == 2;
      assert order[n - 1] == 1 <==> n - 1 == 17;
    }
  }

  /** A list with symbols of one bit only; `first` is the first of them. */
  lemma OneBitCode(lens: seq<nat>, bits: seq<bool>, p: nat, sym: nat)
    requires ValidLens(lens) && sym < |lens| && lens[sym] == 1 && CountUpTo(lens, sym, 1) == InBit(bits, p)
    ensures SymbolAt(lens, bits, p) == Symbol(sym, 1)
  {
    var v, m := Field(bits, p, 16), 16;
    HoldsIsField(bits, p, m, v);
    assert Bit(v, 0) == InBit(bits, p + 0);
    assert Rev(v, 1) == Bit(v, 0) by { assert Rev(v, 0) == 0; }
    assert Code(lens, sym) == InBit(bits, p);
    assert Assigned(lens, sym, v);
    ResolvesStream(lens, bits, p, m, v, Symbol(sym, 1));
  }

  /** At most two codes, all of one bit, fit. */
  lemma OneBitFits(lens: seq<nat>)
    requires Count(lens, 1) <= 2 && forall x: nat :: 2 <= x <= 15 ==> Count(lens, x) == 0
    ensures Fits(lens)
  {
    assert Pow2(1) == 2;
  }

  lemma WideCodeLengths(cl: seq<nat>, bits: seq<bool>)
    requires cl == SizesUpTo(18)
    ensures ValidLens(cl) && Fits(cl)
    ensures forall p: nat :: SymbolAt(cl, bits, p) == if InBit(bits, p) == 0 then Symbol(1, 1) else Symbol(18, 1)
  {
    forall x: nat | 1 <= x
      ensures CountUpTo(cl, 1, x) == 0 && CountUpTo(cl, 18, x) == CountUpTo(cl, 19, x) - (if x == 1 then 1 else 0)
      ensures CountUpTo(cl, 18, x) == if x == 1 then 1 else 0
    {
      CountRun(cl, 0, 1, 0, x);
      CountRun(cl, 1, 2, 1, x);
      CountRun(cl, 2, 18, 0, x);
      CountRun(cl, 18, 19, 1, x);
    }
    OneBitFits(cl);
    forall p: nat ensures SymbolAt(cl, bits, p) == if InBit(bits, p) == 0 then Symbol(1, 1) else Symbol(18, 1) {
      OneBitCode(cl, bits, p, if InBit(bits, p) == 0 then 1 else 18);
    }
  }

  /**
    The codes and runs from `p` on: 138 and 118 unused symbols, one of one bit, 31 unused ones; then the end of the
    block.
   */
  ghost predicate RunsStand(bits: seq<bool>, p: nat) {
    && InBit(bits, p) == 1 && Field(bits, p + 1, 7) == 127
    && InBit(bits, p + 8) == 1 && Field(bits, p + 9, 7) == 107
    && InBit(bits, p + 16) == 0
    && InBit(bits, p + 17) == 1 && Field(bits, p + 18, 7) == 20
    && InBit(bits, p + 25) == 0
  }

  lemma WideRuns(bits: seq<bool>, input: seq<Byte>, p: nat)
    requires BitsOf(bits, input) && WideBytes(input) && p == 87
    ensures RunsStand(bits, p)
  {
    ByteBits(bits, input, 10, p - 7, 0, 0, 0, 0, 1, 0, 0, 1);
    ByteBits(bits, input, 11, p + 1, 1, 1, 1, 1, 1, 1, 1, 1);
    ByteBits(bits, input, 12, p + 9, 1, 1, 0, 1, 0, 1, 1, 0);
    ByteBits(bits, input, 13, p + 17, 1, 0, 0, 1, 0, 1, 0, 0);
    ByteBits(bits, input, 14, p + 25, 0, 0, 0, 0, 0, 0, 0, 0);
    SevenBits(bits, p + 1);
    SevenBits(bits, p + 9);
    SevenBits(bits, p + 18);
  }

  /** 256 unused symbols, the end of the block with one bit, 31 unused symbols. */
  function WideLens(): seq<nat> {
    Repeat(0, 256) + [1] + Repeat(0, 31)
  }

  lemma WideLengths(symbols: seq<Symbol>, bits: seq<bool>, p: nat, total: nat)
    requires |symbols| == |bits| + 1 && |bits| >= p + 32 && total == 288 && RunsStand(bits, p)
    requires symbols[p] == symbols[p + 8] == symbols[p + 17] == Symbol(18, 1) && symbols[p + 16] == Symbol(1, 1)
    ensures RefLengths(symbols, bits, p, total, []) == Lengths(WideLens(), p + 25)
  {
    var a := Repeat(0, 138);
    var b := a + Repeat(0, 118);
    var c := b + [1];
    LengthsStep(symbols, bits, p, total, [], Repeat(0, 138), p + 8, a);
    LengthsStep(symbols, bits, p + 8, total, a, Repeat(0, 118), p + 16, b);
    LengthsStep(symbols, bits, p + 16, total, b, [1], p + 17, c);
    LengthsStep(symbols, bits, p + 17, total, c, Repeat(0, 31), p + 25, WideLens());
  }

  lemma WideSplit(ll: seq<nat>, dl: seq<nat>)
    requires ll == WideLens()[..287] && dl == WideLens()[287..]
    ensures ValidLens(ll) && Fits(ll) && Fits(dl) && ll[256] == 1 && CountUpTo(ll, 256, 1) == 0
  {
    forall x: nat | 1 <= x ensures Count(ll, x) == (if x == 1 then 1 else 0) && CountUpTo(ll, 256, x) == 0 {
      CountRun(ll, 0, 256, 0, x);
      CountRun(ll, 256, 257, 1, x);
      CountRun(ll, 257, 287, 0, x);
    }
    forall x: nat | 1 <= x ensures Count(dl, x) == 0 { CountRun(dl, 0, 1, 0, x); }
    OneBitFits(ll);
    OneBitFits(dl);
  }

  lemma WideLengthsRead(cl: seq<nat>, bits: seq<bool>, p: nat, total: nat)
    requires cl == SizesUpTo(18) && RunsStand(bits, p) && |bits| >= p + 32 && total == 288
    ensures Fits(cl) && RefLengths(SymbolsOf(cl, bits), bits, p, total, []) == Lengths(WideLens(), p + 25)
  {
    WideCodeLengths(cl, bits);
    WideLengths(SymbolsOf(cl, bits), bits, p, total);
  }

  lemma WideTablesRead(cl: seq<nat>, bits: seq<bool>, p: nat, hlit: nat, hdist: nat)
    requires cl == SizesUpTo(18) && RunsStand(bits, p) && |bits| >= p + 32 && hlit == 287 && hdist == 1
    ensures RefTables(cl, bits, p, hlit, hdist) == Header(WideLens()[..hlit], WideLens()[hlit..], p + 25)
  {
    WideLengthsRead(cl, bits, p, hlit + hdist);
    WideSplit(WideLens()[..hlit], WideLens()[hlit..]);
  }

  lemma WideHeaderRead(order: Order, bits: seq<bool>, p: nat, hlit: nat)
    requires order == LENGTH_ORDER && WideSizesStand(bits, p + 14) && RunsStand(bits, p + 68) && |bits| >= p + 100
    requires Field(bits, p, 5) == 30 && Field(bits, p + 5, 5) == 0 && Field(bits, p + 10, 4) == 14 && hlit == 287
    ensures RefHeader(order, bits, p) == Header(WideLens()[..hlit], WideLens()[hlit..], p + 93)
  {
    WideSizes(order, bits, p + 14, 18);
    WideTablesRead(SizesUpTo(18), bits, p + 68, hlit, 1);
  }

  lemma WideBlock(t: DeflateTables, ll: seq<nat>, dst: seq<Symbol>, bits: seq<bool>, p: nat)
    requires ll == WideLens()[..287] && |bits| > p && InBit(bits, p) == 0
    ensures RefBlock(t, SymbolsOf(ll, bits), dst, bits, p, []) == Done([], p + 1)
  {
    WideSplit(ll, WideLens()[287..]);
    OneBitCode(ll, bits, p, 256);
    assert SymbolsOf(ll, bits)[p] == Symbol(256, 1);
  }

  lemma WideBody(t: DeflateTables, order: Order, input: seq<Byte>, bits: seq<bool>, p: nat)
    requires order == LENGTH_ORDER && WideSizesStand(bits, p + 14) && RunsStand(bits, p + 68) && |bits| >= p + 100
    requires Field(bits, p, 5) == 30 && Field(bits, p + 5, 5) == 0 && Field(bits, p + 10, 4) == 14
    ensures LaxBody(t, order, input, bits, 2, p, []) == Done([], p + 94) && TooManyLengths(bits, 2, p)
  {
    WideHeaderRead(order, bits, p, 287);
    WideBlock(t, WideLens()[..287], SymbolsOf(WideLens()[287..], bits), bits, p + 93);
  }

  lemma WideStands(input: seq<Byte>, bits: seq<bool>, p: nat)
    requires WideBytes(input) && bits == BitsOfBytes(input) && p == 16
    ensures CountsStand(bits, p) && WideSizesStand(bits, p + 17) && RunsStand(bits, p + 71) && |bits| >= 120
  {
    BitsOfBytesCorrect(input);
    WideCounts(bits, input, p);
    forall i: nat {:trigger WideSizeStands(bits, p + 17, i)} | i < 18 ensures WideSizeStands(bits, p + 17, i) {
      WideSizeBits(bits, input, p + 17, i);
    }
    WideRuns(bits, input, p + 71);
  }

  lemma WideDecodes(t: DeflateTables, order: Order, input: seq<Byte>, bits: seq<bool>, p: nat)
    requires order == LENGTH_ORDER && |bits| >= p + 103
    requires CountsStand(bits, p) && WideSizesStand(bits, p + 17) && RunsStand(bits, p + 71)
    ensures LaxBlocks(t, order, input, bits, p, []) == Done([], p + 97)
    ensures WideTables(t, order, input, bits, p, [])
  {
    WideBody(t, order, input, bits, p + 3);
  }

  /** The standard refuses the stream for its 287 literal and length codes; the source decodes it. */
  lemma WideTablesAccepted(limit: nat)
    ensures RefZlib(WIDE) == Bad
    ensures CountedZlib(WIDE, limit).Accepted? && CountedZlib(WIDE, limit).out == []
  {
    GoodHeader(WIDE);
    WideStands(WIDE, BitsOfBytes(WIDE), 16);
    WideDecodes(StandardTables(), StandardOrder(), WIDE, BitsOfBytes(WIDE), 16);
    Stricter(WIDE);
    IntactAgrees(WIDE, limit);
  }
}
