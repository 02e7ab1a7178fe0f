/**
  One whole stream with a dynamic block, read bit by bit: sixteen literals with codes of two bits each.
 */
module ZlibKnown {
  import opened Bits
  import opened BitStream
  import opened Huffman
  import opened ZBitReader
  import opened Inflate
  import opened ZlibBlocks
  import opened Zlib
  import opened ZlibStandard
  import opened ZlibDecode
  import opened ZlibWide
  import opened ZlibLayout

  const KNOWN: seq<Byte> := [
    0x78, 0x01, 0x05, 0xC1, 0x81, 0x0D, 0, 0, 0, 0x40, 0xA0, 0xE1, 0xFF, 0x9F, 0x95, 0x90, 0xA1, 0x61, 0xC1,
    0x01, 0x16, 0x00, 0x20]

  const KNOWN_DATA: seq<Byte> := [2, 1, 1, 3, 2, 3, 1, 2, 2, 3, 1, 2, 3, 3, 1, 1]

  /** The bytes of the block. */
  predicate KnownBytes(input: seq<Byte>) {
    && |input| == 23 && input[2] == 0x05 && input[3] == 0xC1 && input[4] == 0x81 && input[5] == 0x0D && input[6] == 0
    && input[7] == 0 && input[8] == 0 && input[9] == 0x40 && input[10] == 0xA0 && input[11] == 0xE1
    && input[12] == 0xFF && input[13] == 0x9F && input[14] == 0x95 && input[15] == 0x90 && input[16] == 0xA1
    && input[17] == 0x61 && input[18] == 0xC1
  }

  lemma KnownRead()
    ensures KnownBytes(KNOWN)
  {
  }

  // ---------- three codes written out ----------

  lemma ShortCode(lens: seq<nat>, bits: seq<bool>, p: nat, sym: nat, b0: nat, b1: nat, b2: nat)
    requires sym < |lens| && 0 < lens[sym] <= 3 && b0 < 2 && b1 < 2 && b2 < 2
    requires InBit(bits, p) == b0 && (lens[sym] > 1 ==> InBit(bits, p + 1) == b1)
    requires lens[sym] > 2 ==> InBit(bits, p + 2) == b2
    requires Code(lens, sym) ==
      if lens[sym] == 1 then b0 else if lens[sym] == 2 then 2 * b0 + b1 else 4 * b0 + 2 * b1 + b2
    ensures CodeStands(lens, bits, p, sym)
  {
    var code, n := Code(lens, sym), lens[sym];
    if n == 1 {
      BitHalf(code, b0, 0);
    } else if n == 2 {
      BitHalf(code, b1, b0);
      BitHalf(b0, b0, 0);
      assert Bit(code, 1) == Bit(b0, 0);
    } else {
      BitHalf(code, b2, 2 * b0 + b1);
      BitHalf(2 * b0 + b1, b1, b0);
      BitHalf(b0, b0, 0);
      assert Bit(code, 1) == Bit(2 * b0 + b1, 0) && Bit(code, 2) == Bit(2 * b0 + b1, 1) == Bit(b0, 0);
    }
    forall i: nat | i < n ensures CodeBit(bits, p, code, n, i) {}
  }

  /** The sizes of the code length code: 3, 2 and 1 bits for the symbols 0, 1 and 2, and 3 bits for 18. */
  function KnownSizes(): (cl: seq<nat>)
    ensures |cl| == 19
  {
    seq(19, i requires 0 <= i => if i == 0 || i == 18 then 3 else if i == 1 then 2 else if i == 2 then 1 else 0)
  }

  lemma KnownSizeCodes(cl: seq<nat>)
    requires cl == KnownSizes()
    ensures ValidLens(cl) && Fits(cl)
    ensures Code(cl, 2) == 0 && Code(cl, 1) == 2 && Code(cl, 0) == 6 && Code(cl, 18) == 7
  {
    forall x: nat | 1 <= x
      ensures CountUpTo(cl, 1, x) == if x == 3 then 1 else 0
      ensures CountUpTo(cl, 2, x) == if x == 3 || x == 2 then 1 else 0
      ensures CountUpTo(cl, 18, x) == if x <= 3 then 1 else 0
      ensures Count(cl, x) == if x == 3 then 2 else if x < 3 then 1 else 0
    {
      CountRun(cl, 0, 1, 3, x);
      CountRun(cl, 1, 2, 2, x);
      CountRun(cl, 2, 3, 1, x);
      CountRun(cl, 3, 18, 0, x);
      CountRun(cl, 18, 19, 3, x);
    }
    assert FirstCode(cl, 2) == 2 * (FirstCode(cl, 1) + 1) == 2;
    assert FirstCode(cl, 3) == 2 * (FirstCode(cl, 2) + 1);
    assert Pow2(1) == 2 && Pow2(2) == 4 && Pow2(3) == 8;
  }

  /** Two bits each for 1, 2, 3 and the end of the block; and two distance codes of one bit. */
  function KnownLens(): (ll: seq<nat>)
    ensures |ll| == 257
  {
    seq(257, i requires 0 <= i => if 1 <= i <= 3 || i == 256 then 2 else 0)
  }

  lemma KnownCodes(ll: seq<nat>)
    requires ll == KnownLens()
    ensures ValidLens(ll) && Fits(ll)
    ensures Code(ll, 1) == 0 && Code(ll, 2) == 1 && Code(ll, 3) == 2 && Code(ll, 256) == 3
  {
    forall x: nat | 1 <= x
      ensures CountUpTo(ll, 1, x) == 0 && CountUpTo(ll, 2, x) == if x == 2 then 1 else 0
      ensures CountUpTo(ll, 3, x) == (if x == 2 then 2 else 0) && CountUpTo(ll, 256, x) == if x == 2 then 3 else 0
      ensures Count(ll, x) == if x == 2 then 4 else 0
    {
      CountRun(ll, 0, 1, 0, x);
      CountRun(ll, 1, 2, 2, x);
      CountRun(ll, 2, 3, 2, x);
      CountRun(ll, 3, 4, 2, x);
      CountRun(ll, 4, 256, 0, x);
      CountRun(ll, 256, 257, 2, x);
    }
    assert FirstCode(ll, 2) == 0;
    assert Pow2(2) == 4;
  }

  lemma KnownDistances(dl: seq<nat>)
    requires dl == Repeat(1, 2)
    ensures ValidLens(dl) && Fits(dl)
  {
    forall x: nat | 1 <= x ensures Count(dl, x) == if x == 1 then 2 else 0 { CountRun(dl, 0, 2, 1, x); }
    OneBitFits(dl);
  }

  // ---------- the bits ----------

  ghost predicate KnownCounts(bits: seq<bool>, p: nat) {
    && Holds(bits, p, 1, 1) && Holds(bits, p + 1, 2, 2)
    && Holds(bits, p + 3, 5, 0) && Holds(bits, p + 8, 5, 1) && Holds(bits, p + 13, 4, 14)
  }

  lemma CountsRightHere(bits: seq<bool>, input: seq<Byte>, p: nat)
    requires BitsOf(bits, input) && KnownBytes(input) && p == 16
    ensures KnownCounts(bits, p)
  {
    ByteBits(bits, input, 2, p, 1, 0, 1, 0, 0, 0, 0, 0);
    ByteBits(bits, input, 3, p + 8, 1, 0, 0, 0, 0, 0, 1, 1);
    ByteBits(bits, input, 4, p + 16, 1, 0, 0, 0, 0, 0, 0, 1);
    FewBits(bits, p);
    FewBits(bits, p + 1);
    FewBits(bits, p + 3);
    FewBits(bits, p + 8);
    FewBits(bits, p + 13);
    HoldsIsField(bits, p, 1, 1);
    HoldsIsField(bits, p + 1, 2, 2);
    HoldsIsField(bits, p + 3, 5, 0);
    HoldsIsField(bits, p + 8, 5, 1);
    HoldsIsField(bits, p + 13, 4, 14);
  }

  lemma KnownSizeBit(bits: seq<bool>, input: seq<Byte>, q: nat, k: nat, j: nat)
    requires BitsOf(bits, input) && KnownBytes(input) && q == 8 * k + j && j < 8 && 33 <= q < 87
    ensures InBit(bits, q) == if q == 39 || q == 40 || q == 42 || q == 43 || q == 78 || q == 85 then 1 else 0
  {
    if k == 4 {
      ByteBits(bits, input, k, 8 * k, 1, 0, 0, 0, 0, 0, 0, 1);
    } else if k == 5 {
      ByteBits(bits, input, k, 8 * k, 1, 0, 1, 1, 0, 0, 0, 0);
    } else if k == 9 {
      ByteBits(bits, input, k, 8 * k, 0, 0, 0, 0, 0, 0, 1, 0);
    } else if k == 10 {
      ByteBits(bits, input, k, 8 * k, 0, 0, 0, 0, 0, 1, 0, 1);
    } else {
      ByteBits(bits, input, k, 8 * k, 0, 0, 0, 0, 0, 0, 0, 0);
    }
  }

  lemma KnownSizeAt(bits: seq<bool>, input: seq<Byte>, p: nat, cl: seq<nat>, c: nat, q: nat)
    requires BitsOf(bits, input) && KnownBytes(input) && p == 33 && cl == KnownSizes() && c < 19
    requires PlaceOf(c) < 18 && q == p + 3 * PlaceOf(c)
    ensures Holds(bits, q, 3, cl[c])
  {
    KnownSizeBit(bits, input, q, q / 8, q % 8);
    KnownSizeBit(bits, input, q + 1, (q + 1) / 8, (q + 1) % 8);
    KnownSizeBit(bits, input, q + 2, (q + 2) / 8, (q + 2) % 8);
    ThreeBits(bits, q);
    HoldsIsField(bits, q, 3, cl[c]);
  }

  lemma KnownSizesStand(bits: seq<bool>, input: seq<Byte>, p: nat, cl: seq<nat>)
    requires BitsOf(bits, input) && KnownBytes(input) && p == 33 && cl == KnownSizes()
    ensures SizesStand(bits, p, cl, 18)
  {
    forall c: nat | c < 19 ensures SizeStands(bits, p, cl, 18, c) {
      if PlaceOf(c) < 18 { KnownSizeAt(bits, input, p, cl, c, p + 3 * PlaceOf(c)); }
    }
  }

  /** The bits from `p` on: the symbols 0, 2, 2, 2 and 18, 127, then 18, 103, and 2, 1, 1. */
  ghost predicate KnownRuns(bits: seq<bool>, p: nat) {
    && InBit(bits, p) == 1 && InBit(bits, p + 1) == 1 && InBit(bits, p + 2) == 0
    && InBit(bits, p + 3) == 0 && InBit(bits, p + 4) == 0 && InBit(bits, p + 5) == 0
    && InBit(bits, p + 6) == 1 && InBit(bits, p + 7) == 1 && InBit(bits, p + 8) == 1
    && Holds(bits, p + 9, 7, 127)
    && InBit(bits, p + 16) == 1 && InBit(bits, p + 17) == 1 && InBit(bits, p + 18) == 1
    && Holds(bits, p + 19, 7, 103)
    && InBit(bits, p + 26) == 0 && InBit(bits, p + 27) == 1 && InBit(bits, p + 28) == 0
    && InBit(bits, p + 29) == 1 && InBit(bits, p + 30) == 0
  }

  lemma KnownRunsStand(bits: seq<bool>, input: seq<Byte>, p: nat)
    requires BitsOf(bits, input) && KnownBytes(input) && p == 87
    ensures KnownRuns(bits, p)
  {
    ByteBits(bits, input, 10, p - 7, 0, 0, 0, 0, 0, 1, 0, 1);
    ByteBits(bits, input, 11, p + 1, 1, 0, 0, 0, 0, 1, 1, 1);
    ByteBits(bits, input, 12, p + 9, 1, 1, 1, 1, 1, 1, 1, 1);
    ByteBits(bits, input, 13, p + 17, 1, 1, 1, 1, 1, 0, 0, 1);
    ByteBits(bits, input, 14, p + 25, 1, 0, 1, 0, 1, 0, 0, 1);
    SevenBits(bits, p + 9);
    SevenBits(bits, p + 19);
    HoldsIsField(bits, p + 9, 7, 127);
    HoldsIsField(bits, p + 19, 7, 103);
  }

  /** Two bits for each byte of the data, and two for the end of the block. */
  ghost predicate PairsStand(bits: seq<bool>, p: nat, data: seq<Byte>) {
    && (forall i: nat :: i < |data| ==> PairStands(bits, p, i, data[i]))
    && InBit(bits, p + 2 * |data|) == 1 && InBit(bits, p + 2 * |data| + 1) == 1
  }

  predicate PairStands(bits: seq<bool>, p: nat, i: nat, b: Byte) {
    && 1 <= b <= 3
    && InBit(bits, p + 2 * i) == (if b == 3 then 1 else 0) && InBit(bits, p + 2 * i + 1) == if b == 2 then 1 else 0
  }

  lemma KnownPairs(bits: seq<bool>, input: seq<Byte>, p: nat, data: seq<Byte>)
    requires BitsOf(bits, input) && KnownBytes(input) && p == 118 && data == KNOWN_DATA
    ensures PairsStand(bits, p, data)
  {
    ByteBits(bits, input, 14, p - 6, 1, 0, 1, 0, 1, 0, 0, 1);
    ByteBits(bits, input, 15, p + 2, 0, 0, 0, 0, 1, 0, 0, 1);
    ByteBits(bits, input, 16, p + 10, 1, 0, 0, 0, 0, 1, 0, 1);
    ByteBits(bits, input, 17, p + 18, 1, 0, 0, 0, 0, 1, 1, 0);
    ByteBits(bits, input, 18, p + 26, 1, 0, 0, 0, 0, 0, 1, 1);
    forall i: nat | i < |data| ensures PairStands(bits, p, i, data[i]) {}
  }

  // ---------- the stream ----------

  /** One more item in front of those behind it. */
  lemma {:induction false} ItemBefore(cl: seq<nat>, bits: seq<bool>, p: nat, acc: seq<nat>, item: Item, q: nat,
                                      more: seq<nat>, items: seq<Item>, all: seq<nat>, end: nat)
    requires p <= |bits| && ItemStands(cl, bits, p, item, q) && Continues(acc, item, more)
    requires ItemsStand(cl, bits, q, more, items, all, end)
    ensures ItemsStand(cl, bits, p, acc, [item] + items, all, end)
  {
    assert ([item] + items)[1..] == items;
  }

  /** A single length, given by the bits of its code. */
  lemma {:induction false} LengthBefore(cl: seq<nat>, bits: seq<bool>, p: nat, acc: seq<nat>, len: nat, b0: nat,
                                        b1: nat, b2: nat, q: nat, items: seq<Item>, all: seq<nat>, end: nat)
    requires cl == KnownSizes() && len < 3 && p <= |bits| && q == p + 3 - len
    requires InBit(bits, p) == b0 && (len < 2 ==> InBit(bits, p + 1) == b1) && (len < 1 ==> InBit(bits, p + 2) == b2)
    requires if len == 0 then b0 == 1 && b1 == 1 && b2 == 0 else if len == 1 then b0 == 1 && b1 == 0 else b0 == 0
    requires b1 < 2 && b2 < 2 && ItemsStand(cl, bits, q, acc + [len], items, all, end)
    ensures ItemsStand(cl, bits, p, acc, [One(len)] + items, all, end)
  {
    KnownSizeCodes(cl);
    ShortCode(cl, bits, p, len, b0, b1, b2);
    ItemBefore(cl, bits, p, acc, One(len), q, acc + [len], items, all, end);
  }

  lemma {:induction false} RunBefore(cl: seq<nat>, bits: seq<bool>, p: nat, acc: seq<nat>, x: nat, q: nat,
                                     more: seq<nat>, items: seq<Item>, all: seq<nat>, end: nat)
    requires cl == KnownSizes() && p <= |bits| && q == p + 10
    requires InBit(bits, p) == 1 && InBit(bits, p + 1) == 1 && InBit(bits, p + 2) == 1 && Holds(bits, p + 3, 7, x)
    requires more == acc + Repeat(0, 11 + x) && ItemsStand(cl, bits, q, more, items, all, end)
    ensures ItemsStand(cl, bits, p, acc, [LongRun(x)] + items, all, end)
  {
    KnownSizeCodes(cl);
    ShortCode(cl, bits, p, 18, 1, 1, 1);
    ItemBefore(cl, bits, p, acc, LongRun(x), q, more, items, all, end);
  }

  /** The lengths one item after the other. */
  lemma {:induction false} KnownItems(cl: seq<nat>, bits: seq<bool>, p: nat, all: seq<nat>) returns (items: seq<Item>)
    requires cl == KnownSizes() && KnownRuns(bits, p) && |bits| >= p + 40 && all == KnownLens() + Repeat(1, 2)
    ensures ItemsStand(cl, bits, p, [], items, all, p + 31)
  {
    var a := [0] + [2] + [2] + [2];
    var b := a + Repeat(0, 138);
    var c := b + Repeat(0, 114);
    var end := p + 31;
    assert c + [2] + [1] + [1] == all;
    assert ItemsStand(cl, bits, end, all, [], all, end);
    LengthBefore(cl, bits, p + 29, c + [2] + [1], 1, 1, 0, 0, end, [], all, end);
    items := [One(1)] + [];
    LengthBefore(cl, bits, p + 27, c + [2], 1, 1, 0, 0, p + 29, items, all, end);
    items := [One(1)] + items;
    LengthBefore(cl, bits, p + 26, c, 2, 0, 0, 0, p + 27, items, all, end);
    items := [One(2)] + items;
    RunBefore(cl, bits, p + 16, b, 103, p + 26, c, items, all, end);
    items := [LongRun(103)] + items;
    RunBefore(cl, bits, p + 6, a, 127, p + 16, b, items, all, end);
    items := [LongRun(127)] + items;
    LengthBefore(cl, bits, p + 5, [0] + [2] + [2], 2, 0, 0, 0, p + 6, items, all, end);
    items := [One(2)] + items;
    LengthBefore(cl, bits, p + 4, [0] + [2], 2, 0, 0, 0, p + 5, items, all, end);
    items := [One(2)] + items;
    LengthBefore(cl, bits, p + 3, [0], 2, 0, 0, 0, p + 4, items, all, end);
    items := [One(2)] + items;
    assert [] + [0] == [0];
    LengthBefore(cl, bits, p, [], 0, 1, 1, 0, p + 3, items, all, end);
    items := [One(0)] + items;
  }

  lemma {:induction false} KnownHeader(bits: seq<bool>, p: nat) returns (h: Layout)
    requires KnownCounts(bits, p) && SizesStand(bits, p + 17, KnownSizes(), 18) && KnownRuns(bits, p + 71)
    requires |bits| >= p + 111
    ensures h.ll == KnownLens() && h.dl == Repeat(1, 2) && HeaderStands(bits, p + 3, h, p + 102)
  {
    var cl, ll, dl := KnownSizes(), KnownLens(), Repeat(1, 2);
    KnownSizeCodes(cl);
    KnownCodes(ll);
    KnownDistances(dl);
    var items := KnownItems(cl, bits, p + 71, ll + dl);
    h := Layout(cl, 18, items, ll, dl);
  }

  function Literals(data: seq<Byte>): seq<Token> {
    seq(|data|, i requires 0 <= i < |data| => Lit(data[i]))
  }

  lemma PairsBehind(bits: seq<bool>, p: nat, data: seq<Byte>)
    requires data != [] && PairsStand(bits, p, data)
    ensures PairsStand(bits, p + 2, data[1..])
  {
    forall i: nat | i < |data| - 1 ensures PairStands(bits, p + 2, i, data[1..][i]) {
      assert PairStands(bits, p, i + 1, data[i + 1]);
    }
  }

  lemma {:induction false} LiteralsStand(ll: seq<nat>, dl: seq<nat>, bits: seq<bool>, p: nat, data: seq<Byte>, end: nat)
    requires ll == KnownLens() && PairsStand(bits, p, data) && end == p + 2 * |data| + 2 <= |bits|
    ensures TokensStand(ll, dl, bits, p, Literals(data), end)
    decreases data
  {
    KnownCodes(ll);
    if data == [] {
      ShortCode(ll, bits, p, 256, 1, 1, 0);
    } else {
      var b := data[0];
      assert PairStands(bits, p, 0, b);
      ShortCode(ll, bits, p, b, if b == 3 then 1 else 0, if b == 2 then 1 else 0, 0);
      PairsBehind(bits, p, data);
      LiteralsStand(ll, dl, bits, p + 2, data[1..], end);
      assert Literals(data)[1..] == Literals(data[1..]);
      assert TokenStands(ll, dl, bits, p, Literals(data)[0], p + 2);
    }
  }

  lemma {:induction false} LiteralsAdd(out: seq<Byte>, data: seq<Byte>)
    ensures Reachable(out, Literals(data)) && Unfolded(out, Literals(data)) == out + data
    decreases data
  {
    if data == [] {
      assert out + data == out;
    } else {
      LiteralsAdd(out + [data[0]], data[1..]);
      assert Literals(data)[1..] == Literals(data[1..]);
      assert out + [data[0]] + data[1..] == out + data;
    }
  }

  lemma KnownBits(input: seq<Byte>, bits: seq<bool>, p: nat)
    requires KnownBytes(input) && bits == BitsOfBytes(input) && p == 16
    ensures |bits| == 184 && KnownCounts(bits, p) && SizesStand(bits, p + 17, KnownSizes(), 18)
    ensures KnownRuns(bits, p + 71) && PairsStand(bits, p + 102, KNOWN_DATA)
  {
    BitsOfBytesCorrect(input);
    CountsRightHere(bits, input, p);
    KnownSizesStand(bits, input, p + 17, KnownSizes());
    KnownRunsStand(bits, input, p + 71);
    KnownPairs(bits, input, p + 102, KNOWN_DATA);
  }

  lemma {:induction false} OnlyBlock(input: seq<Byte>, bits: seq<bool>, p: nat, h: Layout, q: nat, tokens: seq<Token>,
                                     data: seq<Byte>, end: nat)
    requires Holds(bits, p, 1, 1) && Holds(bits, p + 1, 2, 2) && HeaderStands(bits, p + 3, h, q)
    requires TokensStand(h.ll, h.dl, bits, q, tokens, end) && p < end <= |bits|
    requires Reachable([], tokens) && Unfolded([], tokens) == data
    ensures BlockStands(input, bits, p, true, DynamicBlock(h, tokens), end) && Adds([], DynamicBlock(h, tokens), data)
  {
    var b := DynamicBlock(h, tokens);
    assert BodyStands(input, bits, p + 3, b, end);
  }

  lemma {:induction false} KnownTokens(ll: seq<nat>, dl: seq<nat>, bits: seq<bool>, p: nat, data: seq<Byte>)
    returns (tokens: seq<Token>, end: nat)
    requires ll == KnownLens() && PairsStand(bits, p, data) && p + 2 * |data| + 2 <= |bits|
    ensures end == p + 2 * |data| + 2 && TokensStand(ll, dl, bits, p, tokens, end)
    ensures Reachable([], tokens) && Unfolded([], tokens) == data
  {
    end := p + 2 * |data| + 2;
    LiteralsStand(ll, dl, bits, p, data, end);
    LiteralsAdd([], data);
    assert [] + data == data;
    tokens := Literals(data);
  }

  /** The one block of the stream. */
  lemma {:induction false} KnownBlock(input: seq<Byte>, bits: seq<bool>, p: nat,
                                      data: seq<Byte>) returns (b: Block)
    requires KnownCounts(bits, p) && SizesStand(bits, p + 17, KnownSizes(), 18) && KnownRuns(bits, p + 71)
    requires PairsStand(bits, p + 102, data) && |bits| >= p + 104 + 2 * |data| && |data| > 8
    ensures BlockStands(input, bits, p, true, b, p + 104 + 2 * |data|) && Adds([], b, data)
  {
    var h := KnownHeader(bits, p);
    var tokens, end := KnownTokens(h.ll, h.dl, bits, p + 102, data);
    OnlyBlock(input, bits, p, h, p + 102, tokens, data, end);
    b := DynamicBlock(h, tokens);
  }

  lemma OneMoreByte(data: seq<Byte>, b: Byte)
    ensures ByteSum(data + [b]) == ByteSum(data) + b
    ensures SumOfSums(data + [b]) == SumOfSums(data) + ByteSum(data) + b
  {
    assert (data + [b])[..|data|] == data;
  }

  lemma FourMoreBytes(data: seq<Byte>, b0: Byte, b1: Byte, b2: Byte, b3: Byte, more: seq<Byte>)
    requires more == data + [b0, b1, b2, b3]
    ensures ByteSum(more) == ByteSum(data) + b0 + b1 + b2 + b3
    ensures SumOfSums(more) == SumOfSums(data) + 4 * ByteSum(data) + 4 * b0 as int + 3 * b1 as int + 2 * b2 as int + b3
  {
    OneMoreByte(data, b0);
    OneMoreByte(data + [b0], b1);
    OneMoreByte(data + [b0] + [b1], b2);
    OneMoreByte(data + [b0] + [b1] + [b2], b3);
    assert data + [b0] + [b1] + [b2] + [b3] == more;
  }

  lemma KnownSums(data: seq<Byte>)
    requires data == KNOWN_DATA
    ensures ByteSum(data) == 32 && SumOfSums(data) == 278
  {
    var none: seq<Byte> := [];
    assert ByteSum(none) == 1 && SumOfSums(none) == 0;
    FourMoreBytes(none, 2, 1, 1, 3, data[..4]);
    FourMoreBytes(data[..4], 2, 3, 1, 2, data[..8]);
    FourMoreBytes(data[..8], 2, 3, 1, 2, data[..12]);
    FourMoreBytes(data[..12], 3, 3, 1, 1, data);
  }

  /** The header and the checksum, 1 16 0 20 at byte 19. */
  lemma KnownEnds(input: seq<Byte>, k: nat)
    requires |input| == 23 && input[0] == 0x78 && input[1] == 0x01 && k == 19
    requires input[k] == 0x01 && input[k + 1] == 0x16 && input[k + 2] == 0 && input[k + 3] == 0x20
    ensures HeaderBytes(input) && BigEndian(input, k) == 65536 * 278 + 32
  {
    assert 256 * 0x78 + 1 == 31 * 991;
  }

  lemma {:induction false} StreamOf(input: seq<Byte>, b: Block, data: seq<Byte>, end: nat, k: nat)
    requires HeaderBytes(input) && k == (end + 7) / 8 && k + 4 <= |input|
    requires BlockStands(input, BitsOfBytes(input), 16, true, b, end) && Adds([], b, data)
    requires BigEndian(input, k) == 65536 * 278 + 32 && ByteSum(data) == 32 && SumOfSums(data) == 278
    ensures StreamStands(input, [b], data, end)
  {
  }

  lemma {:induction false} KnownStands(input: seq<Byte>, p: nat, data: seq<Byte>, end: nat) returns (b: Block)
    requires KnownBytes(input) && p == 16 && data == KNOWN_DATA && end == 152
    ensures BlockStands(input, BitsOfBytes(input), p, true, b, end) && Adds([], b, data)
  {
    KnownBits(input, BitsOfBytes(input), p);
    b := KnownBlock(input, BitsOfBytes(input), p, data);
  }

  /** The stream is valid and is decoded to its sixteen bytes. */
  lemma KnownDecoded(limit: nat)
    ensures RefZlib(KNOWN) == Done(KNOWN_DATA, 152)
    ensures limit >= 16 ==> CountedZlib(KNOWN, limit).Accepted? && CountedZlib(KNOWN, limit).out == KNOWN_DATA
  {
    KnownRead();
    KnownSums(KNOWN_DATA);
    var b := KnownStands(KNOWN, 16, KNOWN_DATA, 152);
    KnownEnds(KNOWN, 19);
    StreamOf(KNOWN, b, KNOWN_DATA, 152, 19);
    StreamRead(KNOWN, [b], KNOWN_DATA, 152);
    LaidOutDecoded(KNOWN, [b], KNOWN_DATA, 152, limit);
  }
}
