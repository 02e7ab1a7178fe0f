/**
  The whole zlib stream (RFC 1950, RFC 1951): stored, fixed and dynamic blocks, and the code lengths
  of dynamic blocks, against a reference decoder that works on the bits of the input.
 */
module ZlibBlocks {
  import opened Bits
  import opened BitStream
  import opened Huffman
  import opened ZBitReader
  import opened Inflate

  // ---------- code lengths of a dynamic block (section 3.2.7 of RFC 1951) ----------

  const LENGTH_ORDER: seq<nat> := [16, 17, 18, 0, 8, 7, 9, 6, 10, 5, 11, 4, 12, 3, 13, 2, 14, 1, 15]

  ghost predicate OrderOk(order: seq<nat>) {
    |order| == 19 && forall i: nat :: i < 19 ==> order[i] < 19
  }

  type Order = o: seq<nat> | OrderOk(o) witness seq(19, _ => 0)

  function StandardOrder(): Order {
    LENGTH_ORDER
  }

  function Repeat(v: nat, n: nat): seq<nat> {
    seq(n, _ => v)
  }

  /** The lengths of the code length code: `n` three-bit fields in the given order. */
  function CodeLengthLens(order: Order, bits: seq<bool>, p: nat, n: nat): (cl: seq<nat>)
    requires n <= 19
    ensures |cl| == 19
  {
    if n == 0 then Repeat(0, 19)
    else CodeLengthLens(order, bits, p, n - 1)[order[n - 1] := Field(bits, p + 3 * (n - 1), 3)]
  }

  datatype LengthOp = Items(items: seq<nat>, next: nat) | BadOp

  /** One symbol of the code length code: a length, or a run repeating the last length or zero. */
  function LengthOpAt(symbols: seq<Symbol>, bits: seq<bool>, p: nat, acc: seq<nat>): LengthOp
    requires p < |symbols|
  {
    match symbols[p]
    case NoSymbol => BadOp
    case Symbol(c, n) =>
      if c < 16 then Items([c], p + n) else RunAt(bits, p + n, c, acc)
  }

  function RunAt(bits: seq<bool>, q: nat, c: nat, acc: seq<nat>): LengthOp {
    if c == 16 then
      if acc == [] then BadOp else Items(Repeat(acc[|acc| - 1], Field(bits, q, 2) + 3), q + 2)
    else if c == 17 then Items(Repeat(0, Field(bits, q, 3) + 3), q + 3)
    else if c == 18 then Items(Repeat(0, Field(bits, q, 7) + 11), q + 7)
    else BadOp
  }

  datatype Lengths = Lengths(lens: seq<nat>, next: nat) | BadLengths | LengthsOverrun

  function RefLengths(symbols: seq<Symbol>, bits: seq<bool>, p: nat, total: nat, acc: seq<nat>): Lengths
    requires |symbols| == |bits| + 1 && |acc| <= total
    decreases total - |acc|
  {
    if p > |bits| then LengthsOverrun
    else if |acc| == total then Lengths(acc, p)
    else
      match LengthOpAt(symbols, bits, p, acc)
      case BadOp => BadLengths
      case Items(items, next) =>
        if items == [] || |items| > total - |acc| then BadLengths
        else RefLengths(symbols, bits, next, total, acc + items)
  }

  lemma LengthsStep(symbols: seq<Symbol>, bits: seq<bool>, p: nat, total: nat, acc: seq<nat>, items: seq<nat>, q: nat,
                    all: seq<nat>)
    requires |symbols| == |bits| + 1 && p <= |bits| && |acc| < total && items != [] && all == acc + items &&
      |all| <= total
    requires LengthOpAt(symbols, bits, p, acc) == Items(items, q)
    ensures RefLengths(symbols, bits, p, total, acc) == RefLengths(symbols, bits, q, total, all)
  {
  }

  // The same, with the decoder's stopping rule.

  datatype TakenItems = NoItems | TakenItems(items: seq<nat>, s: Cursor)

  function TakeItems(symbols: seq<Symbol>, bits: seq<bool>, size: nat, s: Cursor, acc: seq<nat>): TakenItems
    requires symbols != []
  {
    match DecodeSym(symbols, size, s)
    case NoCode => NoItems
    case Decoded(c, s') => if c < 16 then TakenItems([c], s') else TakeRun(bits, s', c, acc)
  }

  function TakeRun(bits: seq<bool>, s: Cursor, c: nat, acc: seq<nat>): TakenItems {
    if c == 16 then
      if acc == [] then NoItems else TakenItems(Repeat(acc[|acc| - 1], Field(bits, s.p, 2) + 3), Received(s, 2))
    else if c == 17 then TakenItems(Repeat(0, Field(bits, s.p, 3) + 3), Received(s, 3))
    else if c == 18 then TakenItems(Repeat(0, Field(bits, s.p, 7) + 11), Received(s, 7))
    else NoItems
  }

  datatype CountedLengths = NoLengths | SomeLengths(lens: seq<nat>, s: Cursor)

  function CountedLengthsFrom(symbols: seq<Symbol>, bits: seq<bool>, size: nat, s: Cursor, total: nat,
                              acc: seq<nat>): CountedLengths
    requires symbols != [] && |acc| <= total
    decreases total - |acc|
  {
    if |acc| == total then SomeLengths(acc, s)
    else
      match TakeItems(symbols, bits, size, s, acc)
      case NoItems => NoLengths
      case TakenItems(items, s') =>
        if items == [] || |items| > total - |acc| then NoLengths
        else CountedLengthsFrom(symbols, bits, size, s', total, acc + items)
  }

  ghost predicate AllLens(lens: seq<nat>) {
    forall i: nat :: i < |lens| ==> lens[i] <= 15
  }

  /** The run that a repeat code stands for. */
  method ReadRun(z: Inflater, c: nat, lens: seq<nat>) returns (ok: bool, items: seq<nat>)
    requires z.Valid() && c >= 16 && AllLens(lens)
    modifies z.reader
    ensures z.Valid() && AllLens(items)
    ensures ok ==> items != []
    ensures TakeRun(z.reader.bits, old(z.reader.State()), c, lens)
      == if ok then TakenItems(items, z.reader.State()) else NoItems
  {
    if c == 16 {
      if lens == [] { return false, []; }
      var n := z.reader.Receive(2);
      return true, Repeat(lens[|lens| - 1], n + 3);
    }
    if c == 17 {
      var n := z.reader.Receive(3);
      return true, Repeat(0, n + 3);
    }
    if c == 18 {
      var n := z.reader.Receive(7);
      return true, Repeat(0, n + 11);
    }
    return false, [];
  }

  /** One turn of the loop over code lengths: the items to append, or failure. */
  method ReadLengthOp(z: Inflater, zCodeLength: ZHuffman, ghost cl: seq<nat>, ghost symbols: seq<Symbol>,
                      lens: seq<nat>)
    returns (ok: bool, items: seq<nat>)
    requires z.Valid() && zCodeLength.Represents(cl) && Reads(symbols, cl, z.reader.bits) && AllLens(lens)
    modifies z.reader
    ensures z.Valid() && AllLens(items)
    ensures ok ==> items != []
    ensures TakeItems(symbols, z.reader.bits, |z.reader.input|, old(z.reader.State()), lens)
         == if ok then TakenItems(items, z.reader.State()) else NoItems
  {
    var c := z.reader.HuffmanDecode(cl, symbols, zCodeLength);
    if c < 0 { return false, []; }
    if c < 16 { return true, [c]; }
    ok, items := ReadRun(z, c, lens);
  }

  method ReadLengths(z: Inflater, zCodeLength: ZHuffman, ghost cl: seq<nat>, ghost symbols: seq<Symbol>, total: nat)
    returns (ok: bool, lens: seq<nat>)
    requires z.Valid() && zCodeLength.Represents(cl) && Reads(symbols, cl, z.reader.bits)
    modifies z.reader
    ensures z.Valid() && AllLens(lens) && (ok ==> |lens| == total)
    ensures CountedLengthsFrom(symbols, z.reader.bits, |z.reader.input|, old(z.reader.State()), total, [])
         == if ok then SomeLengths(lens, z.reader.State()) else NoLengths
  {
    lens := [];
    while |lens| < total
      invariant z.Valid() && zCodeLength.Represents(cl) && AllLens(lens) && |lens| <= total
      invariant CountedLengthsFrom(symbols, z.reader.bits, |z.reader.input|, z.reader.State(), total, lens)
             == CountedLengthsFrom(symbols, z.reader.bits, |z.reader.input|, old(z.reader.State()), total, [])
      decreases total - |lens|
    {
      var items;
      ok, items := ReadLengthOp(z, zCodeLength, cl, symbols, lens);
      if !ok { return; }
      if total - |lens| < |items| { return false, lens; }
      lens := lens + items;
    }
    ok := true;
  }

  // ---------- the tables of a block ----------

  datatype Header = Header(ll: seq<nat>, dl: seq<nat>, next: nat) | BadHeader | HeaderOverrun

  /** The lengths of the code length code, the bit position behind them, and how many lengths of each kind follow. */
  datatype RefCounts = NoCounts | RefCounts(cl: seq<nat>, next: nat, hlit: nat, hdist: nat)

  function RefCountsAt(order: Order, bits: seq<bool>, p: nat): RefCounts {
    var hclen := Field(bits, p + 10, 4) + 4;
    if hclen > 19 then NoCounts
    else RefCounts(CodeLengthLens(order, bits, p + 14, hclen), p + 14 + 3 * hclen,
                   Field(bits, p, 5) + 257, Field(bits, p + 5, 5) + 1)
  }

  /** The two lists of code lengths at the start of a dynamic block. */
  ghost function RefHeader(order: Order, bits: seq<bool>, p: nat): Header {
    match RefCountsAt(order, bits, p)
    case NoCounts => BadHeader
    case RefCounts(cl, next, hlit, hdist) => RefTables(cl, bits, next, hlit, hdist)
  }

  ghost function RefTables(cl: seq<nat>, bits: seq<bool>, p: nat, hlit: nat, hdist: nat): Header {
    if !Fits(cl) then BadHeader
    else
      match RefLengths(SymbolsOf(cl, bits), bits, p, hlit + hdist, [])
      case BadLengths => BadHeader
      case LengthsOverrun => HeaderOverrun
      case Lengths(lens, next) =>
        if |lens| != hlit + hdist then BadHeader else SplitTables(lens, hlit, next)
  }

  ghost function SplitTables(lens: seq<nat>, hlit: nat, next: nat): Header
    requires hlit <= |lens|
  {
    if Fits(lens[..hlit]) && Fits(lens[hlit..]) then Header(lens[..hlit], lens[hlit..], next) else BadHeader
  }

  datatype CountedHeader = NoHeader | SomeHeader(ll: seq<nat>, dl: seq<nat>, s: Cursor)

  /** After `n` three-bit fields. */
  function ReceivedSizes(s: Cursor, n: nat): Cursor {
    if n == 0 then s else Received(ReceivedSizes(s, n - 1), 3)
  }

  /** The lengths of the code length code, what follows them, and how many lengths of each kind to read. */
  datatype Counts = BadCounts | Counts(cl: seq<nat>, s: Cursor, hlit: nat, hdist: nat)

  function CountsAt(order: Order, bits: seq<bool>, s: Cursor): Counts {
    var s1 := Received(s, 5);
    var s2 := Received(s1, 5);
    var s3 := Received(s2, 4);
    var hclen := Field(bits, s2.p, 4) + 4;
    if hclen > 19 then BadCounts
    else Counts(CodeLengthLens(order, bits, s3.p, hclen), ReceivedSizes(s3, hclen),
                Field(bits, s.p, 5) + 257, Field(bits, s1.p, 5) + 1)
  }

  ghost function CountedHeaderAt(order: Order, bits: seq<bool>, size: nat, s: Cursor): CountedHeader {
    match CountsAt(order, bits, s)
    case BadCounts => NoHeader
    case Counts(cl, s', hlit, hdist) => CountedTables(cl, bits, size, s', hlit, hdist)
  }

  ghost function CountedTables(cl: seq<nat>, bits: seq<bool>, size: nat, s: Cursor, hlit: nat,
                               hdist: nat): CountedHeader {
    if !Fits(cl) then NoHeader
    else
      match CountedLengthsFrom(SymbolsOf(cl, bits), bits, size, s, hlit + hdist, [])
      case NoLengths => NoHeader
      case SomeLengths(lens, s') => if |lens| != hlit + hdist then NoHeader else CountedSplit(lens, hlit, s')
  }

  ghost function CountedSplit(lens: seq<nat>, hlit: nat, s: Cursor): CountedHeader
    requires hlit <= |lens|
  {
    if Fits(lens[..hlit]) && Fits(lens[hlit..]) then SomeHeader(lens[..hlit], lens[hlit..], s) else NoHeader
  }

  lemma ReadsSymbolsOf(lens: seq<nat>, bits: seq<bool>)
    ensures Reads(SymbolsOf(lens, bits), lens, bits)
  {}

  lemma {:induction false} CodeLengthLensSmall(order: Order, bits: seq<bool>, p: nat, n: nat)
    requires n <= 19
    ensures AllLens(CodeLengthLens(order, bits, p, n))
  {
    if n > 0 {
      CodeLengthLensSmall(order, bits, p, n - 1);
      FieldBelow(bits, p + 3 * (n - 1), 3);
      Pow2Values();
    }
  }

  /** One more size of the code length code, behind the `i` sizes that follow the bit position of `start`. */
  method ReadCodeLengthSize(z: Inflater, order: Order, sizes: seq<nat>, i: nat, ghost start: Cursor)
    returns (more: seq<nat>)
    requires z.Valid() && i < 19 && z.reader.State() == ReceivedSizes(start, i) && z.reader.bitPos == start.p + 3 * i
    requires sizes == CodeLengthLens(order, z.reader.bits, start.p, i)
    modifies z.reader
    ensures z.Valid() && z.reader.State() == ReceivedSizes(start, i + 1) && z.reader.bitPos == start.p + 3 * i + 3
    ensures more == CodeLengthLens(order, z.reader.bits, start.p, i + 1)
  {
    var s := z.reader.Receive(3);
    more := sizes[order[i] := s];
  }

  method ReadCodeLengthSizes(z: Inflater, order: Order, hclen: nat) returns (sizes: seq<nat>)
    requires z.Valid() && hclen <= 19
    modifies z.reader
    ensures z.Valid() && z.reader.State() == ReceivedSizes(old(z.reader.State()), hclen)
    ensures sizes == CodeLengthLens(order, z.reader.bits, old(z.reader.bitPos), hclen)
  {
    ghost var start := z.reader.State();
    sizes := Repeat(0, 19);
    var i := 0;
    while i < hclen
      invariant 0 <= i <= hclen && z.Valid() && z.reader.State() == ReceivedSizes(start, i)
      invariant z.reader.bitPos == start.p + 3 * i
      invariant sizes == CodeLengthLens(order, z.reader.bits, start.p, i)
    {
      sizes := ReadCodeLengthSize(z, order, sizes, i, start);
      i := i + 1;
    }
  }

  method BuildTables(z: Inflater, ll: seq<nat>, dl: seq<nat>) returns (ok: bool)
    requires z.Valid() && ValidLens(ll) && ValidLens(dl)
    modifies z.zLength.fast, z.zLength.firstCode, z.zLength.maxCode
    modifies z.zLength.firstSymbol, z.zLength.size, z.zLength.value
    modifies z.zDistance.fast, z.zDistance.firstCode, z.zDistance.maxCode
    modifies z.zDistance.firstSymbol, z.zDistance.size, z.zDistance.value
    ensures z.Valid()
    ensures ok <==> Fits(ll) && Fits(dl)
    ensures ok ==> z.zLength.Represents(ll) && z.zDistance.Represents(dl)
  {
    ok := z.zLength.Build(ll);
    if !ok { return; }
    ok := z.zDistance.Build(dl);
  }

  method ReadCount(z: Inflater, n: nat, base: nat) returns (count: nat)
    requires z.Valid() && n <= 24
    modifies z.reader
    ensures z.Valid() && z.reader.State() == Received(old(z.reader.State()), n)
    ensures count == Field(z.reader.bits, old(z.reader.bitPos), n) + base < Pow2(n) + base
  {
    FieldBelow(z.reader.bits, z.reader.bitPos, n);
    count := z.reader.Receive(n);
    count := count + base;
  }

  /** Read the tables of a dynamic block. */
  method ComputeHuffmanCodes(z: Inflater, order: Order) returns (ok: bool, ghost ll: seq<nat>, ghost dl: seq<nat>)
    requires z.Valid()
    modifies z.reader
    modifies z.zLength.fast, z.zLength.firstCode, z.zLength.maxCode
    modifies z.zLength.firstSymbol, z.zLength.size, z.zLength.value
    modifies z.zDistance.fast, z.zDistance.firstCode, z.zDistance.maxCode
    modifies z.zDistance.firstSymbol, z.zDistance.size, z.zDistance.value
    ensures z.Valid()
    ensures ok ==> z.zLength.Represents(ll) && z.zDistance.Represents(dl)
    ensures CountedHeaderAt(order, z.reader.bits, |z.reader.input|, old(z.reader.State()))
         == if ok then SomeHeader(ll, dl, z.reader.State()) else NoHeader
  {
    var hlit, hdist, sizes := ReadHeader(z, order);
    ok, ll, dl := ReadTables(z, sizes, hlit, hdist);
  }

  /** Read the counts and the lengths of the code length code. */
  method ReadHeader(z: Inflater, order: Order) returns (hlit: nat, hdist: nat, sizes: seq<nat>)
    requires z.Valid()
    modifies z.reader
    ensures z.Valid() && |sizes| == 19 && AllLens(sizes) && hlit <= 288 && hdist <= 32
    ensures CountsAt(order, z.reader.bits, old(z.reader.State())) == Counts(sizes, z.reader.State(), hlit, hdist)
  {
    Pow2Values();
    hlit := ReadCount(z, 5, 257);
    hdist := ReadCount(z, 5, 1);
    var hclen := ReadCount(z, 4, 4);
    ghost var p := z.reader.bitPos;
    sizes := ReadCodeLengthSizes(z, order, hclen);
    CodeLengthLensSmall(order, z.reader.bits, p, hclen);
  }

  /** Read the code lengths with their own code. */
  method ReadAllLengths(z: Inflater, sizes: seq<nat>, total: nat) returns (ok: bool, lens: seq<nat>)
    requires z.Valid() && |sizes| == 19 && AllLens(sizes)
    modifies z.reader
    ensures z.Valid() && AllLens(lens)
    ensures ok ==> Fits(sizes) && |lens| == total
    ensures Fits(sizes) ==>
      CountedLengthsFrom(SymbolsOf(sizes, z.reader.bits), z.reader.bits, |z.reader.input|, old(z.reader.State()),
                         total, [])
      == if ok then SomeLengths(lens, z.reader.State()) else NoLengths
  {
    var zCodeLength := new ZHuffman();
    ok := zCodeLength.Build(sizes);
    if !ok { return false, []; }
    ReadsSymbolsOf(sizes, z.reader.bits);
    ok, lens := ReadLengths(z, zCodeLength, sizes, SymbolsOf(sizes, z.reader.bits), total);
  }

  lemma TablesOfLengths(cl: seq<nat>, bits: seq<bool>, size: nat, s: Cursor, hlit: nat, hdist: nat, r: CountedLengths)
    requires Fits(cl) && r == CountedLengthsFrom(SymbolsOf(cl, bits), bits, size, s, hlit + hdist, [])
    ensures r.NoLengths? ==> CountedTables(cl, bits, size, s, hlit, hdist).NoHeader?
    ensures r.SomeLengths? && |r.lens| == hlit + hdist ==>
      CountedTables(cl, bits, size, s, hlit, hdist) == CountedSplit(r.lens, hlit, r.s)
  {}

  method ReadTables(z: Inflater, sizes: seq<nat>, hlit: nat, hdist: nat)
    returns (ok: bool, ghost ll: seq<nat>, ghost dl: seq<nat>)
    requires z.Valid() && |sizes| == 19 && AllLens(sizes) && hlit <= 288 && hdist <= 32
    modifies z.reader
    modifies z.zLength.fast, z.zLength.firstCode, z.zLength.maxCode
    modifies z.zLength.firstSymbol, z.zLength.size, z.zLength.value
    modifies z.zDistance.fast, z.zDistance.firstCode, z.zDistance.maxCode
    modifies z.zDistance.firstSymbol, z.zDistance.size, z.zDistance.value
    ensures z.Valid()
    ensures ok ==> z.zLength.Represents(ll) && z.zDistance.Represents(dl)
    ensures CountedTables(sizes, z.reader.bits, |z.reader.input|, old(z.reader.State()), hlit, hdist)
         == if ok then SomeHeader(ll, dl, z.reader.State()) else NoHeader
  {
    ghost var bits, s := z.reader.bits, z.reader.State();
    var lens;
    ok, lens := ReadAllLengths(z, sizes, hlit + hdist);
    if Fits(sizes) {
      TablesOfLengths(sizes, bits, |z.reader.input|, s, hlit, hdist,
                      if ok then SomeLengths(lens, z.reader.State()) else NoLengths);
    }
    if !ok { return false, [], []; }
    ll, dl := lens[..hlit], lens[hlit..];
    SplitIsValid(lens, hlit, hdist);
    ok := BuildTables(z, lens[..hlit], lens[hlit..]);
  }

  lemma SplitIsValid(lens: seq<nat>, hlit: nat, hdist: nat)
    requires AllLens(lens) && |lens| == hlit + hdist && hlit <= 288 && hdist <= 32
    ensures ValidLens(lens[..hlit]) && ValidLens(lens[hlit..])
  {}

  // ---------- fixed tables (section 3.2.6) ----------

  function DefaultLength(i: nat): nat {
    if i <= 143 then 8 else if i <= 255 then 9 else if i <= 279 then 7 else 8
  }

  function DefaultLengths(): seq<nat> {
    seq(288, i requires 0 <= i => DefaultLength(i))
  }

  function DefaultDistances(): seq<nat> {
    Repeat(5, 32)
  }

  /** A run of equal lengths adds its size to the count of that length only. */
  lemma {:induction false} CountRun(lens: seq<nat>, a: nat, b: nat, len: nat, x: nat)
    requires a <= b <= |lens| && forall i: nat :: a <= i < b ==> lens[i] == len
    ensures CountUpTo(lens, b, x) == CountUpTo(lens, a, x) + if x == len then b - a else 0
  {
    if a < b { CountRun(lens, a, b - 1, len, x); }
  }

  lemma DefaultCounts(lens: seq<nat>, x: nat)
    requires lens == DefaultLengths() && 1 <= x
    ensures Count(lens, x) == if x == 7 then 24 else if x == 8 then 152 else if x == 9 then 112 else 0
  {
    CountRun(lens, 0, 144, 8, x);
    CountRun(lens, 144, 256, 9, x);
    CountRun(lens, 256, 280, 7, x);
    CountRun(lens, 280, 288, 8, x);
  }

  lemma {:induction false} NoShorterCodes(lens: seq<nat>, len: nat)
    requires forall x: nat :: 1 <= x < len ==> Count(lens, x) == 0
    ensures FirstCode(lens, len) == 0
  {
    if len > 1 {
      NoShorterCodes(lens, len - 1);
      assert Count(lens, len - 1) == 0;
    }
  }

  lemma DefaultLengthsFit()
    ensures ValidLens(DefaultLengths()) && Fits(DefaultLengths())
  {
    var lens := DefaultLengths();
    forall x: nat | 1 <= x
      ensures Count(lens, x) == if x == 7 then 24 else if x == 8 then 152 else if x == 9 then 112 else 0 {
      DefaultCounts(lens, x);
    }
    forall len: nat | 1 <= len <= 15 ensures FitsAt(lens, len) {
      NoShorterCodes(lens, 7);
      assert FirstCode(lens, 8) == 2 * (FirstCode(lens, 7) + 24);
      assert FirstCode(lens, 9) == 2 * (FirstCode(lens, 8) + 152);
      Pow2Values();
    }
  }

  lemma DefaultDistancesFit()
    ensures ValidLens(DefaultDistances()) && Fits(DefaultDistances())
  {
    var lens := DefaultDistances();
    forall x: nat | 1 <= x ensures Count(lens, x) == if x == 5 then 32 else 0 { CountRun(lens, 0, 32, 5, x); }
    forall len: nat | 1 <= len <= 15 ensures FitsAt(lens, len) {
      NoShorterCodes(lens, 5);
      Pow2Values();
    }
  }

  // ---------- blocks ----------

  /** A stored block: LEN and its complement at the next byte boundary, then LEN bytes. */
  function RefStored(input: seq<Byte>, p: nat, out: seq<Byte>): Outcome {
    RefStoredAt(input, (p + 7) / 8, out)
  }

  function RefStoredAt(input: seq<Byte>, k: nat, out: seq<Byte>): Outcome {
    if k + 4 > |input| then Overrun
    else
      var len: nat := 256 * input[k + 1] as int + input[k];
      var nlen: nat := 256 * input[k + 3] as int + input[k + 2];
      if nlen + len != 0xFFFF then Bad
      else if k + 4 + len > |input| then Overrun
      else Done(out + input[k + 4..k + 4 + len], 8 * (k + 4 + len))
  }

  /** The body of a block of the given type. */
  ghost function LaxBody(t: DeflateTables, order: Order, input: seq<Byte>, bits: seq<bool>, kind: nat, p: nat,
                         out: seq<Byte>): Outcome {
    if kind == 0 then RefStored(input, p, out)
    else if kind == 1 then RefCompressed(t, bits, Header(DefaultLengths(), DefaultDistances(), p), out)
    else if kind == 2 then RefCompressed(t, bits, RefHeader(order, bits, p), out)
    else Bad
  }

  ghost function RefCompressed(t: DeflateTables, bits: seq<bool>, h: Header, out: seq<Byte>): Outcome {
    match h
    case BadHeader => Bad
    case HeaderOverrun => Overrun
    case Header(ll, dl, next) => RefBlock(t, SymbolsOf(ll, bits), SymbolsOf(dl, bits), bits, next, out)
  }

  /** Blocks up to and including the one marked final. */
  ghost function LaxBlocks(t: DeflateTables, order: Order, input: seq<Byte>, bits: seq<bool>, p: nat,
                           out: seq<Byte>): Outcome
    decreases |bits| + 1 - p
  {
    if p > |bits| then Overrun
    else
      var r := LaxBody(t, order, input, bits, Field(bits, p + 1, 2), p + 3, out);
      if !r.Done? || Field(bits, p, 1) == 1 then r
      else if r.next <= p then Bad
      else LaxBlocks(t, order, input, bits, r.next, r.out)
  }

  /**
    The two header bytes of section 2.2 of RFC 1950: DEFLATE, no preset dictionary, check bits, and data after them.
   */
  predicate HeaderTaken(input: seq<Byte>) {
    |input| > 2 && (256 * input[0] as int + input[1]) % 31 == 0 && Bit(input[1], 5) == 0 && Low(input[0], 4) == 8
  }

  lemma LaxBodyGrows(t: DeflateTables, order: Order, input: seq<Byte>, bits: seq<bool>, kind: nat, p: nat,
                     out: seq<Byte>)
    requires |bits| == 8 * |input|
    ensures var r := LaxBody(t, order, input, bits, kind, p, out); r.Done? ==> out <= r.out
  {
    if kind == 1 || kind == 2 {
      var h := if kind == 1 then Header(DefaultLengths(), DefaultDistances(), p) else RefHeader(order, bits, p);
      if h.Header? { RefBlockGrows(t, SymbolsOf(h.ll, bits), SymbolsOf(h.dl, bits), bits, h.next, out); }
    }
  }

  lemma PrefixTrans(a: seq<Byte>, b: seq<Byte>, c: seq<Byte>)
    requires a <= b && b <= c
    ensures a <= c
  {
  }

  /** The first block, and how decoding goes on behind it. */
  lemma LaxFirst(t: DeflateTables, order: Order, input: seq<Byte>, bits: seq<bool>, p: nat, out: seq<Byte>)
    returns (r: Outcome, last: bool)
    requires |bits| == 8 * |input| && p <= |bits|
    ensures LaxBlocks(t, order, input, bits, p, out) ==
      if !r.Done? || last then r else if r.next <= p then Bad else LaxBlocks(t, order, input, bits, r.next, r.out)
    ensures r.Done? ==> out <= r.out
  {
    var kind := Field(bits, p + 1, 2);
    r, last := LaxBody(t, order, input, bits, kind, p + 3, out), Field(bits, p, 1) == 1;
    LaxBodyGrows(t, order, input, bits, kind, p + 3, out);
  }

  lemma {:induction false} LaxBlocksGrows(t: DeflateTables, order: Order, input: seq<Byte>, bits: seq<bool>, p: nat,
                                          out: seq<Byte>)
    requires |bits| == 8 * |input|
    ensures var r := LaxBlocks(t, order, input, bits, p, out); r.Done? ==> out <= r.out
    decreases |bits| + 1 - p
  {
    if p <= |bits| {
      var r, last := LaxFirst(t, order, input, bits, p, out);
      if r.Done? && !last && r.next > p {
        LaxBlocksGrows(t, order, input, bits, r.next, r.out);
        var all := LaxBlocks(t, order, input, bits, r.next, r.out);
        if all.Done? { PrefixTrans(out, r.out, all.out); }
      }
    }
  }

  // ---------- the decoder's stopping rule for blocks ----------

  /** A stored block must lie within the input. */
  function CountedStored(input: seq<Byte>, s: Cursor, out: seq<Byte>, limit: nat): Counted {
    CountedStoredAt(input, (s.p + 7) / 8, s.hit, out, limit)
  }

  function CountedStoredAt(input: seq<Byte>, k: nat, hit: bool, out: seq<Byte>, limit: nat): Counted {
    match RefStoredAt(input, k, out)
    case Done(out', next) => if |out'| > limit then Refused else Accepted(out', Cursor(next, next / 8, hit))
    case _ => Refused
  }

  ghost function CountedCompressed(t: DeflateTables, bits: seq<bool>, size: nat, h: CountedHeader, out: seq<Byte>,
                                   limit: nat): Counted {
    match h
    case NoHeader => Refused
    case SomeHeader(ll, dl, s) => CountedBlock(t, SymbolsOf(ll, bits), SymbolsOf(dl, bits), bits, size, s, out, limit)
  }

  ghost function CountedBody(t: DeflateTables, order: Order, input: seq<Byte>, bits: seq<bool>, kind: nat, s: Cursor,
                             out: seq<Byte>, limit: nat): Counted {
    if kind == 0 then CountedStored(input, s, out, limit)
    else if kind == 1 then
      CountedCompressed(t, bits, |input|, SomeHeader(DefaultLengths(), DefaultDistances(), s), out, limit)
    else if kind == 2 then CountedCompressed(t, bits, |input|, CountedHeaderAt(order, bits, |input|, s), out, limit)
    else Refused
  }

  /** The three header bits, and the body. */
  ghost function CountedOne(t: DeflateTables, order: Order, input: seq<Byte>, bits: seq<bool>, s: Cursor,
                            out: seq<Byte>, limit: nat): Counted {
    CountedBody(t, order, input, bits, Field(bits, s.p + 1, 2), Received(Received(s, 1), 2), out, limit)
  }

  ghost function CountedBlocks(t: DeflateTables, order: Order, input: seq<Byte>, bits: seq<bool>, s: Cursor,
                               out: seq<Byte>, limit: nat): Counted
    decreases |bits| + 1 - s.p
  {
    if s.p > |bits| then Refused
    else
      var r := CountedOne(t, order, input, bits, s, out, limit);
      if r.Refused? || Field(bits, s.p, 1) == 1 then r
      else if r.s.p <= s.p then Refused
      else CountedBlocks(t, order, input, bits, r.s, r.out, limit)
  }

  lemma NextBoundary(p: nat, k: nat)
    requires p <= 8 * k < p + 8
    ensures (p + 7) / 8 == k
  {}

  method ParseUncompressedBlock(z: Inflater) returns (ok: bool)
    requires z.Valid()
    modifies z.reader, z.zout, z.zout.buf
    ensures z.Valid() && z.zout.Limit() == old(z.zout.Limit()) && (z.zout.buf == old(z.zout.buf) || fresh(z.zout.buf))
    ensures CountedStored(z.reader.input, old(z.reader.State()), old(z.zout.Contents()), z.zout.Limit()) == z.Result(ok)
  {
    ghost var k := z.reader.Align();
    NextBoundary(old(z.reader.bitPos), k);
    ok := CopyStored(z, k);
  }

  /** Four bytes that are zero beyond the input: a block that starts there has a length that does not fit. */
  lemma StoredBeyond(input: seq<Byte>, k: nat, header: seq<nat>, out: seq<Byte>, limit: nat, hit: bool)
    requires |header| == 4 && forall j: nat :: j < 4 ==> header[j] == if k + j < |input| then input[k + j] else 0
    ensures var len, nlen := header[1] * 256 + header[0], header[3] * 256 + header[2];
      var fits := nlen + len == 0xFFFF && k + 4 + len <= |input| && |out| + len <= limit;
      && (nlen + len == 0xFFFF && k + 4 > |input| ==> len > 0)
      && CountedStoredAt(input, k, hit, out, limit) ==
        if fits then Accepted(out + input[k + 4..k + 4 + len], Cursor(8 * (k + 4 + len), k + 4 + len, hit)) else Refused
  {
  }

  method CopyStored(z: Inflater, ghost k: nat) returns (ok: bool)
    requires z.Valid() && z.reader.bitPos == 8 * k
    modifies z.reader, z.zout, z.zout.buf
    ensures z.Valid() && z.zout.Limit() == old(z.zout.Limit()) && (z.zout.buf == old(z.zout.buf) || fresh(z.zout.buf))
    ensures CountedStoredAt(z.reader.input, k, old(z.reader.hitZeofOnce), old(z.zout.Contents()), z.zout.Limit()) ==
      z.Result(ok)
  {
    var len;
    ok, len := StoredLength(z, k, z.zout.Contents(), z.zout.Limit());
    if ok { ok := TakeStored(z, k + 4, len); }
  }

  /** Append the `len` bytes at byte `k` to the output, if there is room. */
  method TakeStored(z: Inflater, ghost k: nat, len: nat) returns (ok: bool)
    requires z.Valid() && z.reader.numBits == 0 && z.reader.pos == k && k + len <= |z.reader.input|
    requires z.reader.State() == Cursor(8 * k, k, z.reader.hitZeofOnce)
    modifies z.reader`pos, z.reader`bitPos, z.reader`fetched, z.zout, z.zout.buf
    ensures z.Valid() && z.zout.Limit() == old(z.zout.Limit()) && (z.zout.buf == old(z.zout.buf) || fresh(z.zout.buf))
    ensures StoredIfRoom(old(z.zout.Contents()), z.reader.input[k..k + len], z.zout.Limit(), k + len,
                         z.reader.hitZeofOnce) == z.Result(ok)
  {
    ok := z.zout.Append(z.reader.input[z.reader.pos..z.reader.pos + len]);
    if ok { z.reader.SkipBytes(len); }
  }

  /** The header of a stored block at byte `k`: its length, when it checks and its data lies within the input. */
  method StoredLength(z: Inflater, ghost k: nat, ghost out: seq<Byte>, ghost limit: nat) returns (ok: bool, len: nat)
    requires z.Valid() && z.reader.bitPos == 8 * k
    modifies z.reader
    ensures z.Valid() && z.reader.hitZeofOnce == old(z.reader.hitZeofOnce)
    ensures !ok ==> CountedStoredAt(z.reader.input, k, z.reader.hitZeofOnce, out, limit) == Refused
    ensures ok ==> z.reader.pos == k + 4 && z.reader.pos + len <= |z.reader.input| && z.reader.numBits == 0
    ensures ok ==> z.reader.State() == Cursor(8 * (k + 4), k + 4, z.reader.hitZeofOnce)
    ensures ok ==> CountedStoredAt(z.reader.input, k, z.reader.hitZeofOnce, out, limit) ==
                   StoredIfRoom(out, z.reader.input[k + 4..k + 4 + len], limit, k + 4 + len, z.reader.hitZeofOnce)
  {
    var header := z.reader.AlignedHeader(k);
    len := header[1] * 256 + header[0];
    var nlen := header[3] * 256 + header[2];
    StoredBeyond(z.reader.input, k, header, out, limit, z.reader.hitZeofOnce);
    ok := nlen + len == 0xFFFF && z.reader.pos + len <= |z.reader.input|;
  }

  function StoredIfRoom(out: seq<Byte>, data: seq<Byte>, limit: nat, end: nat, hit: bool): Counted {
    if |out| + |data| <= limit then Accepted(out + data, Cursor(8 * end, end, hit)) else Refused
  }

  /** Decode the elements of a block whose tables are in place. */
  method ParseWithTables(z: Inflater, ghost ll: seq<nat>, ghost dl: seq<nat>) returns (ok: bool)
    requires z.Valid() && z.zLength.Represents(ll) && z.zDistance.Represents(dl)
    modifies z.reader, z.zout, z.zout.buf
    ensures z.Valid() && z.zout.Limit() == old(z.zout.Limit()) && (z.zout.buf == old(z.zout.buf) || fresh(z.zout.buf))
    ensures CountedCompressed(z.t, z.reader.bits, |z.reader.input|, SomeHeader(ll, dl, old(z.reader.State())),
                              old(z.zout.Contents()), z.zout.Limit()) == z.Result(ok)
  {
    ghost var lit, dst := SymbolsOf(ll, z.reader.bits), SymbolsOf(dl, z.reader.bits);
    ReadsSymbolsOf(ll, z.reader.bits);
    ReadsSymbolsOf(dl, z.reader.bits);
    ok := z.ParseHuffmanBlock(ll, dl, lit, dst);
  }

  method ParseFixedBlock(z: Inflater) returns (ok: bool)
    requires z.Valid()
    modifies z.reader, z.zout, z.zout.buf
    modifies z.zLength.fast, z.zLength.firstCode, z.zLength.maxCode
    modifies z.zLength.firstSymbol, z.zLength.size, z.zLength.value
    modifies z.zDistance.fast, z.zDistance.firstCode, z.zDistance.maxCode
    modifies z.zDistance.firstSymbol, z.zDistance.size, z.zDistance.value
    ensures z.Valid() && z.zout.Limit() == old(z.zout.Limit()) && (z.zout.buf == old(z.zout.buf) || fresh(z.zout.buf))
    ensures CountedCompressed(z.t, z.reader.bits, |z.reader.input|,
                              SomeHeader(DefaultLengths(), DefaultDistances(), old(z.reader.State())),
                              old(z.zout.Contents()), z.zout.Limit()) == z.Result(ok)
  {
    DefaultLengthsFit();
    DefaultDistancesFit();
    var built := BuildTables(z, DefaultLengths(), DefaultDistances());
    ok := ParseWithTables(z, DefaultLengths(), DefaultDistances());
  }

  method ParseDynamicBlock(z: Inflater, order: Order) returns (ok: bool)
    requires z.Valid()
    modifies z.reader, z.zout, z.zout.buf
    modifies z.zLength.fast, z.zLength.firstCode, z.zLength.maxCode
    modifies z.zLength.firstSymbol, z.zLength.size, z.zLength.value
    modifies z.zDistance.fast, z.zDistance.firstCode, z.zDistance.maxCode
    modifies z.zDistance.firstSymbol, z.zDistance.size, z.zDistance.value
    ensures z.Valid() && z.zout.Limit() == old(z.zout.Limit()) && (z.zout.buf == old(z.zout.buf) || fresh(z.zout.buf))
    ensures CountedCompressed(z.t, z.reader.bits, |z.reader.input|,
                              CountedHeaderAt(order, z.reader.bits, |z.reader.input|, old(z.reader.State())),
                              old(z.zout.Contents()), z.zout.Limit()) == z.Result(ok)
  {
    ghost var h := CountedHeaderAt(order, z.reader.bits, |z.reader.input|, z.reader.State());
    ghost var ll, dl;
    ok, ll, dl := ComputeHuffmanCodes(z, order);
    assert h == if ok then SomeHeader(ll, dl, z.reader.State()) else NoHeader;
    if !ok { return; }
    ok := ParseWithTables(z, ll, dl);
  }

  method ParseBody(z: Inflater, order: Order, kind: nat) returns (ok: bool)
    requires z.Valid() && kind < 4
    modifies z.reader, z.zout, z.zout.buf
    modifies z.zLength.fast, z.zLength.firstCode, z.zLength.maxCode
    modifies z.zLength.firstSymbol, z.zLength.size, z.zLength.value
    modifies z.zDistance.fast, z.zDistance.firstCode, z.zDistance.maxCode
    modifies z.zDistance.firstSymbol, z.zDistance.size, z.zDistance.value
    ensures z.Valid() && z.zout.Limit() == old(z.zout.Limit()) && (z.zout.buf == old(z.zout.buf) || fresh(z.zout.buf))
    ensures CountedBody(z.t, order, z.reader.input, z.reader.bits, kind, old(z.reader.State()),
                        old(z.zout.Contents()), z.zout.Limit()) == z.Result(ok)
  {
    if kind == 0 {
      ok := ParseUncompressedBlock(z);
    } else if kind == 3 {
      ok := false;
    } else if kind == 1 {
      ok := ParseFixedBlock(z);
    } else {
      ok := ParseDynamicBlock(z, order);
    }
  }

  method ReadBlockHeader(z: Inflater) returns (final: nat, kind: nat)
    requires z.Valid()
    modifies z.reader
    ensures z.Valid() && z.reader.State() == Received(Received(old(z.reader.State()), 1), 2)
    ensures final == Field(z.reader.bits, old(z.reader.bitPos), 1) < 2
    ensures kind == Field(z.reader.bits, old(z.reader.bitPos) + 1, 2) < 4
  {
    Pow2Values();
    assert Pow2(1) == 2 && Pow2(2) == 4;
    FieldBelow(z.reader.bits, z.reader.bitPos, 1);
    FieldBelow(z.reader.bits, z.reader.bitPos + 1, 2);
    final := z.reader.Receive(1);
    kind := z.reader.Receive(2);
  }

  lemma OneIs(t: DeflateTables, order: Order, input: seq<Byte>, bits: seq<bool>, s: Cursor, kind: nat, s': Cursor,
              out: seq<Byte>, limit: nat)
    requires kind == Field(bits, s.p + 1, 2) && s' == Received(Received(s, 1), 2)
    ensures CountedOne(t, order, input, bits, s, out, limit) == CountedBody(t, order, input, bits, kind, s', out, limit)
  {
  }

  /** One block, with its three header bits. */
  method ParseBlock(z: Inflater, order: Order) returns (ok: bool, final: nat)
    requires z.Valid()
    modifies z.reader, z.zout, z.zout.buf
    modifies z.zLength.fast, z.zLength.firstCode, z.zLength.maxCode
    modifies z.zLength.firstSymbol, z.zLength.size, z.zLength.value
    modifies z.zDistance.fast, z.zDistance.firstCode, z.zDistance.maxCode
    modifies z.zDistance.firstSymbol, z.zDistance.size, z.zDistance.value
    ensures z.Valid() && z.zout.Limit() == old(z.zout.Limit()) && (z.zout.buf == old(z.zout.buf) || fresh(z.zout.buf))
    ensures final == Field(z.reader.bits, old(z.reader.bitPos), 1) < 2
    ensures CountedOne(z.t, order, z.reader.input, z.reader.bits, old(z.reader.State()),
                       old(z.zout.Contents()), z.zout.Limit()) == z.Result(ok)
  {
    ghost var s, out, limit := z.reader.State(), z.zout.Contents(), z.zout.Limit();
    var kind;
    final, kind := ReadBlockHeader(z);
    assert z.zout.Contents() == out && z.zout.Limit() == limit;
    OneIs(z.t, order, z.reader.input, z.reader.bits, s, kind, z.reader.State(), out, limit);
    ok := ParseBody(z, order, kind);
  }

  /** Past the end of the input there is nothing but a stored block that does not fit. */
  lemma BeyondRefused(t: DeflateTables, order: Order, input: seq<Byte>, bits: seq<bool>, s: Cursor, out: seq<Byte>,
                      limit: nat)
    requires |bits| == 8 * |input| && s.p >= |bits|
    ensures CountedOne(t, order, input, bits, s, out, limit) == Refused
  {
    ZerosPastEnd(bits, s.p + 1, 2);
  }

  /** Every accepted block moves on. */
  lemma OneForward(t: DeflateTables, order: Order, input: seq<Byte>, bits: seq<bool>, s: Cursor, out: seq<Byte>,
                   limit: nat)
    ensures var r := CountedOne(t, order, input, bits, s, out, limit); r.Accepted? ==> s.p < r.s.p
  {
    BodyForward(t, order, input, bits, Field(bits, s.p + 1, 2), Received(Received(s, 1), 2), out, limit);
  }

  lemma BodyForward(t: DeflateTables, order: Order, input: seq<Byte>, bits: seq<bool>, kind: nat, s: Cursor,
                    out: seq<Byte>, limit: nat)
    ensures var r := CountedBody(t, order, input, bits, kind, s, out, limit); r.Accepted? ==> s.p <= r.s.p
  {
    if kind == 1 {
      CompressedForward(t, bits, |input|, SomeHeader(DefaultLengths(), DefaultDistances(), s), out, limit);
    } else if kind == 2 {
      HeaderForward(order, bits, |input|, s);
      CompressedForward(t, bits, |input|, CountedHeaderAt(order, bits, |input|, s), out, limit);
    }
  }

  lemma CompressedForward(t: DeflateTables, bits: seq<bool>, size: nat, h: CountedHeader, out: seq<Byte>, limit: nat)
    ensures var r := CountedCompressed(t, bits, size, h, out, limit); r.Accepted? ==> h.SomeHeader? && h.s.p <= r.s.p
  {
    if h.SomeHeader? { BlockForward(t, SymbolsOf(h.ll, bits), SymbolsOf(h.dl, bits), bits, size, h.s, out, limit); }
  }

  lemma ElementForward(t: DeflateTables, lit: seq<Symbol>, dst: seq<Symbol>, bits: seq<bool>, size: nat, s: Cursor)
    requires lit != [] && dst != []
    ensures var r := TakeElement(t, lit, dst, bits, size, s); r.Taken? ==> s.p <= r.s.p
  {
  }

  lemma {:induction false} BlockForward(t: DeflateTables, lit: seq<Symbol>, dst: seq<Symbol>, bits: seq<bool>,
                                        size: nat, s: Cursor, out: seq<Byte>, limit: nat)
    requires lit != [] && dst != []
    ensures var r := CountedBlock(t, lit, dst, bits, size, s, out, limit); r.Accepted? ==> s.p <= r.s.p
    decreases limit - |out|
  {
    var r := TakeElement(t, lit, dst, bits, size, s);
    ElementForward(t, lit, dst, bits, size, s);
    if r.Taken? && CanApply(out, r.e) && |Applied(out, r.e)| <= limit {
      AppliedGrows(out, r.e);
      BlockForward(t, lit, dst, bits, size, r.s, Applied(out, r.e), limit);
    }
  }

  lemma HeaderForward(order: Order, bits: seq<bool>, size: nat, s: Cursor)
    ensures var h := CountedHeaderAt(order, bits, size, s); h.SomeHeader? ==> s.p <= h.s.p
  {
    CountsForward(order, bits, s);
    var c := CountsAt(order, bits, s);
    if c.Counts? { TablesForward(c.cl, bits, size, c.s, c.hlit, c.hdist); }
  }

  lemma CountsForward(order: Order, bits: seq<bool>, s: Cursor)
    ensures CountsAt(order, bits, s).Counts? ==> s.p <= CountsAt(order, bits, s).s.p
  {
    var s3 := Received(Received(Received(s, 5), 5), 4);
    var hclen := Field(bits, Received(Received(s, 5), 5).p, 4) + 4;
    if hclen <= 19 { SizesForward(s3, hclen); }
  }

  lemma TablesForward(cl: seq<nat>, bits: seq<bool>, size: nat, s: Cursor, hlit: nat, hdist: nat)
    ensures var h := CountedTables(cl, bits, size, s, hlit, hdist); h.SomeHeader? ==> s.p <= h.s.p
  {
    LengthsForward(SymbolsOf(cl, bits), bits, size, s, hlit + hdist, []);
  }

  lemma {:induction false} SizesForward(s: Cursor, n: nat)
    ensures ReceivedSizes(s, n).p == s.p + 3 * n
  {
    if n > 0 { SizesForward(s, n - 1); }
  }

  lemma {:induction false} LengthsForward(symbols: seq<Symbol>, bits: seq<bool>, size: nat, s: Cursor, total: nat,
                                          acc: seq<nat>)
    requires symbols != [] && |acc| <= total
    ensures var r := CountedLengthsFrom(symbols, bits, size, s, total, acc); r.SomeLengths? ==> s.p <= r.s.p
    decreases total - |acc|
  {
    var r := TakeItems(symbols, bits, size, s, acc);
    if |acc| < total && r.TakenItems? && 0 < |r.items| <= total - |acc| {
      LengthsForward(symbols, bits, size, r.s, total, acc + r.items);
    }
  }

  /** One turn of the block loop. */
  method NextBlock(z: Inflater, order: Order) returns (ok: bool, final: nat)
    requires z.Valid()
    modifies z.reader, z.zout, z.zout.buf
    modifies z.zLength.fast, z.zLength.firstCode, z.zLength.maxCode
    modifies z.zLength.firstSymbol, z.zLength.size, z.zLength.value
    modifies z.zDistance.fast, z.zDistance.firstCode, z.zDistance.maxCode
    modifies z.zDistance.firstSymbol, z.zDistance.size, z.zDistance.value
    ensures z.Valid() && z.zout.Limit() == old(z.zout.Limit()) && (z.zout.buf == old(z.zout.buf) || fresh(z.zout.buf))
    ensures ok ==> old(z.reader.bitPos) < z.reader.bitPos && old(z.reader.bitPos) < |z.reader.bits|
    ensures CountedBlocks(z.t, order, z.reader.input, z.reader.bits, old(z.reader.State()), old(z.zout.Contents()),
      z.zout.Limit())
         == if ok && final == 0 then
              CountedBlocks(z.t, order, z.reader.input, z.reader.bits, z.reader.State(), z.zout.Contents(),
                z.zout.Limit())
            else z.Result(ok)
  {
    ghost var bits, s, out := z.reader.bits, z.reader.State(), z.zout.Contents();
    OneForward(z.t, order, z.reader.input, bits, s, out, z.zout.Limit());
    if s.p >= |bits| { BeyondRefused(z.t, order, z.reader.input, bits, s, out, z.zout.Limit()); }
    ok, final := ParseBlock(z, order);
  }

  /** Block after block up to the final one. */
  method ParseBlocks(z: Inflater, order: Order) returns (ok: bool)
    requires z.Valid()
    modifies z.reader, z.zout, z.zout.buf
    modifies z.zLength.fast, z.zLength.firstCode, z.zLength.maxCode
    modifies z.zLength.firstSymbol, z.zLength.size, z.zLength.value
    modifies z.zDistance.fast, z.zDistance.firstCode, z.zDistance.maxCode
    modifies z.zDistance.firstSymbol, z.zDistance.size, z.zDistance.value
    ensures z.Valid() && z.zout.Limit() == old(z.zout.Limit()) && (z.zout.buf == old(z.zout.buf) || fresh(z.zout.buf))
    ensures CountedBlocks(z.t, order, z.reader.input, z.reader.bits, old(z.reader.State()), old(z.zout.Contents()),
      z.zout.Limit())
         == z.Result(ok)
  {
    ghost var target := CountedBlocks(z.t, order, z.reader.input, z.reader.bits, z.reader.State(), z.zout.Contents(),
      z.zout.Limit());
    var final;
    ok, final := NextBlock(z, order);
    while ok && final == 0
      invariant z.Valid() && z.zout.Limit() == old(z.zout.Limit()) &&
        (z.zout.buf == old(z.zout.buf) || fresh(z.zout.buf))
      invariant target == if ok && final == 0 then
          CountedBlocks(z.t, order, z.reader.input, z.reader.bits, z.reader.State(), z.zout.Contents(), z.zout.Limit())
        else z.Result(ok)
      decreases ok && final == 0, if z.reader.bitPos < |z.reader.bits| then |z.reader.bits| - z.reader.bitPos else 0
    {
      ok, final := NextBlock(z, order);
    }
  }

  // ---------- the zlib stream ----------

  /** The reference: after the two header bytes, the blocks. */
  ghost function LaxZlib(input: seq<Byte>): Outcome {
    if HeaderTaken(input) then LaxBlocks(StandardTables(), StandardOrder(), input, BitsOfBytes(input), 16, []) else Bad
  }

  /** The decoder's stopping rule for the whole stream, when the output may grow to `limit` bytes. */
  ghost function CountedZlib(input: seq<Byte>, limit: nat): Counted {
    if HeaderTaken(input) then
      CountedBlocks(StandardTables(), StandardOrder(), input, BitsOfBytes(input), Cursor(16, 2, false), [], limit)
    else Refused
  }

  lemma HeaderMasks(cmf: Byte, flg: Byte)
    ensures And(cmf, 15) == Low(cmf, 4)
    ensures And(flg, 32) != 0 <==> Bit(flg, 5) == 1
  {
    Pow2Values();
    AndMask(cmf, 4);
    AndSingleBit(flg, 5);
  }

  method ParseZlibHeader(z: Inflater) returns (ok: bool)
    requires z.Valid() && z.reader.bitPos == 0 && z.reader.numBits == 0
    modifies z.reader
    ensures z.Valid() && z.reader.State() == Cursor(16, 2, old(z.reader.hitZeofOnce))
    ensures ok <==> HeaderTaken(z.reader.input)
  {
    var cmf := z.reader.GetAligned(0);
    var flg := z.reader.GetAligned(1);
    HeaderMasks(cmf, flg);
    BitIsBinary(flg, 5);
    if z.reader.AtEof() { return false; }
    if (cmf as int * 256 + flg) % 31 != 0 { return false; }
    if And(flg, 32) != 0 { return false; }
    if And(cmf, 15) != 8 { return false; }
    ok := true;
  }
}
