/** The input of the zlib reader as a stream of bits, lowest bit of each byte first, followed by zeros. */
module BitStream {
  import opened Bits

  function InBit(bits: seq<bool>, k: nat): nat {
    if k < |bits| && bits[k] then 1 else 0
  }

  /** The `n`-bit field at bit position `p`: the first bit read is the least significant. */
  function Field(bits: seq<bool>, p: nat, n: nat): nat
    decreases n, p
  {
    if n == 0 then 0 else InBit(bits, p) + 2 * Field(bits, p + 1, n - 1)
  }

  /** `bits` are the bits of the bytes of `input`. */
  ghost predicate BitsOf(bits: seq<bool>, input: seq<Byte>) {
    && |bits| == 8 * |input|
    && forall k: nat, i: nat {:trigger Bit(input[k], i)} :: k < |input| && i < 8 ==>
      (bits[8 * k + i] <==> Bit(input[k], i) == 1)
  }

  function BitsOfBytes(input: seq<Byte>): seq<bool> {
    seq(8 * |input|, k requires 0 <= k < 8 * |input| => Bit(input[k / 8], k % 8) == 1)
  }

  lemma BitsOfBytesCorrect(input: seq<Byte>)
    ensures BitsOf(BitsOfBytes(input), input)
  {
    forall k: nat, i: nat | k < |input| && i < 8
      ensures BitsOfBytes(input)[8 * k + i] <==> Bit(input[k], i) == 1
    {
      assert (8 * k + i) / 8 == k && (8 * k + i) % 8 == i;
    }
  }

  /** `v` holds the `n` bits at position `p`. */
  ghost predicate Holds(bits: seq<bool>, p: nat, n: nat, v: nat) {
    v < Pow2(n) && forall i: nat {:trigger Bit(v, i)} :: i < n ==> Bit(v, i) == InBit(bits, p + i)
  }

  lemma {:induction false} FieldBelow(bits: seq<bool>, p: nat, n: nat)
    ensures Field(bits, p, n) < Pow2(n)
    decreases n
  {
    if n > 0 { FieldBelow(bits, p + 1, n - 1); }
  }

  lemma {:induction false} FieldBit(bits: seq<bool>, p: nat, n: nat, i: nat)
    requires i < n
    ensures Bit(Field(bits, p, n), i) == InBit(bits, p + i)
    decreases n
  {
    if i > 0 { FieldBit(bits, p + 1, n - 1, i - 1); }
  }

  lemma HoldsIsField(bits: seq<bool>, p: nat, n: nat, v: nat)
    ensures Holds(bits, p, n, v) <==> v == Field(bits, p, n)
  {
    var f := Field(bits, p, n);
    FieldBelow(bits, p, n);
    forall i: nat | i < n ensures Bit(f, i) == InBit(bits, p + i) { FieldBit(bits, p, n, i); }
    if Holds(bits, p, n, v) {
      forall i: nat | i < n ensures Bit(v, i) == Bit(f, i) {}
      SameBits(v, f, n);
    }
  }

  /** The first `n` of the `m` bits held are their low part, the others their high part. */
  lemma HoldsSplit(bits: seq<bool>, p: nat, n: nat, m: nat, v: nat)
    requires n <= m && Holds(bits, p, m, v)
    ensures Holds(bits, p, n, Low(v, n)) && Holds(bits, p + n, m - n, Shr(v, n))
  {
    LowHigh(v, n);
    ShrBits(v, n, m);
    forall i: nat | i < n ensures Bit(Low(v, n), i) == InBit(bits, p + i) {
      BitOfLow(v, n, i);
      assert Bit(v, i) == InBit(bits, p + i);
    }
    forall i: nat | i < m - n ensures Bit(Shr(v, n), i) == InBit(bits, p + n + i) {
      BitOfShr(v, n, i);
      assert Bit(v, n + i) == InBit(bits, p + (n + i));
    }
  }

  lemma ShrBits(v: nat, n: nat, m: nat)
    requires n <= m && v < Pow2(m)
    ensures Shr(v, n) < Pow2(m - n)
  {
    ShrCompare(v, n, Pow2(m - n));
    Pow2IsShl(m - n);
    ShlShl(1, m - n, n);
    Pow2IsShl(m);
  }

  /** Putting `w` more bits above `n` bits held. */
  lemma HoldsAppend(bits: seq<bool>, p: nat, n: nat, w: nat, v: nat, b: nat)
    requires Holds(bits, p, n, v) && Holds(bits, p + n, w, b)
    ensures Holds(bits, p, n + w, Or(v, Shl(b, n)))
  {
    var r := Or(v, Shl(b, n));
    ShlBelow(b, w, n);
    Pow2Mono(n, n + w);
    OrBelow(v, Shl(b, n), n + w);
    forall i: nat | i < n + w ensures Bit(r, i) == InBit(bits, p + i) {
      BitOfOr(v, Shl(b, n), i);
      BitOfShl(b, n, i);
      if i < n {
        assert Bit(v, i) == InBit(bits, p + i);
      } else {
        BitAbove(v, n, i);
        assert Bit(b, i - n) == InBit(bits, p + n + (i - n));
      }
    }
  }

  lemma HoldsByte(bits: seq<bool>, input: seq<Byte>, k: nat)
    requires BitsOf(bits, input) && k < |input|
    ensures Holds(bits, 8 * k, 8, input[k])
  {
    Pow2Values();
    forall i: nat | i < 8 ensures Bit(input[k], i) == InBit(bits, 8 * k + i) {
      BitIsBinary(input[k], i);
      assert bits[8 * k + i] <==> Bit(input[k], i) == 1;
    }
  }

  lemma HoldsUnique(bits: seq<bool>, p: nat, n: nat, v: nat, w: nat)
    requires Holds(bits, p, n, v) && Holds(bits, p, n, w)
    ensures v == w
  {
    forall i: nat | i < n ensures Bit(v, i) == Bit(w, i) {}
    SameBits(v, w, n);
  }

  lemma LowByte(v: nat)
    ensures And(v, 255) == Low(v, 8)
  {
    Pow2Values();
    AndMask(v, 8);
  }

  lemma HoldsZero(bits: seq<bool>, p: nat, n: nat)
    requires p >= |bits|
    ensures Holds(bits, p, n, 0)
  {
    forall i: nat | i < n ensures Bit(0, i) == InBit(bits, p + i) { BitOfZero(i); }
  }

  /** Beyond the end, the bits held may be counted as any number of zero bits more. */
  lemma HoldsPadding(bits: seq<bool>, p: nat, n: nat, w: nat, v: nat)
    requires Holds(bits, p, n, v) && p + n >= |bits|
    ensures Holds(bits, p, n + w, v)
  {
    Pow2Mono(n, n + w);
    forall i: nat | i < n + w ensures Bit(v, i) == InBit(bits, p + i) {
      if i >= n { BitAbove(v, n, i); }
    }
  }

  /** Two streams with the same bits, when zeros follow both of them. */
  ghost predicate SameStream(bits: seq<bool>, bits': seq<bool>) {
    forall q: nat {:trigger InBit(bits', q)} :: InBit(bits, q) == InBit(bits', q)
  }

  lemma {:induction false} FieldSame(bits: seq<bool>, bits': seq<bool>, p: nat, n: nat)
    requires SameStream(bits, bits')
    ensures Field(bits, p, n) == Field(bits', p, n)
    decreases n
  {
    if n > 0 { FieldSame(bits, bits', p + 1, n - 1); }
  }

  lemma ZerosPastEnd(bits: seq<bool>, p: nat, n: nat)
    requires p >= |bits|
    ensures Field(bits, p, n) == 0
  {
    HoldsZero(bits, p, n);
    HoldsIsField(bits, p, n, 0);
  }
}

/** The bit buffer of `stbi__zbuf`. */
module ZBitReader {
  import opened Bits
  import opened BitStream
  import opened Huffman

  // ---------- how far ahead the bit buffer reads ----------

  /** Bits handed out, bytes fetched (zero bytes after the end included), and whether the padding has been counted. */
  datatype Cursor = Cursor(p: nat, f: nat, hit: bool)

  /** The fetched bytes needed to have more than 24 bits at hand. */
  function FilledTo(p: nat): nat {
    (p + 24) / 8 + 1
  }

  /** After a field of `n` bits. */
  function Received(s: Cursor, n: nat): Cursor {
    Cursor(s.p + n, if 8 * s.f < s.p + n then FilledTo(s.p) else s.f, s.hit)
  }

  datatype Supply = Short | Ready(s: Cursor)

  /** Before a code: 16 bits at hand, by fetching or, once, by counting 16 padding bits behind `size` bytes of input. */
  function Refilled(s: Cursor, size: nat): Supply {
    if 8 * s.f >= s.p + 16 then Ready(s)
    else if s.f < size then Ready(s.(f := FilledTo(s.p)))
    else if s.hit then Short
    else Ready(Cursor(s.p, s.f + 2, true))
  }

  /** The symbol at bit position `p`: behind the last one all bits are zero. */
  function SymAt(symbols: seq<Symbol>, p: nat): Symbol
    requires symbols != []
  {
    if p < |symbols| then symbols[p] else symbols[|symbols| - 1]
  }

  datatype Decoded = NoCode | Decoded(sym: nat, s: Cursor)

  /** One code. */
  function DecodeSym(symbols: seq<Symbol>, size: nat, s: Cursor): Decoded
    requires symbols != []
  {
    match Refilled(s, size)
    case Short => NoCode
    case Ready(s') =>
      match SymAt(symbols, s.p)
      case NoSymbol => NoCode
      case Symbol(v, len) => Decoded(v, s'.(p := s.p + len))
  }

  class BitReader {
    const input: seq<Byte>
    ghost const bits: seq<bool>
    var pos: nat             // zbuffer - its start
    var numBits: nat
    var hitZeofOnce: bool
    var codeBuffer: nat
    ghost var bitPos: nat    // bits handed out so far
    ghost var fetched: nat   // bytes fetched so far, counting the zero bytes after the end

    ghost predicate Counts()
      reads this
    {
      && pos <= |input| && pos <= fetched
      && numBits <= 32
      && bitPos + numBits == 8 * fetched
      && (pos < |input| ==> fetched == pos)
      && (hitZeofOnce ==> pos == |input| && fetched >= pos + 2)
      && |bits| == 8 * |input|
    }

    ghost function State(): Cursor
      reads this
    {
      Cursor(bitPos, fetched, hitZeofOnce)
    }

    /** The buffer holds the next `numBits` bits of the zero-extended stream. */
    ghost predicate Valid()
      reads this
    {
      Counts() && BitsOf(bits, input) && Holds(bits, bitPos, numBits, codeBuffer)
    }

    constructor (data: seq<Byte>)
      ensures Valid() && input == data && numBits == 0 && State() == Cursor(0, 0, false)
      ensures bits == BitsOfBytes(data)
    {
      input := data;
      bits := BitsOfBytes(data);
      BitsOfBytesCorrect(data);
      pos := 0;
      numBits := 0;
      hitZeofOnce := false;
      codeBuffer := 0;
      bitPos := 0;
      fetched := 0;
    }

    predicate AtEof()
      reads this
    {
      pos >= |input|
    }

    method Get8() returns (b: Byte)
      requires pos <= |input|
      modifies this`pos
      ensures old(pos) < |input| ==> pos == old(pos) + 1 && b == input[old(pos)]
      ensures old(pos) == |input| ==> pos == old(pos) && b == 0
    {
      if AtEof() {
        b := 0;
      } else {
        b := input[pos];
        pos := pos + 1;
      }
    }

    /** The buffer never holds more than its `numBits` bits, so the guard against a corrupt buffer never fires. */
    lemma BufferFits()
      requires Valid()
      ensures codeBuffer < Shl(1, numBits)
    {
      Pow2IsShl(numBits);
    }

    /** The byte to fetch next: a byte of the input, or a zero byte after its end. */
    lemma NextByte(b: Byte)
      requires Valid() && b == if pos < |input| then input[pos] else 0
      ensures Holds(bits, bitPos + numBits, 8, b)
    {
      if pos < |input| { HoldsByte(bits, input, pos); } else { HoldsZero(bits, bitPos + numBits, 8); }
    }

    /** Append the next byte to the buffer. */
    method FetchByte()
      requires Valid() && numBits <= 24
      modifies this`pos, this`codeBuffer, this`numBits, this`fetched
      ensures Valid() && numBits == old(numBits) + 8
    {
      ghost var next: Byte := if pos < |input| then input[pos] else 0;
      NextByte(next);
      HoldsAppend(bits, bitPos, numBits, 8, codeBuffer, next);
      var b := Get8();
      codeBuffer := Or(codeBuffer, Shl(b, numBits));
      numBits := numBits + 8;
      fetched := fetched + 1;
    }

    /** Fetch whole bytes until more than 24 bits are buffered. */
    method FillBits()
      requires Valid() && numBits <= 24
      modifies this`pos, this`codeBuffer, this`numBits, this`fetched
      ensures Valid() && 24 < numBits && fetched == FilledTo(bitPos)
    {
      var more := true;
      while more
        invariant Valid() && (more <==> numBits <= 24)
        decreases 32 - numBits
      {
        BufferFits();
        if codeBuffer >= Shl(1, numBits) {
          assert false;
        }
        FetchByte();
        more := numBits <= 24;
      }
    }

    /** Drop `n` buffered bits. */
    method Consume(n: nat)
      requires Valid() && n <= numBits
      modifies this`codeBuffer, this`numBits, this`bitPos
      ensures Valid() && bitPos == old(bitPos) + n && numBits == old(numBits) - n
    {
      HoldsSplit(bits, bitPos, n, numBits, codeBuffer);
      codeBuffer := Shr(codeBuffer, n);
      numBits := numBits - n;
      bitPos := bitPos + n;
    }

    lemma MaskedField(n: nat)
      requires Valid() && n <= numBits
      ensures Shl(1, n) > 0 && And(codeBuffer, Shl(1, n) - 1) == Field(bits, bitPos, n)
    {
      Pow2IsShl(n);
      AndMask(codeBuffer, n);
      HoldsSplit(bits, bitPos, n, numBits, codeBuffer);
      HoldsIsField(bits, bitPos, n, Low(codeBuffer, n));
    }

    /** The next `n`-bit field of the input, zero-extended. */
    method Receive(n: nat) returns (k: nat)
      requires Valid() && n <= 24
      modifies this`pos, this`codeBuffer, this`numBits, this`bitPos, this`fetched
      ensures Valid() && k == Field(bits, old(bitPos), n)
      ensures State() == Received(old(State()), n)
    {
      if numBits < n { FillBits(); }
      MaskedField(n);
      k := And(codeBuffer, Shl(1, n) - 1);
      Consume(n);
    }

    /** Discard the bits up to the next byte boundary; `k` is the number of bytes before it. */
    method Align() returns (ghost k: nat)
      requires Valid()
      modifies this`pos, this`codeBuffer, this`numBits, this`bitPos, this`fetched
      ensures Valid() && old(bitPos) <= 8 * k < old(bitPos) + 8
      ensures State() == old(State()).(p := 8 * k)
    {
      k := fetched - numBits / 8;
      if numBits % 8 > 0 {
        var n := numBits % 8;
        Consume(n);
      }
    }

    /** With an empty bit buffer, the next byte of the input, or zero at its end. */
    method GetAligned(ghost k: nat) returns (b: Byte)
      requires Valid() && numBits == 0 && bitPos == 8 * k
      modifies this`pos, this`bitPos, this`fetched
      ensures Valid() && State() == Cursor(8 * (k + 1), k + 1, old(hitZeofOnce))
      ensures b == if k < |input| then input[k] else 0
    {
      b := Get8();
      bitPos := bitPos + 8;
      fetched := fetched + 1;
    }

    lemma BufferedByte(k: nat)
      requires Valid() && bitPos == 8 * k && numBits >= 8
      ensures And(codeBuffer, 255) == if k < |input| then input[k] else 0
    {
      LowByte(codeBuffer);
      HoldsSplit(bits, bitPos, 8, numBits, codeBuffer);
      if k < |input| { HoldsByte(bits, input, k); } else { HoldsZero(bits, 8 * k, 8); }
      HoldsUnique(bits, bitPos, 8, Low(codeBuffer, 8), if k < |input| then input[k] else 0);
    }

    /** The next buffered byte. */
    method DrainByte(ghost k: nat) returns (b: nat)
      requires Valid() && bitPos == 8 * k && numBits > 0
      modifies this`codeBuffer, this`numBits, this`bitPos
      ensures Valid() && bitPos == 8 * (k + 1)
      ensures b == if k < |input| then input[k] else 0
    {
      BufferedByte(k);
      b := And(codeBuffer, 255);
      Consume(8);
    }

    /** The four bytes at a byte boundary, the buffered ones first. */
    method AlignedHeader(ghost k: nat) returns (header: seq<nat>)
      requires Valid() && bitPos == 8 * k
      modifies this
      ensures Valid() && numBits == 0 && |header| == 4 && State() == Cursor(8 * (k + 4), k + 4, old(hitZeofOnce))
      ensures forall j: nat :: j < 4 ==> header[j] == if k + j < |input| then input[k + j] else 0
    {
      header := [];
      while numBits > 0
        invariant Valid() && bitPos == 8 * (k + |header|) && fetched <= k + 4 && hitZeofOnce == old(hitZeofOnce)
        invariant forall j: nat :: j < |header| ==> header[j] == if k + j < |input| then input[k + j] else 0
        decreases numBits
      {
        var b := DrainByte(k + |header|);
        header := header + [b];
      }
      while |header| < 4
        invariant Valid() && numBits == 0 && |header| <= 4 && bitPos == 8 * (k + |header|)
        invariant hitZeofOnce == old(hitZeofOnce)
        invariant forall j: nat :: j < |header| ==> header[j] == if k + j < |input| then input[k + j] else 0
      {
        var b := GetAligned(k + |header|);
        header := header + [b];
      }
    }

    /** Step over `n` bytes of the input. */
    method SkipBytes(n: nat)
      requires Valid() && numBits == 0 && pos + n <= |input|
      modifies this`pos, this`bitPos, this`fetched
      ensures Valid() && pos == old(pos) + n
      ensures State() == Cursor(old(bitPos) + 8 * n, old(fetched) + n, old(hitZeofOnce))
    {
      pos := pos + n;
      bitPos := bitPos + 8 * n;
      fetched := fetched + n;
    }

    /** At the end of the input, once, count 16 implicit zero bits as buffered. */
    method PadOnce()
      requires Valid() && numBits < 16 && pos == |input| && !hitZeofOnce
      modifies this`hitZeofOnce, this`numBits, this`fetched
      ensures Valid() && numBits >= 16 && fetched == old(fetched) + 2 && hitZeofOnce
    {
      HoldsPadding(bits, bitPos, numBits, 16, codeBuffer);
      hitZeofOnce := true;
      numBits := numBits + 16;
      fetched := fetched + 2;
    }

    /** Have 16 bits buffered for a decode, unless the input ended long ago. */
    method Refill() returns (ok: bool)
      requires Valid()
      modifies this`pos, this`codeBuffer, this`numBits, this`hitZeofOnce, this`fetched
      ensures Valid() && bitPos == old(bitPos)
      ensures ok ==> numBits >= 16
      ensures Refilled(old(State()), |input|) == if ok then Ready(State()) else Short
    {
      if numBits < 16 {
        if AtEof() {
          if hitZeofOnce { return false; }
          PadOnce();
        } else {
          FillBits();
        }
      }
      ok := true;
    }

    /** The next symbol: the one whose code stands at this position in the zero-extended input. */
    method HuffmanDecode(ghost lens: seq<nat>, ghost symbols: seq<Symbol>, z: ZHuffman) returns (sym: int)
      requires Valid() && z.Represents(lens) && Reads(symbols, lens, bits)
      modifies this
      ensures Valid()
      ensures DecodeSym(symbols, |input|, old(State())) == if sym >= 0 then Decoded(sym, State()) else NoCode
    {
      var ok := Refill();
      if !ok { return -1; }
      var r := z.Lookup(lens, codeBuffer);
      ResolvesStream(lens, bits, bitPos, numBits, codeBuffer, r);
      ReadsAt(symbols, lens, bits, bitPos);
      if r.NoSymbol? { return -1; }
      Consume(r.len);
      sym := r.sym;
    }
  }

  /** The first `n` bits at position `p` as a code: the first bit read is the most significant. */
  function CodeAt(bits: seq<bool>, p: nat, n: nat): nat {
    if n == 0 then 0 else 2 * CodeAt(bits, p, n - 1) + InBit(bits, p + n - 1)
  }

  /** The stream continues at position `p` with the code of `sym`. */
  ghost predicate AssignedAt(lens: seq<nat>, bits: seq<bool>, p: nat, sym: nat) {
    sym < |lens| && lens[sym] > 0 && CodeAt(bits, p, lens[sym]) == Code(lens, sym)
  }

  ghost predicate SomeSymbolAt(lens: seq<nat>, bits: seq<bool>, p: nat) {
    exists sym: nat :: AssignedAt(lens, bits, p, sym)
  }

  /** The symbol whose code stands at position `p`; there is at most one. */
  ghost function SymbolAt(lens: seq<nat>, bits: seq<bool>, p: nat): Symbol {
    if SomeSymbolAt(lens, bits, p) then
      var sym: nat :| AssignedAt(lens, bits, p, sym);
      Symbol(sym, lens[sym])
    else
      NoSymbol
  }

  /** The symbol standing at each bit position. */
  ghost function SymbolsOf(lens: seq<nat>, bits: seq<bool>): seq<Symbol> {
    seq(|bits| + 1, p requires 0 <= p => SymbolAt(lens, bits, p))
  }

  ghost predicate Reads(symbols: seq<Symbol>, lens: seq<nat>, bits: seq<bool>) {
    && |symbols| == |bits| + 1
    && forall p: nat {:trigger SymbolAt(lens, bits, p)} :: p <= |bits| ==> symbols[p] == SymbolAt(lens, bits, p)
  }

  lemma {:induction false} CodeOfHeld(bits: seq<bool>, p: nat, m: nat, v: nat, n: nat)
    requires n <= m && Holds(bits, p, m, v)
    ensures Rev(v, n) == CodeAt(bits, p, n)
  {
    if n > 0 {
      CodeOfHeld(bits, p, m, v, n - 1);
      RevStep(v, n - 1);
    }
  }

  lemma AssignedInField(lens: seq<nat>, bits: seq<bool>, p: nat, m: nat, v: nat, sym: nat)
    requires ValidLens(lens) && m >= 16 && Holds(bits, p, m, v)
    ensures AssignedAt(lens, bits, p, sym) <==> Assigned(lens, sym, v)
  {
    if sym < |lens| { CodeOfHeld(bits, p, m, v, lens[sym]); }
  }

  /** Resolving a window of at least 16 buffered bits resolves the symbol in the stream. */
  lemma ResolvesStream(lens: seq<nat>, bits: seq<bool>, p: nat, m: nat, v: nat, r: Symbol)
    requires ValidLens(lens) && m >= 16 && Holds(bits, p, m, v) && Resolves(lens, v, r)
    ensures r == SymbolAt(lens, bits, p)
  {
    if SomeSymbolAt(lens, bits, p) {
      var s := SymbolAt(lens, bits, p).sym;
      AssignedInField(lens, bits, p, m, v, s);
      if r.Symbol? { PrefixFree(lens, r.sym, s, v); }
    } else if r.Symbol? {
      AssignedInField(lens, bits, p, m, v, r.sym);
    }
  }

  /** The symbol is resolved by the next `m` bits, when those are 16 or more. */
  lemma SymbolHeld(lens: seq<nat>, bits: seq<bool>, p: nat, m: nat, v: nat)
    requires ValidLens(lens) && m >= 16 && Holds(bits, p, m, v)
    ensures Resolves(lens, v, SymbolAt(lens, bits, p))
  {
    var r := SymbolAt(lens, bits, p);
    if r.Symbol? {
      AssignedInField(lens, bits, p, m, v, r.sym);
    } else {
      forall sym: nat ensures !Assigned(lens, sym, v) { AssignedInField(lens, bits, p, m, v, sym); }
    }
  }

  /** The symbol depends on the next bits only. */
  lemma SymbolSame(lens: seq<nat>, bits: seq<bool>, p: nat, bits': seq<bool>, p': nat, m: nat, v: nat)
    requires ValidLens(lens) && m >= 16 && Field(bits, p, m) == v == Field(bits', p', m)
    ensures SymbolAt(lens, bits, p) == SymbolAt(lens, bits', p')
  {
    HoldsIsField(bits, p, m, v);
    HoldsIsField(bits', p', m, v);
    SymbolHeld(lens, bits, p, m, v);
    ResolvesStream(lens, bits', p', m, v, SymbolAt(lens, bits, p));
  }

  lemma ReadsAt(symbols: seq<Symbol>, lens: seq<nat>, bits: seq<bool>, p: nat)
    requires ValidLens(lens) && Reads(symbols, lens, bits)
    ensures SymAt(symbols, p) == SymbolAt(lens, bits, p)
  {
    if p > |bits| {
      ZerosPastEnd(bits, |bits|, 16);
      ZerosPastEnd(bits, p, 16);
      SymbolSame(lens, bits, |bits|, bits, p, 16, 0);
    }
  }

  /** Symbols have non-empty codes. */
  lemma SymbolLong(symbols: seq<Symbol>, lens: seq<nat>, bits: seq<bool>, p: nat)
    requires ValidLens(lens) && Reads(symbols, lens, bits)
    ensures SymAt(symbols, p).Symbol? ==> 0 < SymAt(symbols, p).len <= 15 && SymAt(symbols, p).sym < |lens|
  {
    ReadsAt(symbols, lens, bits, p);
  }
}
