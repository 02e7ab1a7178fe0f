/**
  How far behind the end of its input an accepted stream can be read: a truncated stream is refused unless it is broken
  off within its last few bytes.
 */
module ZlibOverrun {
  import opened Bits
  import opened BitStream
  import opened Huffman
  import opened ZBitReader
  import opened Inflate
  import opened ZlibBlocks
  import opened Zlib

  /** The bytes of zeros that make every accepted stream whole. */
  const SLACK: nat := 17

  lemma SymNear(lens: seq<nat>, symbols: seq<Symbol>, bits: seq<bool>, size: nat, s: Cursor)
    requires ValidLens(lens) && Reads(symbols, lens, bits) && Fine(s, size)
    ensures var d := DecodeSym(symbols, size, s); d.Decoded? ==> Fine(d.s, size) && s.p < d.s.p <= s.p + 15
  {
    SymbolLong(symbols, lens, bits, s.p);
  }

  /** An element takes at most 48 bits: two codes and their extra bits. */
  lemma ElementNear(t: DeflateTables, ll: seq<nat>, dl: seq<nat>, lit: seq<Symbol>, dst: seq<Symbol>, bits: seq<bool>,
                    size: nat, s: Cursor)
    requires ValidLens(ll) && Reads(lit, ll, bits) && ValidLens(dl) && Reads(dst, dl, bits) && Fine(s, size)
    ensures var c := TakeElement(t, lit, dst, bits, size, s);
      c.Taken? ==> Fine(c.s, size) && s.p < c.s.p <= s.p + (if c.e.EndOfBlock? then 15 else 48)
  {
    SymNear(ll, lit, bits, size, s);
    var d := DecodeSym(lit, size, s);
    if d.Decoded? && 257 <= d.sym < 286 {
      var z := d.sym - 257;
      ReceivedFine(d.s, t.lengthExtra[z], size);
      var s' := Received(d.s, t.lengthExtra[z]);
      SymNear(dl, dst, bits, size, s');
      var d' := DecodeSym(dst, size, s');
      if d'.Decoded? && d'.sym < 30 { ReceivedFine(d'.s, t.distExtra[d'.sym], size); }
    }
  }

  /**
    Behind the input stands one and the same element of the literal code; if it does not end the block, nothing does.
   */
  lemma {:induction false} NoEnd(t: DeflateTables, ll: seq<nat>, dl: seq<nat>, lit: seq<Symbol>, dst: seq<Symbol>,
                                 bits: seq<bool>, size: nat, s: Cursor, out: seq<Byte>, limit: nat)
    requires ValidLens(ll) && Reads(lit, ll, bits) && ValidLens(dl) && Reads(dst, dl, bits) && Fine(s, size)
    requires s.p >= |bits| && !(lit[|bits|].Symbol? && lit[|bits|].sym == 256)
    ensures CountedBlock(t, lit, dst, bits, size, s, out, limit) == Refused
    decreases limit - |out|
  {
    ElementNear(t, ll, dl, lit, dst, bits, size, s);
    var c := TakeElement(t, lit, dst, bits, size, s);
    if c.Taken? && CanApply(out, c.e) && |Applied(out, c.e)| <= limit {
      AppliedGrows(out, c.e);
      NoEnd(t, ll, dl, lit, dst, bits, size, c.s, Applied(out, c.e), limit);
    }
  }

  /** A block that is accepted ends with its first code behind the input at the latest. */
  lemma {:induction false} BlockNear(t: DeflateTables, ll: seq<nat>, dl: seq<nat>, lit: seq<Symbol>, dst: seq<Symbol>,
                                     bits: seq<bool>, size: nat, s: Cursor, out: seq<Byte>, limit: nat, m: nat)
    requires ValidLens(ll) && Reads(lit, ll, bits) && ValidLens(dl) && Reads(dst, dl, bits) && |bits| == 8 * size
    requires Fine(s, size) && s.p <= m && 8 * size + 47 <= m
    ensures var c := CountedBlock(t, lit, dst, bits, size, s, out, limit);
      c.Accepted? ==> Fine(c.s, size) && c.s.p <= m + 15
    decreases limit - |out|
  {
    ElementNear(t, ll, dl, lit, dst, bits, size, s);
    var c := TakeElement(t, lit, dst, bits, size, s);
    if s.p >= |bits| && !(lit[|bits|].Symbol? && lit[|bits|].sym == 256) {
      NoEnd(t, ll, dl, lit, dst, bits, size, s, out, limit);
    } else if c.Taken? && CanApply(out, c.e) && |Applied(out, c.e)| <= limit {
      AppliedGrows(out, c.e);
      BlockNear(t, ll, dl, lit, dst, bits, size, c.s, Applied(out, c.e), limit, m);
    }
  }

  /** Fetched no further than byte `top`, with two more to come when the padding is counted. */
  ghost predicate Below(s: Cursor, size: nat, top: nat) {
    Fine(s, size) && s.f <= top && (s.hit || s.f + 2 <= top)
  }

  /** Codes of at most seven bits and their repeat counts need nothing beyond what was fetched for the code. */
  lemma ItemsNear(cl: seq<nat>, symbols: seq<Symbol>, bits: seq<bool>, size: nat, s: Cursor, acc: seq<nat>, top: nat)
    requires ValidLens(cl) && Reads(symbols, cl, bits) && (forall i :: 0 <= i < |cl| ==> cl[i] <= 7)
    requires Below(s, size, top) && size + 6 <= top && AllLens(acc)
    ensures var c := TakeItems(symbols, bits, size, s, acc); c.TakenItems? ==> Below(c.s, size, top) && AllLens(c.items)
  {
    SymbolLong(symbols, cl, bits, s.p);
    ReadsAt(symbols, cl, bits, s.p);
  }

  lemma {:induction false} LengthsNear(cl: seq<nat>, symbols: seq<Symbol>, bits: seq<bool>, size: nat, s: Cursor,
                                       total: nat, acc: seq<nat>, top: nat)
    requires ValidLens(cl) && Reads(symbols, cl, bits) && (forall i :: 0 <= i < |cl| ==> cl[i] <= 7)
    requires Below(s, size, top) && size + 6 <= top && AllLens(acc) && |acc| <= total
    ensures var c := CountedLengthsFrom(symbols, bits, size, s, total, acc);
      c.SomeLengths? ==> Below(c.s, size, top) && AllLens(c.lens) && |c.lens| == total
    decreases total - |acc|
  {
    if |acc| < total {
      ItemsNear(cl, symbols, bits, size, s, acc, top);
      var c := TakeItems(symbols, bits, size, s, acc);
      if c.TakenItems? && 0 < |c.items| <= total - |acc| {
        LengthsNear(cl, symbols, bits, size, c.s, total, acc + c.items, top);
      }
    }
  }

  lemma {:induction false} SizesAtMost7(order: Order, bits: seq<bool>, p: nat, n: nat)
    requires n <= 19
    ensures forall i :: 0 <= i < 19 ==> CodeLengthLens(order, bits, p, n)[i] <= 7
  {
    if n > 0 {
      SizesAtMost7(order, bits, p, n - 1);
      FieldBelow(bits, p + 3 * (n - 1), 3);
      Pow2Values();
    }
  }

  /** The counts and the sizes of the code length code take at most 71 bits. */
  lemma CountsNear(order: Order, bits: seq<bool>, size: nat, s: Cursor)
    requires Fine(s, size)
    ensures var c := CountsAt(order, bits, s);
      c.Counts? ==> Fine(c.s, size) && c.s.p <= s.p + 71 && forall i :: 0 <= i < |c.cl| ==> c.cl[i] <= 7
  {
    CountsFine(order, bits, s, size);
    var s3 := Received(Received(Received(s, 5), 5), 4);
    var hclen := Field(bits, Received(Received(s, 5), 5).p, 4) + 4;
    SizesForward(s3, hclen);
    if hclen <= 19 { SizesAtMost7(order, bits, s3.p, hclen); }
  }

  lemma TablesNear(cl: seq<nat>, bits: seq<bool>, size: nat, s: Cursor, hlit: nat, hdist: nat, top: nat)
    requires ValidLens(cl) && (forall i :: 0 <= i < |cl| ==> cl[i] <= 7) && hlit <= 288 && hdist <= 32
    requires Below(s, size, top) && size + 6 <= top
    ensures var h := CountedTables(cl, bits, size, s, hlit, hdist);
      h.SomeHeader? ==> Below(h.s, size, top) && ValidLens(h.ll) && ValidLens(h.dl)
  {
    ReadsSymbolsOf(cl, bits);
    LengthsNear(cl, SymbolsOf(cl, bits), bits, size, s, hlit + hdist, [], top);
    var c := CountedLengthsFrom(SymbolsOf(cl, bits), bits, size, s, hlit + hdist, []);
    if c.SomeLengths? { SplitIsValid(c.lens, hlit, hdist); }
  }

  lemma HeaderNear(order: Order, bits: seq<bool>, size: nat, s: Cursor)
    requires Fine(s, size) && s.p <= 8 * size + 2
    ensures var h := CountedHeaderAt(order, bits, size, s);
      h.SomeHeader? ==> Fine(h.s, size) && h.s.p <= 8 * size + 120 && ValidLens(h.ll) && ValidLens(h.dl)
  {
    CountsNear(order, bits, size, s);
    CountsSmall(order, bits, s);
    var c := CountsAt(order, bits, s);
    if c.Counts? { TablesNear(c.cl, bits, size, c.s, c.hlit, c.hdist, size + 15); }
  }

  lemma CompressedNear(t: DeflateTables, bits: seq<bool>, size: nat, h: CountedHeader, out: seq<Byte>, limit: nat)
    requires |bits| == 8 * size
    requires h.SomeHeader? ==> Fine(h.s, size) && h.s.p <= 8 * size + 120 && ValidLens(h.ll) && ValidLens(h.dl)
    ensures var c := CountedCompressed(t, bits, size, h, out, limit);
      c.Accepted? ==> Fine(c.s, size) && c.s.p <= 8 * size + 135
  {
    if h.SomeHeader? {
      ReadsSymbolsOf(h.ll, bits);
      ReadsSymbolsOf(h.dl, bits);
      BlockNear(t, h.ll, h.dl, SymbolsOf(h.ll, bits), SymbolsOf(h.dl, bits), bits, size, h.s, out, limit,
                8 * size + 120);
    }
  }

  lemma BodyNear(t: DeflateTables, order: Order, input: seq<Byte>, bits: seq<bool>, kind: nat, s: Cursor,
                 out: seq<Byte>, limit: nat)
    requires |bits| == 8 * |input| && Fine(s, |input|) && s.p <= |bits| + 2
    ensures var c := CountedBody(t, order, input, bits, kind, s, out, limit);
      c.Accepted? ==> Fine(c.s, |input|) && c.s.p <= |bits| + 135
  {
    if kind == 0 {
      if (s.p + 7) / 8 + 4 <= |input| { assert !s.hit; }
    } else if kind == 1 {
      DefaultLengthsFit();
      DefaultDistancesFit();
      CompressedNear(t, bits, |input|, SomeHeader(DefaultLengths(), DefaultDistances(), s), out, limit);
    } else if kind == 2 {
      HeaderNear(order, bits, |input|, s);
      CompressedNear(t, bits, |input|, CountedHeaderAt(order, bits, |input|, s), out, limit);
    }
  }

  lemma {:induction false} BlocksNear(t: DeflateTables, order: Order, input: seq<Byte>, bits: seq<bool>, s: Cursor,
                                      out: seq<Byte>, limit: nat)
    requires |bits| == 8 * |input| && Fine(s, |input|)
    ensures var c := CountedBlocks(t, order, input, bits, s, out, limit); c.Accepted? ==> c.s.p <= |bits| + 135
    decreases |bits| + 1 - s.p
  {
    if s.p >= |bits| {
      BeyondRefused(t, order, input, bits, s, out, limit);
    } else {
      var kind, s', c, last := CountedTurn(t, order, input, bits, s, out, limit);
      var s'' := BlockStart(s, |input|);
      BodyNear(t, order, input, bits, kind, s', out, limit);
      if c.Accepted? && !last { BlocksNear(t, order, input, bits, c.s, c.out, limit); }
    }
  }

  /** No accepted stream is read more than `SLACK` bytes beyond its end. */
  lemma AcceptedNear(input: seq<Byte>, limit: nat)
    ensures var c := CountedZlib(input, limit); c.Accepted? ==> c.s.p <= 8 * (|input| + SLACK)
  {
    BlocksNear(StandardTables(), StandardOrder(), input, BitsOfBytes(input), Cursor(16, 2, false), [], limit);
  }

  /**
    Whatever stream is accepted, intact or truncated, is decoded to what the standard makes of the blocks in the same
    bytes followed by zero bytes, `SLACK` of them or more.
   */
  lemma AcceptedIsZeroExtended(input: seq<Byte>, limit: nat, n: nat)
    requires CountedZlib(input, limit).Accepted? && n >= SLACK
    ensures var c := CountedZlib(input, limit); LaxZlib(input + Zeros(n)) == Done(c.out, c.s.p)
  {
    AcceptedNear(input, limit);
    ZerosSameStream(input, n);
    ZlibFollows(input, limit, input + Zeros(n));
  }
}
