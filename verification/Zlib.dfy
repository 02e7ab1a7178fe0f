/**
  What the decoder's stopping rule means for the standard's decoding of the same bytes: on an intact or an invalid
  stream they agree, and a truncated stream that is accepted is decoded as if zero bytes followed it.
 */
module Zlib {
  import opened Bits
  import opened BitStream
  import opened Huffman
  import opened ZBitReader
  import opened Inflate
  import opened ZlibBlocks

  // ---------- intact and invalid streams ----------

  /** The buffer holds at most 32 bits, and counted padding lies behind `size` bytes of input. */
  ghost predicate Fine(s: Cursor, size: nat) {
    s.p <= 8 * s.f <= s.p + 32 && (s.hit ==> s.f >= size + 2)
  }

  ghost predicate Agrees(r: Outcome, c: Counted, size: nat, limit: nat) {
    && (r.Done? && |r.out| <= limit ==> c.Accepted? && c.out == r.out && c.s.p == r.next && Fine(c.s, size))
    && (r.Done? && |r.out| > limit ==> c == Refused)
    && (r.Bad? ==> c == Refused)
  }

  lemma ReceivedFine(s: Cursor, n: nat, size: nat)
    requires Fine(s, size) && n <= 24
    ensures Fine(Received(s, n), size)
  {
  }

  /** Inside the input a code is refused only when there is none. */
  lemma SymAgrees(lens: seq<nat>, symbols: seq<Symbol>, bits: seq<bool>, size: nat, s: Cursor)
    requires ValidLens(lens) && Reads(symbols, lens, bits) && |bits| == 8 * size
    requires Fine(s, size) && s.p <= |bits|
    ensures var d := DecodeSym(symbols, size, s);
      match symbols[s.p]
      case NoSymbol => d == NoCode
      case Symbol(v, n) => d.Decoded? && d.sym == v && d.s.p == s.p + n && s.p < d.s.p && Fine(d.s, size)
  {
    SymbolLong(symbols, lens, bits, s.p);
  }

  lemma ElementAgrees(t: DeflateTables, ll: seq<nat>, dl: seq<nat>, lit: seq<Symbol>, dst: seq<Symbol>, bits: seq<bool>,
                      size: nat, s: Cursor)
    requires ValidLens(ll) && Reads(lit, ll, bits) && ValidLens(dl) && Reads(dst, dl, bits) && |bits| == 8 * size
    requires Fine(s, size) && s.p <= |bits|
    ensures var r, c := ElementAt(t, lit, dst, bits, s.p), TakeElement(t, lit, dst, bits, size, s);
      r.next <= |bits| ==>
        if r.e.Invalid? then c == Refuse
        else c.Taken? && c.e == r.e && c.s.p == r.next && s.p < r.next && Fine(c.s, size)
  {
    SymAgrees(ll, lit, bits, size, s);
    var d := DecodeSym(lit, size, s);
    if d.Decoded? && 257 <= d.sym < 286 { MatchAgrees(t, dl, dst, bits, size, d.s, d.sym - 257); }
  }

  lemma MatchAgrees(t: DeflateTables, dl: seq<nat>, dst: seq<Symbol>, bits: seq<bool>, size: nat, s: Cursor, z: nat)
    requires ValidLens(dl) && Reads(dst, dl, bits) && |bits| == 8 * size && Fine(s, size) && z < 29
    ensures var r, c := MatchAt(t, dst, bits, s.p, z), TakeMatch(t, dst, bits, size, s, z);
      r.next <= |bits| ==>
        if r.e.Invalid? then c == Refuse
        else c.Taken? && c.e == r.e && c.s.p == r.next && s.p < r.next && Fine(c.s, size)
  {
    var s' := Received(s, t.lengthExtra[z]);
    ReceivedFine(s, t.lengthExtra[z], size);
    DistanceAgrees(t, dl, dst, bits, size, s', t.lengthBase[z] + Field(bits, s.p, t.lengthExtra[z]));
  }

  lemma DistanceAgrees(t: DeflateTables, dl: seq<nat>, dst: seq<Symbol>, bits: seq<bool>, size: nat, s: Cursor,
                       len: Positive)
    requires ValidLens(dl) && Reads(dst, dl, bits) && |bits| == 8 * size && Fine(s, size)
    ensures var r, c := DistanceAt(t, dst, bits, s.p, len), TakeDistance(t, dst, bits, size, s, len);
      r.next <= |bits| ==>
        if r.e.Invalid? then c == Refuse
        else c.Taken? && c.e == r.e && c.s.p == r.next && s.p < r.next && Fine(c.s, size)
  {
    if s.p <= |bits| {
      SymAgrees(dl, dst, bits, size, s);
      var d := DecodeSym(dst, size, s);
      if d.Decoded? && d.sym < 30 { ReceivedFine(d.s, t.distExtra[d.sym], size); }
    }
  }

  lemma {:induction false} BlockAgrees(t: DeflateTables, ll: seq<nat>, dl: seq<nat>, lit: seq<Symbol>, dst: seq<Symbol>,
                                       bits: seq<bool>, size: nat, s: Cursor, out: seq<Byte>, limit: nat)
    requires ValidLens(ll) && Reads(lit, ll, bits) && ValidLens(dl) && Reads(dst, dl, bits) && |bits| == 8 * size
    requires Fine(s, size) && |out| <= limit
    ensures Agrees(RefBlock(t, lit, dst, bits, s.p, out), CountedBlock(t, lit, dst, bits, size, s, out, limit), size,
      limit)
    decreases |bits| + 1 - s.p
  {
    if s.p <= |bits| {
      ElementAgrees(t, ll, dl, lit, dst, bits, size, s);
      var r, c := ElementAt(t, lit, dst, bits, s.p), TakeElement(t, lit, dst, bits, size, s);
      if r.next <= |bits| && CanApply(out, r.e) {
        RefBlockGrows(t, lit, dst, bits, r.next, Applied(out, r.e));
        if |Applied(out, r.e)| <= limit {
          BlockAgrees(t, ll, dl, lit, dst, bits, size, c.s, Applied(out, r.e), limit);
        }
      }
    }
  }

  lemma {:induction false} LengthsAgree(cl: seq<nat>, symbols: seq<Symbol>, bits: seq<bool>, size: nat, s: Cursor,
                                        total: nat, acc: seq<nat>)
    requires ValidLens(cl) && Reads(symbols, cl, bits) && |bits| == 8 * size && Fine(s, size) && |acc| <= total
    ensures
      var r, c := RefLengths(symbols, bits, s.p, total, acc), CountedLengthsFrom(symbols, bits, size, s, total, acc);
      && (r.Lengths? ==> c.SomeLengths? && c.lens == r.lens && c.s.p == r.next && Fine(c.s, size))
      && (r.BadLengths? ==> c == NoLengths)
    decreases total - |acc|
  {
    if s.p <= |bits| && |acc| < total {
      ItemsAgree(cl, symbols, bits, size, s, acc);
      var c := TakeItems(symbols, bits, size, s, acc);
      if c.TakenItems? && 0 < |c.items| <= total - |acc| {
        LengthsAgree(cl, symbols, bits, size, c.s, total, acc + c.items);
      }
    }
  }

  lemma ItemsAgree(cl: seq<nat>, symbols: seq<Symbol>, bits: seq<bool>, size: nat, s: Cursor, acc: seq<nat>)
    requires ValidLens(cl) && Reads(symbols, cl, bits) && |bits| == 8 * size && Fine(s, size) && s.p <= |bits|
    ensures var r, c := LengthOpAt(symbols, bits, s.p, acc), TakeItems(symbols, bits, size, s, acc);
      if r.BadOp? then c == NoItems else c.TakenItems? && c.items == r.items && c.s.p == r.next && Fine(c.s, size)
  {
    SymAgrees(cl, symbols, bits, size, s);
  }

  lemma {:induction false} SizesFine(s: Cursor, n: nat, size: nat)
    requires Fine(s, size)
    ensures Fine(ReceivedSizes(s, n), size) && ReceivedSizes(s, n).p == s.p + 3 * n
  {
    if n > 0 { SizesFine(s, n - 1, size); }
  }

  /** A header, where the reference reads one, is read alike. */
  ghost predicate HeadersAgree(r: Header, c: CountedHeader, size: nat) {
    && (r.Header? ==> c.SomeHeader? && c.ll == r.ll && c.dl == r.dl && c.s.p == r.next && Fine(c.s, size)
                      && ValidLens(r.ll) && ValidLens(r.dl))
    && (r.BadHeader? ==> c == NoHeader)
  }

  lemma {:induction false} LengthsSmall(symbols: seq<Symbol>, bits: seq<bool>, p: nat, total: nat, acc: seq<nat>)
    requires |symbols| == |bits| + 1 && |acc| <= total && AllLens(acc)
    ensures var r := RefLengths(symbols, bits, p, total, acc); r.Lengths? ==> AllLens(r.lens) && |r.lens| == total
    decreases total - |acc|
  {
    if p <= |bits| && |acc| < total {
      var r := LengthOpAt(symbols, bits, p, acc);
      if r.Items? && 0 < |r.items| <= total - |acc| { LengthsSmall(symbols, bits, r.next, total, acc + r.items); }
    }
  }

  lemma SplitAgrees(lens: seq<nat>, hlit: nat, hdist: nat, next: nat, s: Cursor, size: nat)
    requires AllLens(lens) && |lens| == hlit + hdist && hlit <= 288 && hdist <= 32 && s.p == next && Fine(s, size)
    ensures HeadersAgree(SplitTables(lens, hlit, next), CountedSplit(lens, hlit, s), size)
  {
    SplitIsValid(lens, hlit, hdist);
  }

  lemma TablesAgree(cl: seq<nat>, bits: seq<bool>, size: nat, s: Cursor, hlit: nat, hdist: nat)
    requires ValidLens(cl) && |bits| == 8 * size && Fine(s, size) && hlit <= 288 && hdist <= 32
    ensures HeadersAgree(RefTables(cl, bits, s.p, hlit, hdist), CountedTables(cl, bits, size, s, hlit, hdist), size)
  {
    var symbols := SymbolsOf(cl, bits);
    ReadsSymbolsOf(cl, bits);
    LengthsAgree(cl, symbols, bits, size, s, hlit + hdist, []);
    LengthsSmall(symbols, bits, s.p, hlit + hdist, []);
    var r := RefLengths(symbols, bits, s.p, hlit + hdist, []);
    var c := CountedLengthsFrom(symbols, bits, size, s, hlit + hdist, []);
    if r.Lengths? { SplitAgrees(r.lens, hlit, hdist, r.next, c.s, size); }
  }

  /** The decoder's counts are the reference's. */
  lemma CountsAre(order: Order, bits: seq<bool>, s: Cursor)
    ensures var c := CountsAt(order, bits, s);
      RefCountsAt(order, bits, s.p) == if c.BadCounts? then NoCounts else RefCounts(c.cl, c.s.p, c.hlit, c.hdist)
  {
    var s1 := Received(s, 5);
    var s2 := Received(s1, 5);
    var s3 := Received(s2, 4);
    assert s1.p == s.p + 5 && s2.p == s.p + 10 && s3.p == s.p + 14;
    SizesForward(s3, Field(bits, s2.p, 4) + 4);
  }

  lemma CountsSmall(order: Order, bits: seq<bool>, s: Cursor)
    ensures var c := CountsAt(order, bits, s); c.Counts? ==> ValidLens(c.cl) && c.hlit <= 288 && c.hdist <= 32
  {
    FieldBelow(bits, s.p, 5);
    FieldBelow(bits, Received(s, 5).p, 5);
    Pow2Values();
    var s2 := Received(Received(s, 5), 5);
    var hclen := Field(bits, s2.p, 4) + 4;
    if hclen <= 19 { CodeLengthLensSmall(order, bits, Received(s2, 4).p, hclen); }
  }

  lemma CountsFine(order: Order, bits: seq<bool>, s: Cursor, size: nat)
    requires Fine(s, size)
    ensures var c := CountsAt(order, bits, s); c.Counts? ==> Fine(c.s, size)
  {
    var s1 := Received(s, 5);
    var s2 := Received(s1, 5);
    ReceivedFine(s, 5, size);
    ReceivedFine(s1, 5, size);
    ReceivedFine(s2, 4, size);
    SizesFine(Received(s2, 4), Field(bits, s2.p, 4) + 4, size);
  }

  lemma HeaderAgrees(order: Order, bits: seq<bool>, size: nat, s: Cursor)
    requires |bits| == 8 * size && Fine(s, size)
    ensures HeadersAgree(RefHeader(order, bits, s.p), CountedHeaderAt(order, bits, size, s), size)
  {
    var c := CountsAt(order, bits, s);
    CountsAre(order, bits, s);
    CountsFine(order, bits, s, size);
    CountsSmall(order, bits, s);
    if c.Counts? { TablesAgree(c.cl, bits, size, c.s, c.hlit, c.hdist); }
  }

  lemma StoredAgrees(input: seq<Byte>, s: Cursor, out: seq<Byte>, limit: nat)
    requires Fine(s, |input|)
    ensures Agrees(RefStored(input, s.p, out), CountedStored(input, s, out, limit), |input|, limit)
  {
    var k := (s.p + 7) / 8;
    if k + 4 <= |input| { assert !s.hit; }
  }

  lemma CompressedAgrees(t: DeflateTables, bits: seq<bool>, size: nat, r: Header, c: CountedHeader, out: seq<Byte>,
                         limit: nat)
    requires HeadersAgree(r, c, size) && |bits| == 8 * size && |out| <= limit
    ensures Agrees(RefCompressed(t, bits, r, out), CountedCompressed(t, bits, size, c, out, limit), size, limit)
  {
    if r.Header? {
      ReadsSymbolsOf(r.ll, bits);
      ReadsSymbolsOf(r.dl, bits);
      BlockAgrees(t, r.ll, r.dl, SymbolsOf(r.ll, bits), SymbolsOf(r.dl, bits), bits, size, c.s, out, limit);
    }
  }

  lemma BodyAgrees(t: DeflateTables, order: Order, input: seq<Byte>, bits: seq<bool>, kind: nat, s: Cursor,
                   out: seq<Byte>, limit: nat)
    requires |bits| == 8 * |input| && Fine(s, |input|) && |out| <= limit
    ensures Agrees(LaxBody(t, order, input, bits, kind, s.p, out),
      CountedBody(t, order, input, bits, kind, s, out, limit),
                   |input|, limit)
  {
    if kind == 0 {
      StoredAgrees(input, s, out, limit);
    } else if kind == 1 {
      DefaultLengthsFit();
      DefaultDistancesFit();
      CompressedAgrees(t, bits, |input|, Header(DefaultLengths(), DefaultDistances(), s.p),
                       SomeHeader(DefaultLengths(), DefaultDistances(), s), out, limit);
    } else if kind == 2 {
      HeaderAgrees(order, bits, |input|, s);
      CompressedAgrees(t, bits, |input|, RefHeader(order, bits, s.p), CountedHeaderAt(order, bits, |input|, s), out,
        limit);
    }
  }

  lemma BlockStart(s: Cursor, size: nat) returns (s': Cursor)
    requires Fine(s, size)
    ensures s' == Received(Received(s, 1), 2) && Fine(s', size) && s'.p == s.p + 3
  {
    ReceivedFine(s, 1, size);
    ReceivedFine(Received(s, 1), 2, size);
    s' := Received(Received(s, 1), 2);
  }

  lemma LaxTurn(t: DeflateTables, order: Order, input: seq<Byte>, bits: seq<bool>, p: nat, kind: nat, q: nat,
                out: seq<Byte>, last: bool, r: Outcome)
    requires p <= |bits| && kind == Field(bits, p + 1, 2) && q == p + 3 && last == (Field(bits, p, 1) == 1)
    requires r == LaxBody(t, order, input, bits, kind, q, out)
    ensures LaxBlocks(t, order, input, bits, p, out) ==
      if !r.Done? || last then r else if r.next <= p then Bad else LaxBlocks(t, order, input, bits, r.next, r.out)
  {
  }

  lemma CountedTurn(t: DeflateTables, order: Order, input: seq<Byte>, bits: seq<bool>, s: Cursor, out: seq<Byte>,
                    limit: nat)
    returns (kind: nat, s': Cursor, c: Counted, last: bool)
    requires s.p <= |bits|
    ensures kind == Field(bits, s.p + 1, 2) && last == (Field(bits, s.p, 1) == 1)
    ensures s' == Received(Received(s, 1), 2) && s'.p == s.p + 3
    ensures c == CountedBody(t, order, input, bits, kind, s', out, limit)
    ensures c.Accepted? ==> s.p < c.s.p
    ensures CountedBlocks(t, order, input, bits, s, out, limit) ==
      if c.Refused? || last then c else CountedBlocks(t, order, input, bits, c.s, c.out, limit)
  {
    OneForward(t, order, input, bits, s, out, limit);
    kind := Field(bits, s.p + 1, 2);
    s' := Received(Received(s, 1), 2);
    c := CountedBody(t, order, input, bits, kind, s', out, limit);
    assert c == CountedOne(t, order, input, bits, s, out, limit);
    last := Field(bits, s.p, 1) == 1;
  }

  lemma BodyPair(t: DeflateTables, order: Order, input: seq<Byte>, bits: seq<bool>, s: Cursor, out: seq<Byte>,
                 limit: nat)
    returns (kind: nat, q: nat, r: Outcome, c: Counted, last: bool)
    requires |bits| == 8 * |input| && Fine(s, |input|) && |out| <= limit && s.p <= |bits|
    ensures kind == Field(bits, s.p + 1, 2) && q == s.p + 3 && last == (Field(bits, s.p, 1) == 1)
    ensures r == LaxBody(t, order, input, bits, kind, q, out) && Agrees(r, c, |input|, limit)
    ensures c.Accepted? ==> s.p < c.s.p
    ensures CountedBlocks(t, order, input, bits, s, out, limit) ==
      if c.Refused? || last then c else CountedBlocks(t, order, input, bits, c.s, c.out, limit)
  {
    var s';
    kind, s', c, last := CountedTurn(t, order, input, bits, s, out, limit);
    var s'' := BlockStart(s, |input|);
    q := s'.p;
    r := LaxBody(t, order, input, bits, kind, q, out);
    BodyAgrees(t, order, input, bits, kind, s', out, limit);
  }

  /** How both go on after one block. */
  lemma BothTurn(t: DeflateTables, order: Order, input: seq<Byte>, bits: seq<bool>, s: Cursor, out: seq<Byte>,
                 limit: nat)
    returns (r: Outcome, c: Counted, last: bool)
    requires |bits| == 8 * |input| && Fine(s, |input|) && |out| <= limit && s.p <= |bits|
    ensures Agrees(r, c, |input|, limit) && (c.Accepted? ==> s.p < c.s.p)
    ensures LaxBlocks(t, order, input, bits, s.p, out) ==
      if !r.Done? || last then r else if r.next <= s.p then Bad else LaxBlocks(t, order, input, bits, r.next, r.out)
    ensures CountedBlocks(t, order, input, bits, s, out, limit) ==
      if c.Refused? || last then c else CountedBlocks(t, order, input, bits, c.s, c.out, limit)
  {
    var kind, q;
    kind, q, r, c, last := BodyPair(t, order, input, bits, s, out, limit);
    LaxTurn(t, order, input, bits, s.p, kind, q, out, last, r);
  }

  lemma {:induction false} BlocksAgree(t: DeflateTables, order: Order, input: seq<Byte>, bits: seq<bool>, s: Cursor,
                                       out: seq<Byte>, limit: nat)
    requires |bits| == 8 * |input| && Fine(s, |input|) && |out| <= limit
    ensures Agrees(LaxBlocks(t, order, input, bits, s.p, out), CountedBlocks(t, order, input, bits, s, out, limit),
                   |input|, limit)
    decreases |bits| + 1 - s.p
  {
    if s.p <= |bits| {
      var r, c, last := BothTurn(t, order, input, bits, s, out, limit);
      if r.Done? && !last && s.p < r.next {
        LaxBlocksGrows(t, order, input, bits, r.next, r.out);
        if |r.out| <= limit { BlocksAgree(t, order, input, bits, c.s, c.out, limit); }
      }
    }
  }

  /** On an intact stream the decoder gives the output, if it has room; an invalid one it refuses. */
  lemma IntactAgrees(input: seq<Byte>, limit: nat)
    ensures Agrees(LaxZlib(input), CountedZlib(input, limit), |input|, limit)
  {
    BlocksAgree(StandardTables(), StandardOrder(), input, BitsOfBytes(input), Cursor(16, 2, false), [], limit);
  }

  // ---------- truncated streams ----------

  lemma SymFollows(lens: seq<nat>, bits: seq<bool>, bits': seq<bool>, symbols: seq<Symbol>, symbols': seq<Symbol>,
                   p: nat, m: nat)
    requires ValidLens(lens) && Reads(symbols, lens, bits) && Reads(symbols', lens, bits')
    requires SameStream(bits, bits') && m == 16
    ensures SymAt(symbols, p) == SymAt(symbols', p)
    ensures SymAt(symbols, p).Symbol? ==> SymAt(symbols, p).len > 0
  {
    ReadsAt(symbols, lens, bits, p);
    ReadsAt(symbols', lens, bits', p);
    FieldSame(bits, bits', p, m);
    SymbolSame(lens, bits, p, bits', p, m, Field(bits, p, m));
    SymbolLong(symbols, lens, bits, p);
  }

  /** An element that the decoder takes is the one that stands in the input followed by zeros. */
  lemma ElementFollows(t: DeflateTables, ll: seq<nat>, dl: seq<nat>, lit: seq<Symbol>, dst: seq<Symbol>,
                       bits: seq<bool>, lit': seq<Symbol>, dst': seq<Symbol>, bits': seq<bool>, size: nat, s: Cursor)
    requires ValidLens(ll) && Reads(lit, ll, bits) && Reads(lit', ll, bits') && SameStream(bits, bits')
    requires ValidLens(dl) && Reads(dst, dl, bits) && Reads(dst', dl, bits')
    ensures var c := TakeElement(t, lit, dst, bits, size, s);
      c.Taken? && c.s.p <= |bits'| ==> s.p < c.s.p && ElementAt(t, lit', dst', bits', s.p) == Read(c.e, c.s.p)
  {
    SymFollows(ll, bits, bits', lit, lit', s.p, 16);
    var d := DecodeSym(lit, size, s);
    if d.Decoded? && 257 <= d.sym < 286 { MatchFollows(t, dl, dst, bits, dst', bits', size, d.s, d.sym - 257); }
  }

  lemma MatchFollows(t: DeflateTables, dl: seq<nat>, dst: seq<Symbol>, bits: seq<bool>, dst': seq<Symbol>,
                     bits': seq<bool>, size: nat, s: Cursor, z: nat)
    requires ValidLens(dl) && Reads(dst, dl, bits) && Reads(dst', dl, bits') && SameStream(bits, bits') && z < 29
    ensures var c := TakeMatch(t, dst, bits, size, s, z);
      c.Taken? && c.s.p <= |bits'| ==> s.p < c.s.p && MatchAt(t, dst', bits', s.p, z) == Read(c.e, c.s.p)
  {
    FieldSame(bits, bits', s.p, t.lengthExtra[z]);
    var s' := Received(s, t.lengthExtra[z]);
    SymFollows(dl, bits, bits', dst, dst', s'.p, 16);
    var d := DecodeSym(dst, size, s');
    if d.Decoded? && d.sym < 30 { FieldSame(bits, bits', d.s.p, t.distExtra[d.sym]); }
  }

  lemma {:induction false} BlockFollows(t: DeflateTables, ll: seq<nat>, dl: seq<nat>, lit: seq<Symbol>,
                                        dst: seq<Symbol>, bits: seq<bool>, lit': seq<Symbol>, dst': seq<Symbol>,
                                        bits': seq<bool>, size: nat, s: Cursor, out: seq<Byte>, limit: nat)
    requires ValidLens(ll) && Reads(lit, ll, bits) && Reads(lit', ll, bits') && SameStream(bits, bits')
    requires ValidLens(dl) && Reads(dst, dl, bits) && Reads(dst', dl, bits')
    ensures var c := CountedBlock(t, lit, dst, bits, size, s, out, limit);
      c.Accepted? && c.s.p <= |bits'| ==> RefBlock(t, lit', dst', bits', s.p, out) == Done(c.out, c.s.p)
    decreases limit - |out|
  {
    ElementFollows(t, ll, dl, lit, dst, bits, lit', dst', bits', size, s);
    var c := TakeElement(t, lit, dst, bits, size, s);
    if c.Taken? && CanApply(out, c.e) && |Applied(out, c.e)| <= limit {
      AppliedGrows(out, c.e);
      BlockForward(t, lit, dst, bits, size, c.s, Applied(out, c.e), limit);
      BlockFollows(t, ll, dl, lit, dst, bits, lit', dst', bits', size, c.s, Applied(out, c.e), limit);
    }
  }

  lemma ItemsFollow(cl: seq<nat>, symbols: seq<Symbol>, bits: seq<bool>, symbols': seq<Symbol>, bits': seq<bool>,
                    size: nat, s: Cursor, acc: seq<nat>)
    requires ValidLens(cl) && Reads(symbols, cl, bits) && Reads(symbols', cl, bits') && SameStream(bits, bits')
    requires AllLens(acc)
    ensures var c := TakeItems(symbols, bits, size, s, acc);
      c.TakenItems? ==>
        && s.p < c.s.p && AllLens(c.items)
        && (c.s.p <= |bits'| ==> LengthOpAt(symbols', bits', s.p, acc) == Items(c.items, c.s.p))
  {
    SymFollows(cl, bits, bits', symbols, symbols', s.p, 16);
    var d := DecodeSym(symbols, size, s);
    if d.Decoded? {
      FieldSame(bits, bits', d.s.p, 2);
      FieldSame(bits, bits', d.s.p, 3);
      FieldSame(bits, bits', d.s.p, 7);
    }
  }

  lemma {:induction false} LengthsFollow(cl: seq<nat>, symbols: seq<Symbol>, bits: seq<bool>, symbols': seq<Symbol>,
                                         bits': seq<bool>, size: nat, s: Cursor, total: nat, acc: seq<nat>)
    requires ValidLens(cl) && Reads(symbols, cl, bits) && Reads(symbols', cl, bits') && SameStream(bits, bits')
    requires |acc| <= total && AllLens(acc)
    ensures var c := CountedLengthsFrom(symbols, bits, size, s, total, acc);
      c.SomeLengths? ==>
        && s.p <= c.s.p && AllLens(c.lens) && |c.lens| == total
        && (c.s.p <= |bits'| ==> RefLengths(symbols', bits', s.p, total, acc) == Lengths(c.lens, c.s.p))
    decreases total - |acc|
  {
    if |acc| < total {
      ItemsFollow(cl, symbols, bits, symbols', bits', size, s, acc);
      var c := TakeItems(symbols, bits, size, s, acc);
      if c.TakenItems? && 0 < |c.items| <= total - |acc| {
        LengthsFollow(cl, symbols, bits, symbols', bits', size, c.s, total, acc + c.items);
      }
    }
  }

  lemma TablesFollow(cl: seq<nat>, bits: seq<bool>, bits': seq<bool>, size: nat, s: Cursor, hlit: nat, hdist: nat)
    requires ValidLens(cl) && SameStream(bits, bits') && hlit <= 288 && hdist <= 32
    ensures var c := CountedTables(cl, bits, size, s, hlit, hdist);
      c.SomeHeader? ==>
        && ValidLens(c.ll) && ValidLens(c.dl)
        && (c.s.p <= |bits'| ==> RefTables(cl, bits', s.p, hlit, hdist) == Header(c.ll, c.dl, c.s.p))
  {
    ReadsSymbolsOf(cl, bits);
    ReadsSymbolsOf(cl, bits');
    LengthsFollow(cl, SymbolsOf(cl, bits), bits, SymbolsOf(cl, bits'), bits', size, s, hlit + hdist, []);
    var c := CountedLengthsFrom(SymbolsOf(cl, bits), bits, size, s, hlit + hdist, []);
    if c.SomeLengths? { SplitIsValid(c.lens, hlit, hdist); }
  }

  lemma {:induction false} SizesSame(order: Order, bits: seq<bool>, bits': seq<bool>, p: nat, n: nat)
    requires SameStream(bits, bits') && n <= 19
    ensures CodeLengthLens(order, bits, p, n) == CodeLengthLens(order, bits', p, n)
  {
    if n > 0 {
      SizesSame(order, bits, bits', p, n - 1);
      FieldSame(bits, bits', p + 3 * (n - 1), 3);
    }
  }

  lemma CountsSame(order: Order, bits: seq<bool>, bits': seq<bool>, s: Cursor)
    requires SameStream(bits, bits')
    ensures CountsAt(order, bits, s) == CountsAt(order, bits', s)
  {
    var s1 := Received(s, 5);
    var s2 := Received(s1, 5);
    FieldSame(bits, bits', s.p, 5);
    FieldSame(bits, bits', s1.p, 5);
    FieldSame(bits, bits', s2.p, 4);
    var hclen := Field(bits, s2.p, 4) + 4;
    if hclen <= 19 { SizesSame(order, bits, bits', Received(s2, 4).p, hclen); }
  }

  lemma HeaderFollows(order: Order, bits: seq<bool>, bits': seq<bool>, size: nat, s: Cursor)
    requires SameStream(bits, bits')
    ensures var c := CountedHeaderAt(order, bits, size, s);
      c.SomeHeader? ==>
        && ValidLens(c.ll) && ValidLens(c.dl)
        && (c.s.p <= |bits'| ==> RefHeader(order, bits', s.p) == Header(c.ll, c.dl, c.s.p))
  {
    CountsSame(order, bits, bits', s);
    CountsSmall(order, bits, s);
    var c := CountsAt(order, bits, s);
    CountsAre(order, bits', s);
    if c.Counts? { TablesFollow(c.cl, bits, bits', size, c.s, c.hlit, c.hdist); }
  }

  lemma CompressedFollows(t: DeflateTables, bits: seq<bool>, bits': seq<bool>, size: nat, h: CountedHeader,
                          out: seq<Byte>, limit: nat)
    requires SameStream(bits, bits') && (h.SomeHeader? ==> ValidLens(h.ll) && ValidLens(h.dl))
    ensures var c := CountedCompressed(t, bits, size, h, out, limit);
      c.Accepted? && c.s.p <= |bits'| ==>
        h.SomeHeader? && h.s.p <= c.s.p && RefCompressed(t, bits', Header(h.ll, h.dl, h.s.p), out) == Done(c.out, c.s.p)
  {
    CompressedForward(t, bits, size, h, out, limit);
    if h.SomeHeader? {
      ReadsSymbolsOf(h.ll, bits);
      ReadsSymbolsOf(h.dl, bits);
      ReadsSymbolsOf(h.ll, bits');
      ReadsSymbolsOf(h.dl, bits');
      BlockFollows(t, h.ll, h.dl, SymbolsOf(h.ll, bits), SymbolsOf(h.dl, bits), bits,
                   SymbolsOf(h.ll, bits'), SymbolsOf(h.dl, bits'), bits', size, h.s, out, limit);
    }
  }

  /** A block that is accepted is the one that stands in the input followed by zeros. */
  lemma BodyFollows(t: DeflateTables, order: Order, input: seq<Byte>, bits: seq<bool>, input': seq<Byte>,
                    bits': seq<bool>, kind: nat, s: Cursor, out: seq<Byte>, limit: nat)
    requires SameStream(bits, bits') && input <= input'
    ensures var c := CountedBody(t, order, input, bits, kind, s, out, limit);
      c.Accepted? && c.s.p <= |bits'| ==> LaxBody(t, order, input', bits', kind, s.p, out) == Done(c.out, c.s.p)
  {
    if kind == 0 {
      StoredFollows(input, input', (s.p + 7) / 8, s.hit, out, limit);
    } else if kind == 1 {
      DefaultLengthsFit();
      DefaultDistancesFit();
      CompressedFollows(t, bits, bits', |input|, SomeHeader(DefaultLengths(), DefaultDistances(), s), out, limit);
    } else if kind == 2 {
      HeaderFollows(order, bits, bits', |input|, s);
      CompressedFollows(t, bits, bits', |input|, CountedHeaderAt(order, bits, |input|, s), out, limit);
    }
  }

  lemma StoredFollows(input: seq<Byte>, input': seq<Byte>, k: nat, hit: bool, out: seq<Byte>, limit: nat)
    requires input <= input'
    ensures var c := CountedStoredAt(input, k, hit, out, limit); c.Accepted? ==>
      RefStoredAt(input', k, out) == Done(c.out, c.s.p)
  {
    if k + 4 <= |input| {
      var len := 256 * input[k + 1] as int + input[k];
      if k + 4 + len <= |input| { assert input[k + 4..k + 4 + len] == input'[k + 4..k + 4 + len]; }
    }
  }

  /** The reference's side of an accepted block. */
  lemma FollowBody(t: DeflateTables, order: Order, input: seq<Byte>, bits: seq<bool>, input': seq<Byte>,
                   bits': seq<bool>, s: Cursor, kind: nat, s': Cursor, out: seq<Byte>, limit: nat, c: Counted,
                   last: bool)
    returns (q: nat, r: Outcome)
    requires SameStream(bits, bits') && input <= input' && s'.p == s.p + 3
    requires kind == Field(bits, s.p + 1, 2) && last == (Field(bits, s.p, 1) == 1)
    requires c == CountedBody(t, order, input, bits, kind, s', out, limit)
    requires c.Accepted? && c.s.p <= |bits'|
    ensures kind == Field(bits', s.p + 1, 2) && q == s.p + 3 && last == (Field(bits', s.p, 1) == 1)
    ensures r == LaxBody(t, order, input', bits', kind, q, out) && r == Done(c.out, c.s.p)
  {
    FieldSame(bits, bits', s.p, 1);
    FieldSame(bits, bits', s.p + 1, 2);
    BodyFollows(t, order, input, bits, input', bits', kind, s', out, limit);
    q, r := s'.p, Done(c.out, c.s.p);
  }

  lemma {:induction false} BlocksForward(t: DeflateTables, order: Order, input: seq<Byte>, bits: seq<bool>, s: Cursor,
                                         out: seq<Byte>, limit: nat)
    ensures var c := CountedBlocks(t, order, input, bits, s, out, limit); c.Accepted? ==> s.p < c.s.p
    decreases |bits| + 1 - s.p
  {
    OneForward(t, order, input, bits, s, out, limit);
    var c := CountedOne(t, order, input, bits, s, out, limit);
    if s.p <= |bits| && c.Accepted? { BlocksForward(t, order, input, bits, c.s, c.out, limit); }
  }

  lemma {:induction false} BlocksFollow(t: DeflateTables, order: Order, input: seq<Byte>, bits: seq<bool>,
                                        input': seq<Byte>, bits': seq<bool>, s: Cursor, out: seq<Byte>, limit: nat)
    requires SameStream(bits, bits') && input <= input'
    ensures var c := CountedBlocks(t, order, input, bits, s, out, limit);
      c.Accepted? && c.s.p <= |bits'| ==> LaxBlocks(t, order, input', bits', s.p, out) == Done(c.out, c.s.p)
    decreases |bits| + 1 - s.p
  {
    BlocksForward(t, order, input, bits, s, out, limit);
    if s.p <= |bits| && s.p <= |bits'| {
      var kind, s', c, last := CountedTurn(t, order, input, bits, s, out, limit);
      if c.Accepted? {
        if !last {
          BlocksForward(t, order, input, bits, c.s, c.out, limit);
          BlocksFollow(t, order, input, bits, input', bits', c.s, c.out, limit);
        }
        if c.s.p <= |bits'| {
          var q, r := FollowBody(t, order, input, bits, input', bits', s, kind, s', out, limit, c, last);
          LaxTurn(t, order, input', bits', s.p, kind, q, out, last, r);
        }
      }
    }
  }

  lemma ZerosSameStream(input: seq<Byte>, n: nat)
    ensures SameStream(BitsOfBytes(input), BitsOfBytes(input + Zeros(n)))
  {
    var bits, bits' := BitsOfBytes(input), BitsOfBytes(input + Zeros(n));
    forall q: nat ensures InBit(bits, q) == InBit(bits', q) {
      if q < |bits| {
        assert (input + Zeros(n))[q / 8] == input[q / 8];
      } else if q < |bits'| {
        assert (input + Zeros(n))[q / 8] == 0;
        BitOfZero(q % 8);
      }
    }
  }

  lemma HeaderTakenSame(input: seq<Byte>, input': seq<Byte>)
    requires HeaderTaken(input) && input <= input'
    ensures HeaderTaken(input')
  {
    assert input'[0] == input[0] && input'[1] == input[1];
  }

  lemma ZlibFollows(input: seq<Byte>, limit: nat, input': seq<Byte>)
    requires SameStream(BitsOfBytes(input), BitsOfBytes(input')) && input <= input'
    ensures var c := CountedZlib(input, limit);
      c.Accepted? && c.s.p <= 8 * |input'| ==> LaxZlib(input') == Done(c.out, c.s.p)
  {
    if HeaderTaken(input) {
      HeaderTakenSame(input, input');
      BlocksFollow(StandardTables(), StandardOrder(), input, BitsOfBytes(input), input', BitsOfBytes(input'),
                   Cursor(16, 2, false), [], limit);
    }
  }

  // ---------- a truncated stream that is accepted ----------

  lemma {:induction false} RevZero(n: nat)
    ensures Rev(0, n) == 0
  {
    if n > 0 { RevZero(n - 1); }
  }

  /** In the fixed code the end of a block is seven zero bits. */
  lemma EndIsZeros(lens: seq<nat>)
    requires lens == DefaultLengths()
    ensures ValidLens(lens) && Code(lens, 256) == 0
  {
    forall x: nat | 1 <= x < 7 ensures Count(lens, x) == 0 { DefaultCounts(lens, x); }
    NoShorterCodes(lens, 7);
    CountRun(lens, 0, 144, 8, 7);
    CountRun(lens, 144, 256, 9, 7);
  }

  lemma EndAt(lens: seq<nat>, bits: seq<bool>, p: nat, m: nat)
    requires lens == DefaultLengths() && m >= 16 && Field(bits, p, m) == 0
    ensures SymbolAt(lens, bits, p) == Symbol(256, 7)
  {
    EndIsZeros(lens);
    HoldsIsField(bits, p, m, 0);
    RevZero(lens[256]);
    assert Assigned(lens, 256, 0);
    ResolvesStream(lens, bits, p, m, 0, Symbol(256, 7));
  }

  /** The bits of 78 01 03 behind its two header bytes: a final block of fixed codes, and five zero bits. */
  lemma ShortBits(input: seq<Byte>, bits: seq<bool>, m: nat)
    requires input == [0x78, 0x01, 0x03] && bits == BitsOfBytes(input)
    ensures |bits| == 24 && Field(bits, 16, 1) == 1 && Field(bits, 17, 2) == 1 && Field(bits, 19, m) == 0
  {
    forall q: nat | 18 <= q ensures InBit(bits, q) == 0 {
      if q < 24 {
        assert q / 8 == 2 && q % 8 == q - 16;
        assert Pow2(2) == 4;
        BitAbove(3, 2, q - 16);
      }
    }
    assert InBit(bits, 16) == 1 && InBit(bits, 17) == 1 by {
      assert Bit(3, 0) == 1 && Bit(3, 1) == 1;
    }
    assert Field(bits, 17, 0) == 0 && Field(bits, 18, 1) == InBit(bits, 18) + 2 * Field(bits, 19, 0);
    forall i: nat | i < m ensures Bit(0, i) == InBit(bits, 19 + i) { BitOfZero(i); }
    HoldsIsField(bits, 19, m, 0);
  }

  lemma ShortHeaderTaken(input: seq<Byte>)
    requires input == [0x78, 0x01, 0x03]
    ensures HeaderTaken(input)
  {
    assert 256 * 0x78 + 1 == 31 * 991;
    assert Bit(1, 5) == 0 by { BitAbove(1, 1, 5); }
    LowOfSum(8, 7, 4);
    assert Shl(7, 4) == 112;
  }

  lemma ShortBlock(t: DeflateTables, lens: seq<nat>, dl: seq<nat>, bits: seq<bool>, limit: nat)
    requires lens == DefaultLengths() && |bits| == 24 && Field(bits, 19, 16) == 0
    ensures RefBlock(t, SymbolsOf(lens, bits), SymbolsOf(dl, bits), bits, 19, []).Overrun?
    ensures CountedBlock(t, SymbolsOf(lens, bits), SymbolsOf(dl, bits), bits, 3, Cursor(19, 6, false), [], limit)
         == Accepted([], Cursor(26, 6, false))
  {
    EndAt(lens, bits, 19, 16);
    var lit := SymbolsOf(lens, bits);
    assert lit[19] == Symbol(256, 7);
  }

  /**
    78 01 03 breaks off five bits into its end-of-block code, so the standard's decoding runs out of input. The decoder
    has fetched zero bytes for the block header by then, counts no padding, and accepts an empty output.
   */
  lemma TruncatedAccepted(limit: nat)
    ensures LaxZlib([0x78, 0x01, 0x03]).Overrun?
    ensures CountedZlib([0x78, 0x01, 0x03], limit) == Accepted([], Cursor(26, 6, false))
  {
    var input: seq<Byte> := [0x78, 0x01, 0x03];
    var bits := BitsOfBytes(input);
    ShortHeaderTaken(input);
    ShortBits(input, bits, 16);
    ShortBlocks(StandardTables(), StandardOrder(), input, bits, limit);
  }

  lemma ShortBlocks(t: DeflateTables, order: Order, input: seq<Byte>, bits: seq<bool>, limit: nat)
    requires |input| == 3 && |bits| == 24
    requires Field(bits, 16, 1) == 1 && Field(bits, 17, 2) == 1 && Field(bits, 19, 16) == 0
    ensures LaxBlocks(t, order, input, bits, 16, []).Overrun?
    ensures CountedBlocks(t, order, input, bits, Cursor(16, 2, false), [], limit) == Accepted([], Cursor(26, 6, false))
  {
    ShortBlock(t, DefaultLengths(), DefaultDistances(), bits, limit);
    var s := Cursor(16, 2, false);
    assert Received(s, 1) == Cursor(17, 6, false) && Received(Received(s, 1), 2) == Cursor(19, 6, false);
    OneIs(t, order, input, bits, s, 1, Cursor(19, 6, false), [], limit);
  }
}
