/**
  The converse: only what is laid out as the standards describe is a valid stream.
 */
module ZlibValid {
  import opened Bits
  import opened BitStream
  import opened Huffman
  import opened ZBitReader
  import opened Inflate
  import opened ZlibBlocks
  import opened Zlib
  import opened ZlibStandard
  import opened ZlibLayout

  // ---------- codes and numbers ----------

  lemma {:induction false} CodeAtBit(bits: seq<bool>, p: nat, n: nat, i: nat)
    requires i < n
    ensures Bit(CodeAt(bits, p, n), n - 1 - i) == InBit(bits, p + i)
    decreases n
  {
    if i < n - 1 {
      CodeAtBit(bits, p, n - 1, i);
      assert CodeAt(bits, p, n) / 2 == CodeAt(bits, p, n - 1);
    }
  }

  /** Where a symbol is found its code stands. */
  lemma CodeFound(lens: seq<nat>, bits: seq<bool>, p: nat, sym: nat, n: nat)
    requires SymbolAt(lens, bits, p) == Symbol(sym, n)
    ensures CodeStands(lens, bits, p, sym) && n == lens[sym]
  {
    assert AssignedAt(lens, bits, p, sym);
    forall i: nat | i < n ensures CodeBit(bits, p, Code(lens, sym), n, i) { CodeAtBit(bits, p, n, i); }
  }

  lemma FieldHolds(bits: seq<bool>, p: nat, n: nat)
    ensures Holds(bits, p, n, Field(bits, p, n))
  {
    HoldsIsField(bits, p, n, Field(bits, p, n));
  }

  // ---------- literals and matches ----------

  lemma DistanceFound(t: DeflateTables, dl: seq<nat>, dst: seq<Symbol>, bits: seq<bool>, q: nat, len: Positive)
    returns (d: nat, y: nat, end: nat)
    requires Tabled(t) && Reads(dst, dl, bits) && DistanceAt(t, dst, bits, q, len).e != Invalid
    ensures d < 30 && CodeStands(dl, bits, q, d) && end == q + dl[d] + DistanceBits(d)
    ensures Holds(bits, q + dl[d], DistanceBits(d), y)
    ensures DistanceAt(t, dst, bits, q, len) == Read(Copy(len, FirstDistance(d) + y), end)
  {
    d := dst[q].sym;
    CodeFound(dl, bits, q, d, dst[q].len);
    y := Field(bits, q + dl[d], DistanceBits(d));
    end := q + dl[d] + DistanceBits(d);
    FieldHolds(bits, q + dl[d], DistanceBits(d));
  }

  lemma MatchFound(t: DeflateTables, ll: seq<nat>, dl: seq<nat>, lit: seq<Symbol>, dst: seq<Symbol>, bits: seq<bool>,
                   p: nat, z: nat)
    returns (token: Token, q: nat, end: nat)
    requires Tabled(t) && Reads(lit, ll, bits) && Reads(dst, dl, bits) && p <= |bits| && z < 29
    requires lit[p].Symbol? && lit[p].sym == 257 + z && ElementAt(t, lit, dst, bits, p).e != Invalid
    ensures token.Match? && MatchStands(ll, dl, bits, p, token, q, end)
    ensures ElementAt(t, lit, dst, bits, p) == Read(Said(token), end)
  {
    var n := lit[p].len;
    CodeFound(ll, bits, p, 257 + z, n);
    var x := Field(bits, p + n, LengthBits(z));
    FieldHolds(bits, p + n, LengthBits(z));
    q := p + n + LengthBits(z);
    LengthRead(t, lit, dst, bits, p, z, x, n, q);
    var len := FirstLength(z) + x;
    var d, y, e := DistanceFound(t, dl, dst, bits, q, len);
    end := e;
    token := Match(z, x, d, y);
    assert Said(token) == Copy(len, FirstDistance(d) + y);
  }

  /** Whatever the decoder reads, but the end of the block, stands there as a token. */
  lemma TokenFound(t: DeflateTables, ll: seq<nat>, dl: seq<nat>, bits: seq<bool>, p: nat)
    returns (token: Token, end: nat)
    requires Tabled(t) && p <= |bits|
    requires ElementAt(t, SymbolsOf(ll, bits), SymbolsOf(dl, bits), bits, p).e !in {Invalid, EndOfBlock}
    ensures TokenStands(ll, dl, bits, p, token, end)
    ensures ElementAt(t, SymbolsOf(ll, bits), SymbolsOf(dl, bits), bits, p) == Read(Said(token), end)
  {
    var lit, dst := SymbolsOf(ll, bits), SymbolsOf(dl, bits);
    var s := lit[p].sym;
    if s < 256 {
      CodeFound(ll, bits, p, s, lit[p].len);
      token, end := Lit(s), p + ll[s];
    } else {
      var q;
      token, q, end := MatchFound(t, ll, dl, lit, dst, bits, p, s - 257);
      assert MatchStands(ll, dl, bits, p, token, q, end);
    }
  }

  /** A block that is decoded consists of tokens and its end. */
  lemma {:induction false} TokensFound(t: DeflateTables, ll: seq<nat>, dl: seq<nat>, bits: seq<bool>, p: nat,
                                       out: seq<Byte>, r: Outcome)
    returns (tokens: seq<Token>)
    requires Tabled(t) && r == RefBlock(t, SymbolsOf(ll, bits), SymbolsOf(dl, bits), bits, p, out) && r.Done?
    ensures TokensStand(ll, dl, bits, p, tokens, r.next)
    ensures Reachable(out, tokens) && Unfolded(out, tokens) == r.out
    decreases |bits| + 1 - p
  {
    var e := ElementAt(t, SymbolsOf(ll, bits), SymbolsOf(dl, bits), bits, p);
    if e.e == EndOfBlock {
      CodeFound(ll, bits, p, 256, SymbolsOf(ll, bits)[p].len);
      tokens := [];
    } else {
      var token, q := TokenFound(t, ll, dl, bits, p);
      var rest := TokensFound(t, ll, dl, bits, q, Applied(out, Said(token)), r);
      tokens := [token] + rest;
      assert tokens[1..] == rest;
    }
  }

  // ---------- the header of a dynamic block ----------

  lemma {:induction false} SizesFound(order: Order, bits: seq<bool>, p: nat, cl: seq<nat>, n: nat)
    requires Ordered(order) && n <= 19 && cl == CodeLengthLens(order, bits, p, n)
    ensures SizesStand(bits, p, cl, n)
  {
    forall c: nat | c < 19 ensures SizeStands(bits, p, cl, n, c) {
      SizesRead(order, bits, p, n, c);
      FieldHolds(bits, p + 3 * PlaceOf(c), 3);
    }
  }

  /** The item that the decoder reads stands there. */
  lemma ItemFound(cl: seq<nat>, symbols: seq<Symbol>, bits: seq<bool>, p: nat, acc: seq<nat>)
    returns (item: Item, end: nat)
    requires Reads(symbols, cl, bits) && p <= |bits| && LengthOpAt(symbols, bits, p, acc).Items?
    ensures ItemStands(cl, bits, p, item, end) && (item.Again? ==> acc != [])
    ensures LengthOpAt(symbols, bits, p, acc) == Items(ItemValues(acc, item), end)
  {
    var c, n := symbols[p].sym, symbols[p].len;
    CodeFound(cl, bits, p, c, n);
    var q := p + n;
    item := if c < 16 then One(c) else if c == 16 then Again(Field(bits, q, 2))
      else if c == 17 then ShortRun(Field(bits, q, 3)) else LongRun(Field(bits, q, 7));
    end := q + ItemBits(item);
    FieldHolds(bits, q, ItemBits(item));
  }

  lemma ValuesContinue(acc: seq<nat>, item: Item, all: seq<nat>)
    requires (item.Again? ==> acc != []) && all == acc + ItemValues(acc, item)
    ensures Continues(acc, item, all)
  {
    if item.Again? {
      forall i | |acc| <= i < |all| ensures all[i] == all[i - 1] {}
    }
  }

  /** The lengths that are read are those of items one behind the other. */
  lemma {:induction false} ItemsFound(cl: seq<nat>, symbols: seq<Symbol>, bits: seq<bool>, p: nat, acc: seq<nat>,
                                      all: seq<nat>, end: nat, total: nat)
    returns (items: seq<Item>)
    requires Reads(symbols, cl, bits) && |acc| <= total
    requires RefLengths(symbols, bits, p, total, acc) == Lengths(all, end)
    ensures ItemsStand(cl, bits, p, acc, items, all, end)
    decreases total - |acc|
  {
    if |acc| == total {
      items := [];
    } else {
      var item, q := ItemFound(cl, symbols, bits, p, acc);
      var more := acc + ItemValues(acc, item);
      ValuesContinue(acc, item, more);
      var rest := ItemsFound(cl, symbols, bits, q, more, all, end, total);
      items := [item] + rest;
      assert items[1..] == rest;
    }
  }

  lemma {:induction false} SmallLengths(cl: seq<nat>, bits: seq<bool>, p: nat, acc: seq<nat>, items: seq<Item>,
                                        all: seq<nat>, end: nat)
    requires ItemsStand(cl, bits, p, acc, items, all, end) && AllLens(acc)
    ensures AllLens(all)
    decreases items
  {
    if items != [] {
      var q: nat, more: seq<nat> :| p <= |bits| && ItemStands(cl, bits, p, items[0], q) &&
        Continues(acc, items[0], more) && ItemsStand(cl, bits, q, more, items[1..], all, end);
      ItemContinues(acc, items[0], more);
      SmallLengths(cl, bits, q, more, items[1..], all, end);
    }
  }

  lemma {:induction false} TablesFound(cl: seq<nat>, bits: seq<bool>, p: nat, hlit: nat, hdist: nat, r: Header)
    returns (items: seq<Item>)
    requires r == RefTables(cl, bits, p, hlit, hdist) && r.Header? && hlit <= 286 && hdist <= 32
    ensures Fits(cl) && ItemsStand(cl, bits, p, [], items, r.ll + r.dl, r.next)
    ensures |r.ll| == hlit && |r.dl| == hdist && ValidLens(r.ll) && ValidLens(r.dl) && Fits(r.ll) && Fits(r.dl)
  {
    var all := r.ll + r.dl;
    var lens := RefLengths(SymbolsOf(cl, bits), bits, p, hlit + hdist, []).lens;
    assert lens == lens[..hlit] + lens[hlit..] == all;
    items := ItemsFound(cl, SymbolsOf(cl, bits), bits, p, [], all, r.next, hlit + hdist);
    SmallLengths(cl, bits, p, [], items, all, r.next);
    forall i: nat | i < |r.ll| ensures r.ll[i] <= 15 { assert all[i] == r.ll[i]; }
    forall i: nat | i < |r.dl| ensures r.dl[i] <= 15 { assert all[hlit + i] == r.dl[i]; }
  }

  lemma CountsFound(order: Order, bits: seq<bool>, p: nat) returns (c: RefCounts, hclen: nat)
    requires Ordered(order) && RefCountsAt(order, bits, p).RefCounts? && !TooManyLengths(bits, 2, p)
    ensures c == RefCountsAt(order, bits, p) && c.next == p + 14 + 3 * hclen && 4 <= hclen
    ensures 257 <= c.hlit <= 286 && 1 <= c.hdist <= 32 && ValidLens(c.cl) && SizesStand(bits, p + 14, c.cl, hclen)
    ensures Holds(bits, p, 5, c.hlit - 257) && Holds(bits, p + 5, 5, c.hdist - 1) && Holds(bits, p + 10, 4, hclen - 4)
  {
    c, hclen := RefCountsAt(order, bits, p), Field(bits, p + 10, 4) + 4;
    FieldHolds(bits, p, 5);
    FieldHolds(bits, p + 5, 5);
    FieldHolds(bits, p + 10, 4);
    assert Pow2(5) == 32;
    SizesFound(order, bits, p + 14, c.cl, hclen);
    CodeLengthLensSmall(order, bits, p + 14, hclen);
  }

  lemma {:induction false} HeaderFound(order: Order, bits: seq<bool>, p: nat, r: Header) returns (h: Layout)
    requires Ordered(order) && r == RefHeader(order, bits, p) && r.Header? && !TooManyLengths(bits, 2, p)
    ensures HeaderStands(bits, p, h, r.next) && h.ll == r.ll && h.dl == r.dl
  {
    var c, hclen := CountsFound(order, bits, p);
    var items := TablesFound(c.cl, bits, c.next, c.hlit, c.hdist, r);
    h := Layout(c.cl, hclen, items, r.ll, r.dl);
  }

  // ---------- blocks ----------

  lemma StoredFound(input: seq<Byte>, p: nat, out: seq<Byte>) returns (data: seq<Byte>)
    requires RefStored(input, p, out).Done?
    ensures StoredStands(input, (p + 7) / 8, data)
    ensures RefStored(input, p, out) == Done(out + data, 8 * ((p + 7) / 8 + 4 + |data|))
  {
    var k := (p + 7) / 8;
    var len: nat := 256 * input[k + 1] as int + input[k];
    data := input[k + 4..k + 4 + len];
  }

  /** The body of a block that is decoded stands there as a block of its kind. */
  lemma {:induction false} BodyFound(t: DeflateTables, order: Order, input: seq<Byte>, bits: seq<bool>, kind: nat,
                                     p: nat, out: seq<Byte>, r: Outcome)
    returns (b: Block)
    requires Tabled(t) && Ordered(order) && |bits| == 8 * |input|
    requires r == RefBody(t, order, input, bits, kind, p, out) && r.Done?
    ensures kind == Kind(b) && BodyStands(input, bits, p, b, r.next) && Adds(out, b, r.out)
    ensures p <= r.next <= |bits|
  {
    if kind == 0 {
      var data := StoredFound(input, p, out);
      b := StoredBlock(data);
    } else if kind == 1 {
      RefBlockGrows(t, SymbolsOf(DefaultLengths(), bits), SymbolsOf(DefaultDistances(), bits), bits, p, out);
      var tokens := TokensFound(t, DefaultLengths(), DefaultDistances(), bits, p, out, r);
      b := FixedBlock(tokens);
    } else {
      b := DynamicFound(t, order, input, bits, p, out, r);
    }
  }

  lemma {:induction false} DynamicFound(t: DeflateTables, order: Order, input: seq<Byte>, bits: seq<bool>, p: nat,
                                        out: seq<Byte>, r: Outcome)
    returns (b: Block)
    requires Tabled(t) && Ordered(order) && r == RefBody(t, order, input, bits, 2, p, out) && r.Done?
    ensures b.DynamicBlock? && BodyStands(input, bits, p, b, r.next) && Adds(out, b, r.out)
    ensures p <= r.next <= |bits|
  {
    var header := RefHeader(order, bits, p);
    assert r == RefCompressed(t, bits, header, out);
    var h := HeaderFound(order, bits, p, header);
    b := DynamicTokens(t, input, bits, p, h, header.next, out, r);
  }

  lemma {:induction false} DynamicTokens(t: DeflateTables, input: seq<Byte>, bits: seq<bool>, p: nat, h: Layout, q: nat,
                                         out: seq<Byte>, r: Outcome)
    returns (b: Block)
    requires Tabled(t) && HeaderStands(bits, p, h, q) && r.Done?
    requires r == RefBlock(t, SymbolsOf(h.ll, bits), SymbolsOf(h.dl, bits), bits, q, out)
    ensures b.DynamicBlock? && BodyStands(input, bits, p, b, r.next) && Adds(out, b, r.out)
    ensures p <= r.next <= |bits|
  {
    RefBlockGrows(t, SymbolsOf(h.ll, bits), SymbolsOf(h.dl, bits), bits, q, out);
    ItemsForward(h.cl, bits, p + 14 + 3 * h.hclen, [], h.items, h.ll + h.dl, q);
    var tokens := TokensFound(t, h.ll, h.dl, bits, q, out, r);
    b := DynamicBlock(h, tokens);
  }

  lemma {:induction false} ItemsForward(cl: seq<nat>, bits: seq<bool>, p: nat, acc: seq<nat>, items: seq<Item>,
                                        all: seq<nat>, end: nat)
    requires ItemsStand(cl, bits, p, acc, items, all, end)
    ensures p <= end
    decreases items
  {
    if items != [] {
      var q: nat, more: seq<nat> :| p <= |bits| && ItemStands(cl, bits, p, items[0], q) &&
        Continues(acc, items[0], more) && ItemsStand(cl, bits, q, more, items[1..], all, end);
      ItemsForward(cl, bits, q, more, items[1..], all, end);
    }
  }

  // ---------- the stream ----------

  lemma {:induction false} BlockFound(t: DeflateTables, order: Order, input: seq<Byte>, bits: seq<bool>, p: nat,
                                      out: seq<Byte>)
    returns (last: bool, b: Block, q: nat, out': seq<Byte>)
    requires Tabled(t) && Ordered(order) && |bits| == 8 * |input|
    requires RefBlocks(t, order, input, bits, p, out).Done?
    ensures BlockStands(input, bits, p, last, b, q) && Adds(out, b, out')
    ensures RefBlocks(t, order, input, bits, p, out) ==
      if last then Done(out', q) else RefBlocks(t, order, input, bits, q, out')
  {
    var kind := Field(bits, p + 1, 2);
    var r := RefBody(t, order, input, bits, kind, p + 3, out);
    BlockTurn(t, order, input, bits, p, out, r);
    b := BodyFound(t, order, input, bits, kind, p + 3, out, r);
    last, q, out' := Field(bits, p, 1) == 1, r.next, r.out;
    FieldHolds(bits, p, 1);
    FieldHolds(bits, p + 1, 2);
    FieldBelow(bits, p, 1);
  }

  lemma {:induction false} BlocksFound(t: DeflateTables, order: Order, input: seq<Byte>, bits: seq<bool>, p: nat,
                                       out: seq<Byte>, r: Outcome)
    returns (blocks: seq<Block>)
    requires Tabled(t) && Ordered(order) && |bits| == 8 * |input|
    requires r == RefBlocks(t, order, input, bits, p, out) && r.Done?
    ensures BlocksStand(input, bits, p, blocks, out, r.out, r.next)
    decreases |bits| + 1 - p
  {
    var last, b, q, out' := BlockFound(t, order, input, bits, p, out);
    if last {
      blocks := [b];
    } else {
      var rest := BlocksFound(t, order, input, bits, q, out', r);
      blocks := [b] + rest;
      assert blocks[1..] == rest;
    }
  }

  /** Every valid stream is laid out as the standards describe, and its blocks bring its output. */
  lemma StreamFound(input: seq<Byte>) returns (blocks: seq<Block>)
    requires RefZlib(input).Done?
    ensures StreamStands(input, blocks, RefZlib(input).out, RefZlib(input).next)
  {
    var t, order, bits := StandardTables(), StandardOrder(), BitsOfBytes(input);
    StandardTabled();
    StandardOrdered();
    var r := RefBlocks(t, order, input, bits, 16, []);
    StreamIs(input, t, order, bits, r);
    SumsReduced(r.out);
    blocks := BlocksFound(t, order, input, bits, 16, [], r);
  }

  /** The valid streams are exactly those that are laid out in that way. */
  lemma ValidIffLaidOut(input: seq<Byte>, out: seq<Byte>, next: nat)
    ensures RefZlib(input) == Done(out, next) <==> exists blocks :: StreamStands(input, blocks, out, next)
  {
    if RefZlib(input) == Done(out, next) {
      var blocks := StreamFound(input);
      assert StreamStands(input, blocks, out, next);
    }
    if blocks :| StreamStands(input, blocks, out, next) { StreamRead(input, blocks, out, next); }
  }
}
