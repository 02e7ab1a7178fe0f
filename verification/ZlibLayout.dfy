/**
  The layout of a compressed stream as RFC 1950 and RFC 1951 describe it to a writer: codes from their most significant
  bit on, numbers from their least significant bit on, and the tables of RFC 1951 in closed form. What is laid out like
  this is decoded to what it stands for.
 */
module ZlibLayout {
  import opened Bits
  import opened BitStream
  import opened Huffman
  import opened ZBitReader
  import opened Inflate
  import opened ZlibBlocks
  import opened Zlib
  import opened ZlibStandard
  import opened ZlibDecode

  // ---------- codes (section 3.1.1 of RFC 1951) ----------

  /** Bit `i` of the code at `p`, counted from its most significant one. */
  predicate CodeBit(bits: seq<bool>, p: nat, code: nat, n: nat, i: nat)
    requires i < n
  {
    InBit(bits, p + i) == Bit(code, n - 1 - i)
  }

  /** The code of `sym` stands at `p`. */
  ghost predicate CodeStands(lens: seq<nat>, bits: seq<bool>, p: nat, sym: nat) {
    && sym < |lens| && lens[sym] > 0
    && forall i: nat :: i < lens[sym] ==> CodeBit(bits, p, Code(lens, sym), lens[sym], i)
  }

  lemma {:induction false} CodeAtStands(bits: seq<bool>, p: nat, code: nat, n: nat, k: nat)
    requires k <= n && code < Pow2(n) && forall i: nat :: i < n ==> CodeBit(bits, p, code, n, i)
    ensures CodeAt(bits, p, k) == Shr(code, n - k)
    decreases k
  {
    if k == 0 {
      ShrOfSmall(code, n);
    } else {
      CodeAtStands(bits, p, code, n, k - 1);
      assert CodeBit(bits, p, code, n, k - 1);
      BitOfShr(code, n - k, 0);
    }
  }

  /** The decoder finds the symbol whose code stands there. */
  lemma CodeRead(lens: seq<nat>, bits: seq<bool>, p: nat, sym: nat)
    requires ValidLens(lens) && Fits(lens) && CodeStands(lens, bits, p, sym)
    ensures SymbolAt(lens, bits, p) == Symbol(sym, lens[sym])
  {
    CodeBelow(lens, sym);
    CodeAtStands(bits, p, Code(lens, sym), lens[sym], lens[sym]);
    var v, m := Field(bits, p, 16), 16;
    HoldsIsField(bits, p, m, v);
    AssignedInField(lens, bits, p, m, v, sym);
    ResolvesStream(lens, bits, p, m, v, Symbol(sym, lens[sym]));
  }

  // ---------- literals and matches (section 3.2.5) ----------

  /** Extra bits and first length of length code 257 + z, and the same for distance code d. */
  function LengthBits(z: nat): nat {
    if z < 4 || z == 28 then 0 else z / 4 - 1
  }

  function FirstLength(z: nat): nat {
    if z < 4 then 3 + z else if z == 28 then 258 else 3 + Shl(4 + z % 4, z / 4 - 1)
  }

  function DistanceBits(d: nat): nat {
    if d < 2 then 0 else d / 2 - 1
  }

  function FirstDistance(d: nat): nat {
    if d < 2 then 1 + d else 1 + Shl(2 + d % 2, d / 2 - 1)
  }

  /** Within one number of extra bits the first values are two to that number apart, and so they are at its end. */
  lemma Spaced(v: nat, e: nat)
    ensures Shl(v + 1, e) == Shl(v, e) + Pow2(e) && Shl(2 * v, e) == Shl(v, e + 1)
  {
    ShlSum(v, 1, e);
    Pow2IsShl(e);
    ShlHalf(v, e);
  }

  lemma LengthsFollow(z: nat)
    requires 0 < z < 28
    ensures FirstLength(z) == FirstLength(z - 1) + Pow2(LengthBits(z - 1))
  {
    if z <= 4 {
      assert Shl(4, 0) == 4;
    } else {
      var e, r := (z - 1) / 4 - 1, (z - 1) % 4;
      Spaced(4 + r, e);
      Spaced(4, e);
      assert if r < 3 then z / 4 - 1 == e && z % 4 == r + 1 else z / 4 - 1 == e + 1 && z % 4 == 0;
    }
  }

  lemma DistancesFollow(d: nat)
    requires 0 < d
    ensures FirstDistance(d) == FirstDistance(d - 1) + Pow2(DistanceBits(d - 1))
  {
    if d <= 2 {
      assert Shl(2, 0) == 2;
    } else {
      var e := (d - 1) / 2 - 1;
      Spaced(2 + (d - 1) % 2, e);
      Spaced(2, e);
      assert d % 2 == 0 ==> d / 2 - 1 == e + 1;
    }
  }

  /** The tables of the decoder are these. */
  lemma {:induction false} LengthTable(z: nat)
    requires z < 29
    ensures LENGTH_BASE[z] == FirstLength(z) && LENGTH_EXTRA[z] == LengthBits(z)
    decreases z
  {
    ExtraBits(z);
    if 0 < z < 28 {
      LengthTable(z - 1);
      LengthCodesTile(z - 1);
      LengthsFollow(z);
    }
  }

  lemma {:induction false} DistanceTable(d: nat)
    requires d < 30
    ensures DIST_BASE[d] == FirstDistance(d) && DIST_EXTRA[d] == DistanceBits(d)
    decreases d
  {
    ExtraBits(d);
    if 0 < d {
      DistanceTable(d - 1);
      DistanceCodesTile(d - 1);
      DistancesFollow(d);
    }
  }

  /** A literal, or a match given by its two codes and the numbers behind them. */
  datatype Written = Lit(b: Byte) | Match(z: nat, x: nat, d: nat, y: nat)

  predicate TokenOk(t: Written) {
    t.Match? ==> t.z < 29 && t.d < 30 && t.x < Pow2(LengthBits(t.z)) && t.y < Pow2(DistanceBits(t.d))
  }

  type Token = t: Written | TokenOk(t) witness Lit(0)

  function Said(t: Token): Element {
    match t
    case Lit(b) => Literal(b)
    case Match(z, x, d, y) => Copy(FirstLength(z) + x, FirstDistance(d) + y)
  }

  /** A match at `p`, its distance code at `q` and the end of it at `end`. */
  ghost predicate MatchStands(ll: seq<nat>, dl: seq<nat>, bits: seq<bool>, p: nat, t: Token, q: nat, end: nat)
    requires t.Match?
  {
    && CodeStands(ll, bits, p, 257 + t.z)
    && Holds(bits, p + ll[257 + t.z], LengthBits(t.z), t.x) && q == p + ll[257 + t.z] + LengthBits(t.z)
    && CodeStands(dl, bits, q, t.d)
    && Holds(bits, q + dl[t.d], DistanceBits(t.d), t.y) && end == q + dl[t.d] + DistanceBits(t.d)
  }

  ghost predicate TokenStands(ll: seq<nat>, dl: seq<nat>, bits: seq<bool>, p: nat, t: Token, end: nat) {
    match t
    case Lit(b) => CodeStands(ll, bits, p, b) && end == p + ll[b]
    case Match(_, _, _, _) => exists q: nat :: MatchStands(ll, dl, bits, p, t, q, end)
  }

  /** The tables that a decoder must have. */
  ghost predicate Tabled(t: DeflateTables) {
    && (forall z: nat :: z < 29 ==> t.lengthBase[z] == FirstLength(z) && t.lengthExtra[z] == LengthBits(z))
    && (forall d: nat :: d < 30 ==> t.distBase[d] == FirstDistance(d) && t.distExtra[d] == DistanceBits(d))
  }

  /** The decoder has them. */
  lemma StandardTabled()
    ensures Tabled(StandardTables())
  {
    var t := StandardTables();
    forall z: nat | z < 29 ensures t.lengthBase[z] == FirstLength(z) && t.lengthExtra[z] == LengthBits(z) {
      LengthTable(z);
    }
    forall d: nat | d < 30 ensures t.distBase[d] == FirstDistance(d) && t.distExtra[d] == DistanceBits(d) {
      DistanceTable(d);
    }
  }

  lemma DistanceRead(t: DeflateTables, dl: seq<nat>, dst: seq<Symbol>, bits: seq<bool>, q: nat, len: Positive, d: nat,
                     y: nat, end: nat)
    requires Tabled(t) && ValidLens(dl) && Fits(dl)
    requires Reads(dst, dl, bits) && d < 30 && CodeStands(dl, bits, q, d) && q <= |bits|
    requires Holds(bits, q + dl[d], DistanceBits(d), y) && end == q + dl[d] + DistanceBits(d)
    ensures DistanceAt(t, dst, bits, q, len) == Read(Copy(len, FirstDistance(d) + y), end)
  {
    CodeRead(dl, bits, q, d);
    HoldsIsField(bits, q + dl[d], DistanceBits(d), y);
  }

  lemma LengthRead(t: DeflateTables, lit: seq<Symbol>, dst: seq<Symbol>, bits: seq<bool>, p: nat, z: nat, x: nat,
                   n: nat, q: nat)
    requires Tabled(t) && p < |lit| && lit[p] == Symbol(257 + z, n) && z < 29
    requires Holds(bits, p + n, LengthBits(z), x) && q == p + n + LengthBits(z)
    ensures ElementAt(t, lit, dst, bits, p) == DistanceAt(t, dst, bits, q, FirstLength(z) + x)
  {
    HoldsIsField(bits, p + n, LengthBits(z), x);
  }

  lemma MatchRead(t: DeflateTables, ll: seq<nat>, dl: seq<nat>, lit: seq<Symbol>, dst: seq<Symbol>, bits: seq<bool>,
                  p: nat, token: Token, q: nat, end: nat)
    requires Tabled(t) && ValidLens(ll) && Fits(ll) && ValidLens(dl) && Fits(dl)
    requires Reads(lit, ll, bits) && Reads(dst, dl, bits)
    requires token.Match? && MatchStands(ll, dl, bits, p, token, q, end) && end <= |bits|
    ensures ElementAt(t, lit, dst, bits, p) == Read(Said(token), end) && p < end
  {
    var z, n := token.z, ll[257 + token.z];
    CodeRead(ll, bits, p, 257 + z);
    assert lit[p] == SymbolAt(ll, bits, p);
    LengthRead(t, lit, dst, bits, p, z, token.x, n, q);
    DistanceRead(t, dl, dst, bits, q, FirstLength(z) + token.x, token.d, token.y, end);
  }

  lemma TokenRead(t: DeflateTables, ll: seq<nat>, dl: seq<nat>, bits: seq<bool>, p: nat, token: Token, end: nat)
    requires Tabled(t) && ValidLens(ll) && Fits(ll) && ValidLens(dl) && Fits(dl)
    requires TokenStands(ll, dl, bits, p, token, end) && end <= |bits|
    ensures ElementAt(t, SymbolsOf(ll, bits), SymbolsOf(dl, bits), bits, p) == Read(Said(token), end) && p < end
  {
    match token
    case Lit(b) =>
      CodeRead(ll, bits, p, b);
    case Match(_, _, _, _) =>
      var q: nat :| MatchStands(ll, dl, bits, p, token, q, end);
      MatchRead(t, ll, dl, SymbolsOf(ll, bits), SymbolsOf(dl, bits), bits, p, token, q, end);
  }

  // ---------- a compressed block ----------

  /** The tokens one behind the other, and behind them the code that ends the block. */
  ghost predicate TokensStand(ll: seq<nat>, dl: seq<nat>, bits: seq<bool>, p: nat, tokens: seq<Token>, end: nat)
    decreases tokens
  {
    if tokens == [] then CodeStands(ll, bits, p, 256) && end == p + ll[256] <= |bits|
    else
      exists q: nat :: q <= |bits| && TokenStands(ll, dl, bits, p, tokens[0], q) &&
        TokensStand(ll, dl, bits, q, tokens[1..], end)
  }

  /** No match of the tokens reaches back behind the first byte of all output. */
  predicate Reachable(out: seq<Byte>, tokens: seq<Token>)
    decreases tokens
  {
    tokens != [] ==>
      CanApply(out, Said(tokens[0])) && Reachable(Applied(out, Said(tokens[0])), tokens[1..])
  }

  function Unfolded(out: seq<Byte>, tokens: seq<Token>): seq<Byte>
    requires Reachable(out, tokens)
    decreases tokens
  {
    if tokens == [] then out else Unfolded(Applied(out, Said(tokens[0])), tokens[1..])
  }

  lemma {:induction false} TokensHead(t: DeflateTables, ll: seq<nat>, dl: seq<nat>, bits: seq<bool>, p: nat,
                                      out: seq<Byte>, token: Token, q: nat, out': seq<Byte>)
    requires Tabled(t) && ValidLens(ll) && Fits(ll) && ValidLens(dl) && Fits(dl)
    requires TokenStands(ll, dl, bits, p, token, q) && q <= |bits|
    requires CanApply(out, Said(token)) && out' == Applied(out, Said(token))
    ensures RefBlock(t, SymbolsOf(ll, bits), SymbolsOf(dl, bits), bits, p, out) ==
            RefBlock(t, SymbolsOf(ll, bits), SymbolsOf(dl, bits), bits, q, out') && p < q
  {
    TokenRead(t, ll, dl, bits, p, token, q);
  }

  lemma {:induction false} BlockEnds(t: DeflateTables, ll: seq<nat>, dl: seq<nat>, bits: seq<bool>, p: nat,
                                     out: seq<Byte>, end: nat)
    requires ValidLens(ll) && Fits(ll) && CodeStands(ll, bits, p, 256) && end == p + ll[256] <= |bits|
    ensures RefBlock(t, SymbolsOf(ll, bits), SymbolsOf(dl, bits), bits, p, out) == Done(out, end)
  {
    CodeRead(ll, bits, p, 256);
    assert SymbolsOf(ll, bits)[p] == Symbol(256, ll[256]);
  }

  /** Such a block is decoded to what its tokens stand for. */
  lemma {:induction false} TokensRead(t: DeflateTables, ll: seq<nat>, dl: seq<nat>, bits: seq<bool>, p: nat,
                                      out: seq<Byte>, tokens: seq<Token>, end: nat)
    requires Tabled(t) && ValidLens(ll) && Fits(ll) && ValidLens(dl) && Fits(dl)
    requires TokensStand(ll, dl, bits, p, tokens, end) && Reachable(out, tokens)
    ensures RefBlock(t, SymbolsOf(ll, bits), SymbolsOf(dl, bits), bits, p, out) == Done(Unfolded(out, tokens), end)
    decreases tokens
  {
    if tokens == [] {
      BlockEnds(t, ll, dl, bits, p, out, end);
    } else {
      var q: nat :| q <= |bits| && TokenStands(ll, dl, bits, p, tokens[0], q) &&
        TokensStand(ll, dl, bits, q, tokens[1..], end);
      var out' := Applied(out, Said(tokens[0]));
      TokensHead(t, ll, dl, bits, p, out, tokens[0], q, out');
      TokensRead(t, ll, dl, bits, q, out', tokens[1..], end);
    }
  }

  // ---------- the header of a dynamic block (section 3.2.7) ----------

  /** Which symbol of the code length code the size number `i` belongs to, and which size belongs to symbol `c`. */
  function OrderAt(i: nat): nat
    requires i < 19
  {
    if i < 3 then 16 + i else if i == 3 then 0 else if i % 2 == 0 then 6 + i / 2 else (19 - i) / 2
  }

  function PlaceOf(c: nat): nat
    requires c < 19
  {
    if c == 0 then 3 else if c < 8 then 19 - 2 * c else if c < 16 then 2 * c - 12 else c - 16
  }

  lemma LengthOrder(i: nat)
    requires i < 19
    ensures LENGTH_ORDER[i] == OrderAt(i)
  {
  }

  lemma PlacesTurn(i: nat, c: nat)
    requires i < 19 && c < 19
    ensures c == OrderAt(i) <==> i == PlaceOf(c)
  {
  }

  ghost predicate Ordered(order: Order) {
    forall i: nat :: i < 19 ==> order[i] == OrderAt(i)
  }

  lemma StandardOrdered()
    ensures Ordered(StandardOrder())
  {
    forall i: nat | i < 19 ensures LENGTH_ORDER[i] == OrderAt(i) { LengthOrder(i); }
  }

  /** The size of symbol `c` is the one at its place, if there are so many sizes. */
  lemma {:induction false} SizesRead(order: Order, bits: seq<bool>, p: nat, n: nat, c: nat)
    requires Ordered(order) && n <= 19 && c < 19
    ensures CodeLengthLens(order, bits, p, n)[c] == if PlaceOf(c) < n then Field(bits, p + 3 * PlaceOf(c), 3) else 0
    decreases n
  {
    if n > 0 {
      SizesRead(order, bits, p, n - 1, c);
      assert order[n - 1] == OrderAt(n - 1);
      PlacesTurn(n - 1, c);
    }
  }

  /** The first `n` sizes of the code length code stand at `p`, and the others are zero. */
  ghost predicate SizesStand(bits: seq<bool>, p: nat, cl: seq<nat>, n: nat) {
    && |cl| == 19 && n <= 19
    && forall c: nat :: c < 19 ==> SizeStands(bits, p, cl, n, c)
  }

  ghost predicate SizeStands(bits: seq<bool>, p: nat, cl: seq<nat>, n: nat, c: nat)
    requires c < |cl| == 19
  {
    if PlaceOf(c) < n then Holds(bits, p + 3 * PlaceOf(c), 3, cl[c]) else cl[c] == 0
  }

  lemma SizesGiven(order: Order, bits: seq<bool>, p: nat, cl: seq<nat>, n: nat)
    requires Ordered(order) && SizesStand(bits, p, cl, n)
    ensures CodeLengthLens(order, bits, p, n) == cl
  {
    forall c: nat | c < 19 ensures CodeLengthLens(order, bits, p, n)[c] == cl[c] {
      SizesRead(order, bits, p, n, c);
      assert SizeStands(bits, p, cl, n, c);
      if PlaceOf(c) < n { HoldsIsField(bits, p + 3 * PlaceOf(c), 3, cl[c]); }
    }
  }

  /** A length, the one before it again for 3 to 6 times, or a run of 3 to 10 or of 11 to 138 zeros. */
  datatype Item = One(len: nat) | Again(x: nat) | ShortRun(x: nat) | LongRun(x: nat)

  function ItemCode(item: Item): nat {
    match item
    case One(len) => len
    case Again(_) => 16
    case ShortRun(_) => 17
    case LongRun(_) => 18
  }

  function ItemBits(item: Item): nat {
    match item
    case One(_) => 0
    case Again(_) => 2
    case ShortRun(_) => 3
    case LongRun(_) => 7
  }

  ghost predicate ItemStands(cl: seq<nat>, bits: seq<bool>, p: nat, item: Item, end: nat) {
    && (item.One? ==> item.len < 16)
    && CodeStands(cl, bits, p, ItemCode(item))
    && end == p + cl[ItemCode(item)] + ItemBits(item)
    && (!item.One? ==> Holds(bits, p + cl[ItemCode(item)], ItemBits(item), item.x))
  }

  /** The lengths so far with those of the item behind them. */
  ghost predicate Continues(acc: seq<nat>, item: Item, all: seq<nat>) {
    && acc < all
    && match item
       case One(len) => all == acc + [len]
       case Again(x) => |all| == |acc| + 3 + x && acc != [] && forall i :: |acc| <= i < |all| ==> all[i] == all[i - 1]
       case ShortRun(x) => |all| == |acc| + 3 + x && forall i :: |acc| <= i < |all| ==> all[i] == 0
       case LongRun(x) => |all| == |acc| + 11 + x && forall i :: |acc| <= i < |all| ==> all[i] == 0
  }

  lemma {:induction false} SameAgain(acc: seq<nat>, all: seq<nat>, k: nat)
    requires acc != [] && acc <= all && |acc| <= k < |all|
    requires forall i :: |acc| <= i < |all| ==> all[i] == all[i - 1]
    ensures all[k] == acc[|acc| - 1]
    decreases k
  {
    if k > |acc| { SameAgain(acc, all, k - 1); }
  }

  /** What the decoder appends for an item. */
  function ItemValues(acc: seq<nat>, item: Item): seq<nat>
    requires item.Again? ==> acc != []
  {
    match item
    case One(len) => [len]
    case Again(x) => Repeat(acc[|acc| - 1], x + 3)
    case ShortRun(x) => Repeat(0, x + 3)
    case LongRun(x) => Repeat(0, x + 11)
  }

  lemma ItemContinues(acc: seq<nat>, item: Item, all: seq<nat>)
    requires Continues(acc, item, all)
    ensures all == acc + ItemValues(acc, item)
  {
    var values := ItemValues(acc, item);
    assert all == all[..|acc|] + all[|acc|..];
    if !item.One? {
      forall k | |acc| <= k < |all| ensures all[k] == values[k - |acc|] {
        if item.Again? { SameAgain(acc, all, k); }
      }
    }
  }

  lemma ItemRead(cl: seq<nat>, symbols: seq<Symbol>, bits: seq<bool>, p: nat, acc: seq<nat>, item: Item, end: nat)
    requires ValidLens(cl) && Fits(cl) && Reads(symbols, cl, bits) && p <= |bits|
    requires ItemStands(cl, bits, p, item, end) && (item.Again? ==> acc != [])
    ensures LengthOpAt(symbols, bits, p, acc) == Items(ItemValues(acc, item), end)
  {
    var c := ItemCode(item);
    CodeRead(cl, bits, p, c);
    assert symbols[p] == Symbol(c, cl[c]);
    if !item.One? { HoldsIsField(bits, p + cl[c], ItemBits(item), item.x); }
  }

  /** The items one behind the other bring the lengths from `acc` to `all`. */
  ghost predicate ItemsStand(cl: seq<nat>, bits: seq<bool>, p: nat, acc: seq<nat>, items: seq<Item>, all: seq<nat>,
                             end: nat)
    decreases items
  {
    if items == [] then acc == all && p == end <= |bits|
    else
      exists q: nat, more: seq<nat> {:trigger ItemsStand(cl, bits, q, more, items[1..], all, end)} ::
        && p <= |bits| && ItemStands(cl, bits, p, items[0], q) && Continues(acc, items[0], more)
        && ItemsStand(cl, bits, q, more, items[1..], all, end)
  }

  /** The items are read back as the lengths they stand for. */
  lemma {:induction false} ItemsRead(cl: seq<nat>, symbols: seq<Symbol>, bits: seq<bool>, p: nat, acc: seq<nat>,
                                     items: seq<Item>, all: seq<nat>, end: nat, total: nat)
    requires ValidLens(cl) && Fits(cl) && Reads(symbols, cl, bits) && total == |all|
    requires ItemsStand(cl, bits, p, acc, items, all, end)
    ensures |acc| <= total && RefLengths(symbols, bits, p, total, acc) == Lengths(all, end)
    decreases items
  {
    if items != [] {
      var q: nat, more: seq<nat> :| p <= |bits| && ItemStands(cl, bits, p, items[0], q) &&
        Continues(acc, items[0], more) && ItemsStand(cl, bits, q, more, items[1..], all, end);
      ItemsRead(cl, symbols, bits, q, more, items[1..], all, end, total);
      ItemContinues(acc, items[0], more);
      ItemRead(cl, symbols, bits, p, acc, items[0], q);
      LengthsStep(symbols, bits, p, total, acc, ItemValues(acc, items[0]), q, more);
    }
  }

  /** The header of a dynamic block: three counts, the sizes of the code length code, and the items. */
  datatype Layout = Layout(cl: seq<nat>, hclen: nat, items: seq<Item>, ll: seq<nat>, dl: seq<nat>)

  ghost predicate LayoutOk(h: Layout) {
    && 4 <= h.hclen && 257 <= |h.ll| <= 286 && 1 <= |h.dl| <= 32
    && ValidLens(h.cl) && Fits(h.cl) && ValidLens(h.ll) && Fits(h.ll) && ValidLens(h.dl) && Fits(h.dl)
  }

  ghost predicate HeaderStands(bits: seq<bool>, p: nat, h: Layout, end: nat) {
    && LayoutOk(h)
    && Holds(bits, p, 5, |h.ll| - 257) && Holds(bits, p + 5, 5, |h.dl| - 1) && Holds(bits, p + 10, 4, h.hclen - 4)
    && SizesStand(bits, p + 14, h.cl, h.hclen)
    && ItemsStand(h.cl, bits, p + 14 + 3 * h.hclen, [], h.items, h.ll + h.dl, end)
  }

  lemma {:induction false} CountsRead(order: Order, bits: seq<bool>, p: nat, h: Layout, end: nat)
    requires Ordered(order) && HeaderStands(bits, p, h, end)
    ensures RefCountsAt(order, bits, p) == RefCounts(h.cl, p + 14 + 3 * h.hclen, |h.ll|, |h.dl|)
    ensures !TooManyLengths(bits, 2, p)
  {
    HoldsIsField(bits, p, 5, |h.ll| - 257);
    HoldsIsField(bits, p + 5, 5, |h.dl| - 1);
    HoldsIsField(bits, p + 10, 4, h.hclen - 4);
    SizesGiven(order, bits, p + 14, h.cl, h.hclen);
  }

  lemma {:induction false} TablesRead(cl: seq<nat>, bits: seq<bool>, p: nat, items: seq<Item>, ll: seq<nat>,
                                      dl: seq<nat>, hlit: nat, hdist: nat, end: nat)
    requires ValidLens(cl) && Fits(cl) && Fits(ll) && Fits(dl) && hlit == |ll| && hdist == |dl|
    requires ItemsStand(cl, bits, p, [], items, ll + dl, end)
    ensures RefTables(cl, bits, p, hlit, hdist) == Header(ll, dl, end)
  {
    var all := ll + dl;
    ItemsRead(cl, SymbolsOf(cl, bits), bits, p, [], items, all, end, hlit + hdist);
    assert all[..hlit] == ll && all[hlit..] == dl;
  }

  /** The decoder finds the two lists of code lengths. */
  lemma {:induction false} HeaderRead(order: Order, bits: seq<bool>, p: nat, h: Layout, end: nat)
    requires Ordered(order) && HeaderStands(bits, p, h, end)
    ensures RefHeader(order, bits, p) == Header(h.ll, h.dl, end) && !TooManyLengths(bits, 2, p)
  {
    CountsRead(order, bits, p, h, end);
    TablesRead(h.cl, bits, p + 14 + 3 * h.hclen, h.items, h.ll, h.dl, |h.ll|, |h.dl|, end);
  }

  // ---------- blocks ----------

  /** The fixed codes of section 3.2.6. */
  function FixedSize(sym: nat): nat {
    if sym < 144 then 8 else if sym < 256 then 9 else if sym < 280 then 7 else 8
  }

  function FixedCode(sym: nat): nat {
    if sym < 144 then 0x30 + sym
    else if sym < 256 then 0x190 + (sym - 144)
    else if sym < 280 then sym - 256
    else 0xC0 + (sym - 280)
  }

  lemma FirstFixed(lens: seq<nat>)
    requires lens == DefaultLengths()
    ensures FirstCode(lens, 7) == 0 && FirstCode(lens, 8) == 48 && FirstCode(lens, 9) == 400
  {
    forall x: nat | 1 <= x <= 9 ensures Count(lens, x) == if x == 7 then 24 else if x == 8 then 152 else if x == 9
      then 112 else 0 {
      DefaultCounts(lens, x);
    }
    NoShorterCodes(lens, 7);
    assert FirstCode(lens, 8) == 2 * (FirstCode(lens, 7) + 24);
    assert FirstCode(lens, 9) == 2 * (FirstCode(lens, 8) + 152);
  }

  /** The decoder's fixed codes are these, and its distance codes are their own numbers in five bits. */
  lemma FixedCodes(lens: seq<nat>, sym: nat)
    requires lens == DefaultLengths() && sym < 288
    ensures lens[sym] == FixedSize(sym) && Code(lens, sym) == FixedCode(sym)
  {
    FirstFixed(lens);
    var x := lens[sym];
    if sym < 144 {
      CountRun(lens, 0, sym, 8, x);
    } else if sym < 256 {
      CountRun(lens, 0, 144, 8, x);
      CountRun(lens, 144, sym, 9, x);
    } else if sym < 280 {
      CountRun(lens, 0, 144, 8, x);
      CountRun(lens, 144, 256, 9, x);
      CountRun(lens, 256, sym, 7, x);
    } else {
      CountRun(lens, 0, 144, 8, x);
      CountRun(lens, 144, 256, 9, x);
      CountRun(lens, 256, 280, 7, x);
      CountRun(lens, 280, sym, 8, x);
    }
  }

  lemma FixedDistances(lens: seq<nat>, d: nat)
    requires lens == DefaultDistances() && d < 32
    ensures lens[d] == 5 && Code(lens, d) == d
  {
    forall x: nat | 1 <= x < 5 ensures Count(lens, x) == 0 { CountRun(lens, 0, 32, 5, x); }
    NoShorterCodes(lens, 5);
    CountRun(lens, 0, d, 5, 5);
  }

  datatype Block = StoredBlock(data: seq<Byte>) | FixedBlock(tokens: seq<Token>)
    | DynamicBlock(h: Layout, tokens: seq<Token>)

  function Kind(b: Block): nat {
    match b
    case StoredBlock(_) => 0
    case FixedBlock(_) => 1
    case DynamicBlock(_, _) => 2
  }

  /** Section 3.2.4: the length, least significant byte first, its complement, and the data. */
  ghost predicate StoredStands(input: seq<Byte>, k: nat, data: seq<Byte>) {
    && k + 4 + |data| <= |input|
    && input[k] + 256 * input[k + 1] as int == |data|
    && input[k] as int + input[k + 2] == 255 && input[k + 1] as int + input[k + 3] == 255
    && input[k + 4..k + 4 + |data|] == data
  }

  ghost predicate BodyStands(input: seq<Byte>, bits: seq<bool>, p: nat, b: Block, end: nat) {
    match b
    case StoredBlock(data) => StoredStands(input, (p + 7) / 8, data) && end == 8 * ((p + 7) / 8 + 4 + |data|)
    case FixedBlock(tokens) => TokensStand(DefaultLengths(), DefaultDistances(), bits, p, tokens, end)
    case DynamicBlock(h, tokens) =>
      exists q: nat :: HeaderStands(bits, p, h, q) && TokensStand(h.ll, h.dl, bits, q, tokens, end)
  }

  /** What the output is with the block behind it. */
  ghost predicate Adds(out: seq<Byte>, b: Block, out': seq<Byte>) {
    if b.StoredBlock? then out' == out + b.data else Reachable(out, b.tokens) && out' == Unfolded(out, b.tokens)
  }

  lemma StoredRead(t: DeflateTables, order: Order, input: seq<Byte>, bits: seq<bool>, p: nat, out: seq<Byte>,
                   data: seq<Byte>)
    requires StoredStands(input, (p + 7) / 8, data)
    ensures RefBody(t, order, input, bits, 0, p, out) == Done(out + data, 8 * ((p + 7) / 8 + 4 + |data|))
  {
    var k := (p + 7) / 8;
    assert RefStoredAt(input, k, out) == Done(out + data, 8 * (k + 4 + |data|));
  }

  lemma {:induction false} FixedRead(t: DeflateTables, order: Order, input: seq<Byte>, bits: seq<bool>, p: nat,
                                     out: seq<Byte>, tokens: seq<Token>, end: nat)
    requires Tabled(t) && TokensStand(DefaultLengths(), DefaultDistances(), bits, p, tokens, end)
    requires Reachable(out, tokens)
    ensures RefBody(t, order, input, bits, 1, p, out) == Done(Unfolded(out, tokens), end)
  {
    DefaultLengthsFit();
    DefaultDistancesFit();
    TokensRead(t, DefaultLengths(), DefaultDistances(), bits, p, out, tokens, end);
  }

  lemma {:induction false} DynamicRead(t: DeflateTables, order: Order, input: seq<Byte>, bits: seq<bool>, p: nat,
                                       out: seq<Byte>, h: Layout, q: nat, tokens: seq<Token>, end: nat)
    requires Tabled(t) && Ordered(order) && HeaderStands(bits, p, h, q)
    requires TokensStand(h.ll, h.dl, bits, q, tokens, end) && Reachable(out, tokens)
    ensures RefBody(t, order, input, bits, 2, p, out) == Done(Unfolded(out, tokens), end)
  {
    HeaderRead(order, bits, p, h, q);
    TokensRead(t, h.ll, h.dl, bits, q, out, tokens, end);
  }

  lemma {:induction false} BodyRead(t: DeflateTables, order: Order, input: seq<Byte>, bits: seq<bool>, p: nat,
                                    out: seq<Byte>, b: Block, out': seq<Byte>, end: nat)
    requires Tabled(t) && Ordered(order) && BodyStands(input, bits, p, b, end) && Adds(out, b, out')
    ensures RefBody(t, order, input, bits, Kind(b), p, out) == Done(out', end)
  {
    match b
    case StoredBlock(data) =>
      StoredRead(t, order, input, bits, p, out, data);
    case FixedBlock(tokens) =>
      FixedRead(t, order, input, bits, p, out, tokens, end);
    case DynamicBlock(h, tokens) =>
      var q: nat :| HeaderStands(bits, p, h, q) && TokensStand(h.ll, h.dl, bits, q, tokens, end);
      DynamicRead(t, order, input, bits, p, out, h, q, tokens, end);
  }

  // ---------- the stream ----------

  ghost predicate BlockStands(input: seq<Byte>, bits: seq<bool>, p: nat, last: bool, b: Block, end: nat) {
    && Holds(bits, p, 1, if last then 1 else 0) && Holds(bits, p + 1, 2, Kind(b))
    && BodyStands(input, bits, p + 3, b, end) && p < end && end <= |bits|
  }

  /** The blocks one behind the other, the last one marked; they bring the output from `out` to `all`. */
  ghost predicate BlocksStand(input: seq<Byte>, bits: seq<bool>, p: nat, blocks: seq<Block>, out: seq<Byte>,
                              all: seq<Byte>, end: nat)
    decreases blocks
  {
    && blocks != []
    && if |blocks| == 1 then BlockStands(input, bits, p, true, blocks[0], end) && Adds(out, blocks[0], all)
       else
         exists q: nat, out': seq<Byte> {:trigger BlocksStand(input, bits, q, blocks[1..], out', all, end)} ::
           && BlockStands(input, bits, p, false, blocks[0], q) && Adds(out, blocks[0], out')
           && BlocksStand(input, bits, q, blocks[1..], out', all, end)
  }

  /** One block of the reference decoder. */
  lemma {:induction false} BlockTurn(t: DeflateTables, order: Order, input: seq<Byte>, bits: seq<bool>, p: nat,
                                     out: seq<Byte>, r: Outcome)
    requires p <= |bits| && r == RefBody(t, order, input, bits, Field(bits, p + 1, 2), p + 3, out)
    ensures !r.Done? ==> !RefBlocks(t, order, input, bits, p, out).Done?
    ensures r.Done? && p < r.next ==>
      RefBlocks(t, order, input, bits, p, out) ==
      if Field(bits, p, 1) == 1 then r else RefBlocks(t, order, input, bits, r.next, r.out)
  {
  }

  lemma {:induction false} BlockRead(t: DeflateTables, order: Order, input: seq<Byte>, bits: seq<bool>, p: nat,
                                     out: seq<Byte>, last: bool, b: Block, out': seq<Byte>, end: nat)
    requires Tabled(t) && Ordered(order) && BlockStands(input, bits, p, last, b, end) && Adds(out, b, out')
    ensures RefBlocks(t, order, input, bits, p, out) ==
      if last then Done(out', end) else RefBlocks(t, order, input, bits, end, out')
  {
    HoldsIsField(bits, p, 1, if last then 1 else 0);
    HoldsIsField(bits, p + 1, 2, Kind(b));
    BodyRead(t, order, input, bits, p + 3, out, b, out', end);
    BlockTurn(t, order, input, bits, p, out, Done(out', end));
  }

  /** The blocks are decoded to what they bring. */
  lemma {:induction false} BlocksRead(t: DeflateTables, order: Order, input: seq<Byte>, bits: seq<bool>, p: nat,
                                      blocks: seq<Block>, out: seq<Byte>, all: seq<Byte>, end: nat)
    requires Tabled(t) && Ordered(order) && BlocksStand(input, bits, p, blocks, out, all, end)
    ensures RefBlocks(t, order, input, bits, p, out) == Done(all, end)
    decreases blocks
  {
    if |blocks| == 1 {
      BlockRead(t, order, input, bits, p, out, true, blocks[0], all, end);
    } else {
      var q: nat, out': seq<Byte> :| BlockStands(input, bits, p, false, blocks[0], q) && Adds(out, blocks[0], out') &&
        BlocksStand(input, bits, q, blocks[1..], out', all, end);
      BlockRead(t, order, input, bits, p, out, false, blocks[0], out', q);
      BlocksRead(t, order, input, bits, q, blocks[1..], out', all, end);
    }
  }

  /** The sums of section 8.2 of RFC 1950 before they are reduced: one and all bytes, and all first sums. */
  function ByteSum(data: seq<Byte>): nat {
    if data == [] then 1 else ByteSum(data[..|data| - 1]) + data[|data| - 1]
  }

  function SumOfSums(data: seq<Byte>): nat {
    if data == [] then 0 else SumOfSums(data[..|data| - 1]) + ByteSum(data)
  }

  lemma AddReduced(x: nat, y: nat)
    ensures (x % 65521 + y) % 65521 == (x + y) % 65521
  {
  }

  lemma {:induction false} SumsReduced(data: seq<Byte>)
    ensures SumsOf(data) == Sums(ByteSum(data) % 65521, SumOfSums(data) % 65521)
    decreases data
  {
    if data != [] {
      var before, last := data[..|data| - 1], data[|data| - 1];
      SumsReduced(before);
      AddReduced(ByteSum(before), last);
      AddReduced(SumOfSums(before), ByteSum(data) % 65521);
      AddReduced(ByteSum(data), SumOfSums(before));
    }
  }

  /** The two bytes of section 2.2 of RFC 1950, with data behind them. */
  predicate HeaderBytes(input: seq<Byte>) {
    && |input| > 2 && input[0] % 16 == 8 && input[0] / 16 <= 7
    && (256 * input[0] as int + input[1]) % 31 == 0 && input[1] / 32 % 2 == 0
  }

  /** A whole stream: the two header bytes, the blocks, and the checksum at a byte boundary. */
  ghost predicate StreamStands(input: seq<Byte>, blocks: seq<Block>, all: seq<Byte>, end: nat) {
    && HeaderBytes(input)
    && BlocksStand(input, BitsOfBytes(input), 16, blocks, [], all, end)
    && (end + 7) / 8 + 4 <= |input|
    && BigEndian(input, (end + 7) / 8) == 65536 * (SumOfSums(all) % 65521) + ByteSum(all) % 65521
  }

  lemma HeaderByteBits(v: nat)
    ensures Low(v, 4) == v % 16 && Bit(v, 5) == v / 32 % 2
  {
    var a, b, c, d, e := v / 2, v / 4, v / 8, v / 16, v / 32;
    assert Low(c, 1) == c % 2 + 2 * Low(d, 0);
    assert Low(b, 2) == b % 2 + 2 * Low(c, 1);
    assert Low(a, 3) == a % 2 + 2 * Low(b, 2);
    assert Bit(c, 2) == Bit(d, 1) == Bit(e, 0);
    assert Bit(a, 4) == Bit(b, 3) == Bit(c, 2);
  }

  lemma HeaderBytesTaken(input: seq<Byte>)
    ensures HeaderBytes(input) <==> HeaderTaken(input) && !WideWindow(input)
  {
    if |input| > 2 {
      HeaderByteBits(input[0]);
      HeaderByteBits(input[1]);
    }
  }

  /** The blocks of a stream with such a header, and its checksum. */
  lemma {:induction false} StreamIs(input: seq<Byte>, t: DeflateTables, order: Order, bits: seq<bool>, r: Outcome)
    requires t == StandardTables() && order == StandardOrder() && bits == BitsOfBytes(input)
    requires r == RefBlocks(t, order, input, bits, 16, [])
    ensures RefZlib(input).Done? ==> r.Done? && RefZlib(input) == r
    ensures HeaderBytes(input) && r.Done? && (r.next + 7) / 8 + 4 <= |input| ==>
      RefZlib(input) == if BigEndian(input, (r.next + 7) / 8) == Adler32(r.out) then r else Bad
    ensures RefZlib(input).Done? ==>
      && HeaderBytes(input) && (r.next + 7) / 8 + 4 <= |input|
      && BigEndian(input, (r.next + 7) / 8) == Adler32(r.out)
  {
    HeaderBytesTaken(input);
  }

  /** Whatever is laid out like this is a valid stream of the data that its blocks bring. */
  lemma {:induction false} StreamRead(input: seq<Byte>, blocks: seq<Block>, all: seq<Byte>, end: nat)
    requires StreamStands(input, blocks, all, end)
    ensures RefZlib(input) == Done(all, end)
  {
    var t, order, bits := StandardTables(), StandardOrder(), BitsOfBytes(input);
    StandardTabled();
    StandardOrdered();
    SumsReduced(all);
    BlocksRead(t, order, input, bits, 16, blocks, [], all, end);
    StreamIs(input, t, order, bits, Done(all, end));
  }

  /** The decoder returns the data whenever there is room for it. */
  lemma {:induction false} LaidOutDecoded(input: seq<Byte>, blocks: seq<Block>, all: seq<Byte>, end: nat, limit: nat)
    requires StreamStands(input, blocks, all, end)
    ensures var c := CountedZlib(input, limit); if |all| <= limit then c.Accepted? && c.out == all else c == Refused
  {
    StreamRead(input, blocks, all, end);
    ValidDecoded(input, limit);
  }
}
