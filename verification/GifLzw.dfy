/**
  The LZW decoder of GIF images: a dictionary of prefix links walked by recursion, against a dictionary of strings,
  and that against the decoder of Appendix F of the GIF89a specification, whose table stops growing when it is full.
 */
module GifLzw {
  import opened Bits
  import opened BitStream
  import opened GifCanvas

  const TABLE_SIZE: nat := 8192
  const CODE_LIMIT: nat := 4096

  // ---------- the decoder of the source, on strings ----------

  /** The strings known so far, the code before this one if any, and the current code width. */
  datatype State = State(dict: seq<seq<int>>, prev: int, width: nat, started: bool)

  /** A code below the clear code stands for one colour index; clear and end-of-information have no string. */
  function Roots(clear: nat): seq<seq<int>> {
    seq(clear + 2, c requires 0 <= c => if c < clear then [c % 256] else [])
  }

  function Reset(cs: nat, started: bool): State {
    State(Roots(Shl(1, cs)), -1, cs + 1, started)
  }

  /** The table has filled the code width: codes get one bit longer, up to twelve bits. */
  function Widened(size: nat, width: nat): nat {
    if Low(size, width) == 0 && size <= 0xFFF then width + 1 else width
  }

  /**
    A string code. The first after a clear must be a root. Any other one adds the previous string
    extended by the first index of the new string; the code may be the one being added.
   */
  function Head(s: seq<int>): seq<int> {
    if s == [] then [] else [s[0]]
  }

  function Extended(dict: seq<seq<int>>, prev: nat, code: nat): seq<int>
    requires prev < |dict| && code <= |dict|
  {
    dict[prev] + Head(if code < |dict| then dict[code] else dict[prev])
  }

  function StringStep(st: State, code: nat): Verdict {
    if code > |st.dict| || !st.started then Wrong
    else if st.prev < 0 || st.prev >= |st.dict| then
      if code == |st.dict| then Wrong
      else Go(st.dict[code], st.(prev := code, width := Widened(|st.dict|, st.width)))
    else if |st.dict| + 1 > TABLE_SIZE then Wrong
    else
      var dict := st.dict + [Extended(st.dict, st.prev, code)];
      Go(dict[code], State(dict, code, Widened(|dict|, st.width), true))
  }

  datatype Verdict = End | Wrong | Go(s: seq<int>, next: State)

  /** What one code does: clear the table, end the image, or stand for a string. */
  function CodeStep(cs: nat, st: State, code: nat): Verdict {
    if code == Shl(1, cs) then Go([], Reset(cs, true))
    else if code == Shl(1, cs) + 1 then End
    else StringStep(st, code)
  }

  datatype Result = Image(s: seq<int>) | Corrupt

  /** Decode codes from bit position `p` on; the image ends with its end code or with its data. */
  function Decode(cs: nat, bits: seq<bool>, p: nat, st: State, s: seq<int>): Result
    decreases |bits| - p
  {
    if p + st.width > |bits| || st.width == 0 then Image(s)
    else
      match CodeStep(cs, st, Field(bits, p, st.width))
      case End => Image(s)
      case Wrong => Corrupt
      case Go(t, st') => Decode(cs, bits, p + st.width, st', s + t)
  }

  /** One code of `Decode`, by what it does. */
  lemma DecodeCode(cs: nat, bits: seq<bool>, p: nat, st: State, s: seq<int>, v: Verdict, q: nat, all: seq<int>)
    requires 0 < st.width && q == p + st.width <= |bits| && v == CodeStep(cs, st, Field(bits, p, st.width))
    requires v.Go? ==> all == s + v.s
    ensures Decode(cs, bits, p, st, s) ==
      if v.End? then Image(s) else if v.Wrong? then Corrupt else Decode(cs, bits, q, v.next, all)
  {
  }

  /** The width is the least one, from `cs + 1` up and twelve at most, that fits the code after the table's last. */
  ghost predicate WidthFits(cs: nat, st: State) {
    && cs + 1 <= st.width <= 12
    && (st.width < 12 ==> |st.dict| < Pow2(st.width))
    && (st.width > cs + 1 ==> |st.dict| >= Pow2(st.width - 1))
  }

  lemma WidenedFits(cs: nat, st: State, size: nat)
    requires 2 <= cs <= 11 && WidthFits(cs, st) && |st.dict| <= size <= |st.dict| + 1 && size > 0
    ensures var w := Widened(size, st.width);
      cs + 1 <= w <= 12 && (w < 12 ==> size < Pow2(w)) && (w > cs + 1 ==> size >= Pow2(w - 1))
  {
    Pow2Mono(st.width, 12);
    Pow2Values();
    if size < Pow2(st.width) {
      LowOfSmall(size, st.width);
    } else if size == Pow2(st.width) {
      Pow2IsShl(st.width);
      LowOfSum(0, 1, st.width);
      assert Pow2(st.width + 1) == 2 * Pow2(st.width);
    }
  }

  /** Every code keeps the width at the least one that fits, so an encoder's widths and the decoder's agree. */
  lemma WidthKept(cs: nat, st: State, code: nat)
    requires 2 <= cs <= 11 && WidthFits(cs, st) && CodeStep(cs, st, code).Go?
    requires |st.dict| >= 1
    ensures WidthFits(cs, CodeStep(cs, st, code).next) && |CodeStep(cs, st, code).next.dict| >= 1
  {
    if code == Shl(1, cs) {
      ResetFits(cs);
    } else if 0 <= st.prev < |st.dict| {
      WidenedFits(cs, st, |st.dict| + 1);
    } else {
      WidenedFits(cs, st, |st.dict|);
    }
  }

  lemma ResetFits(cs: nat)
    requires 2 <= cs <= 11
    ensures WidthFits(cs, Reset(cs, true)) && WidthFits(cs, Reset(cs, false))
  {
    Pow2IsShl(cs);
    Pow2Mono(2, cs);
    assert Pow2(cs + 1) == 2 * Pow2(cs);
    assert Pow2(2) == 4;
  }

  // ---------- the decoder of the specification ----------

  /** A string code of the specification: a table with all codes of twelve bits in use stays as it is. */
  function SpecString(st: State, code: nat): Verdict {
    if code > |st.dict| || !st.started then Wrong
    else if st.prev < 0 || st.prev >= |st.dict| || |st.dict| >= CODE_LIMIT then
      if code == |st.dict| then Wrong
      else Go(st.dict[code], st.(prev := code, width := Widened(|st.dict|, st.width)))
    else
      var dict := st.dict + [Extended(st.dict, st.prev, code)];
      Go(dict[code], State(dict, code, Widened(|dict|, st.width), true))
  }

  function SpecStep(cs: nat, st: State, code: nat): Verdict {
    if code == Shl(1, cs) then Go([], Reset(cs, true))
    else if code == Shl(1, cs) + 1 then End
    else SpecString(st, code)
  }

  function SpecDecode(cs: nat, bits: seq<bool>, p: nat, st: State, s: seq<int>): Result
    decreases |bits| - p
  {
    if p + st.width > |bits| || st.width == 0 then Image(s)
    else
      match SpecStep(cs, st, Field(bits, p, st.width))
      case End => Image(s)
      case Wrong => Corrupt
      case Go(t, st') => SpecDecode(cs, bits, p + st.width, st', s + t)
  }

  /** The string codes between two clear codes that the source's table has room for. */
  function Stretch(clear: nat): int {
    TABLE_SIZE - 1 - clear
  }

  /** The specification's decoder takes a string code that has `Stretch` others before it since the last clear. */
  predicate OverLong(cs: nat, bits: seq<bool>, p: nat, st: State, k: nat)
    decreases |bits| - p
  {
    && p + st.width <= |bits| && st.width > 0
    && var code := Field(bits, p, st.width);
       var v := SpecStep(cs, st, code);
       && v.Go?
       && if code == Shl(1, cs) then OverLong(cs, bits, p + st.width, v.next, 0)
          else k >= Stretch(Shl(1, cs)) || OverLong(cs, bits, p + st.width, v.next, k + 1)
  }

  /**
    The states of the two decoders after `k` string codes: the specification's table is the source's, cut at the limit.
   */
  ghost predicate Alike(cs: nat, clear: nat, c: State, s: State, k: nat) {
    && 2 <= cs <= 11 && clear == Shl(1, cs) && WidthFits(cs, c)
    && c.width == s.width && c.prev == s.prev && c.started == s.started
    && 1 <= |c.dict| <= TABLE_SIZE
    && (if |c.dict| <= CODE_LIMIT then s.dict == c.dict else s.dict == c.dict[..CODE_LIMIT])
    && (if k == 0 then c.prev < 0 && |c.dict| == clear + 2 else 0 <= c.prev < |s.dict| && |c.dict| == clear + 1 + k)
  }

  lemma ResetAlike(cs: nat, clear: nat, started: bool)
    requires 2 <= cs <= 11 && clear == Shl(1, cs)
    ensures Alike(cs, clear, Reset(cs, started), Reset(cs, started), 0)
  {
    ResetFits(cs);
    ClearBelow(cs);
  }

  /** A string code keeps the decoders alike, until the source's table is full. */
  lemma StringAlike(cs: nat, clear: nat, c: State, s: State, k: nat, code: nat)
    requires Alike(cs, clear, c, s, k) && code < CODE_LIMIT && code != clear && code != clear + 1
    ensures SpecString(s, code).Wrong? ==> StringStep(c, code).Wrong?
    ensures SpecString(s, code).Go? && k >= Stretch(clear) ==> StringStep(c, code).Wrong?
    ensures SpecString(s, code).Go? && k < Stretch(clear) ==>
      && StringStep(c, code).Go? && StringStep(c, code).s == SpecString(s, code).s
      && Alike(cs, clear, StringStep(c, code).next, SpecString(s, code).next, k + 1)
  {
    ClearBelow(cs);
    if SpecString(s, code).Go? && k < Stretch(clear) {
      StringGoes(cs, clear, c, s, k, code);
    }
  }

  lemma StringGoes(cs: nat, clear: nat, c: State, s: State, k: nat, code: nat)
    requires Alike(cs, clear, c, s, k) && code < CODE_LIMIT && code != clear && code != clear + 1
    requires SpecString(s, code).Go? && k < Stretch(clear)
    ensures StringStep(c, code).Go? && StringStep(c, code).s == SpecString(s, code).s
    ensures Alike(cs, clear, StringStep(c, code).next, SpecString(s, code).next, k + 1)
  {
    WidthKept(cs, c, code);
  }

  /** One code as both decoders take it: both end, both refuse, only the source refuses, or both go on alike. */
  lemma CodeAlike(cs: nat, clear: nat, c: State, s: State, k: nat, code: nat, v: Verdict, w: Verdict)
    returns (over: bool, k': nat)
    requires Alike(cs, clear, c, s, k) && code < CODE_LIMIT && v == SpecStep(cs, s, code) && w == CodeStep(cs, c, code)
    ensures over == (v.Go? && code != clear && k >= Stretch(clear)) && k' == if code == clear then 0 else k + 1
    ensures w == if over then Wrong else if v.Go? then Go(v.s, w.next) else v
    ensures v.Go? && !over ==> Alike(cs, clear, w.next, v.next, k')
  {
    over, k' := v.Go? && code != clear && k >= Stretch(clear), if code == clear then 0 else k + 1;
    if code == clear {
      ResetAlike(cs, clear, true);
    } else if code != clear + 1 {
      StringAlike(cs, clear, c, s, k, code);
    }
  }

  lemma OverLongCode(cs: nat, bits: seq<bool>, p: nat, st: State, k: nat, code: nat, v: Verdict, over: bool, k': nat,
                     q: nat)
    requires 0 < st.width && q == p + st.width <= |bits| && code == Field(bits, p, st.width) &&
      v == SpecStep(cs, st, code)
    requires over == (v.Go? && code != Shl(1, cs) && k >= Stretch(Shl(1, cs)))
    requires k' == if code == Shl(1, cs) then 0 else k + 1
    ensures OverLong(cs, bits, p, st, k) == (over || (v.Go? && OverLong(cs, bits, q, v.next, k')))
  {
  }

  lemma SpecCode(cs: nat, bits: seq<bool>, p: nat, st: State, s: seq<int>, v: Verdict, q: nat, all: seq<int>)
    requires 0 < st.width && q == p + st.width <= |bits| && v == SpecStep(cs, st, Field(bits, p, st.width))
    requires v.Go? ==> all == s + v.s
    ensures SpecDecode(cs, bits, p, st, s) ==
      if v.End? then Image(s) else if v.Wrong? then Corrupt else SpecDecode(cs, bits, q, v.next, all)
  {
  }

  lemma WidthCode(bits: seq<bool>, p: nat, width: nat) returns (code: nat, q: nat)
    requires p + width <= |bits| && width <= 12
    ensures code == Field(bits, p, width) < CODE_LIMIT && q == p + width
  {
    code, q := Field(bits, p, width), p + width;
    FieldBelow(bits, p, width);
    Pow2Mono(width, 12);
    Pow2Values();
  }

  /** For a code size of 2 to 11 bits, the source's decoder is the specification's, but for the stretches it refuses. */
  lemma {:induction false} CapOnly(cs: nat, clear: nat, bits: seq<bool>, p: nat, c: State, s: State, k: nat,
                                   drawn: seq<int>)
    requires Alike(cs, clear, c, s, k)
    ensures Decode(cs, bits, p, c, drawn) ==
      if OverLong(cs, bits, p, s, k) then Corrupt else SpecDecode(cs, bits, p, s, drawn)
    decreases |bits| - p
  {
    if p + s.width <= |bits| {
      var code, q := WidthCode(bits, p, s.width);
      var v, w := SpecStep(cs, s, code), CodeStep(cs, c, code);
      var over, k' := CodeAlike(cs, clear, c, s, k, code, v, w);
      var all := if v.Go? then drawn + v.s else drawn;
      OverLongCode(cs, bits, p, s, k, code, v, over, k', q);
      SpecCode(cs, bits, p, s, drawn, v, q, all);
      DecodeCode(cs, bits, p, c, drawn, w, q, all);
      if v.Go? && !over { CapOnly(cs, clear, bits, q, w.next, v.next, k', all); }
    }
  }

  // ---------- the prefix-linked table ----------

  /** The string of a code: the string of its prefix, then its own index. */
  function Str(prefix: seq<int>, suffix: seq<Byte>, c: nat): seq<Byte>
    requires c < |prefix| == |suffix|
  {
    if 0 <= prefix[c] < c then Str(prefix, suffix, prefix[c]) + [suffix[c]] else [suffix[c]]
  }

  /** Entries the decoder may reach: the roots, and those added after the two special codes. */
  predicate Live(clear: nat, c: int) {
    c >= 0 && c != clear && c != clear + 1
  }

  /** Every live entry below `avail` has a smaller live prefix, or is a root. */
  ghost predicate Linked(prefix: seq<int>, clear: nat, avail: nat) {
    && avail <= |prefix|
    && forall c: nat {:trigger prefix[c]} :: c < avail && Live(clear, c) ==>
      if c < clear then prefix[c] == -1 else 0 <= prefix[c] < c && Live(clear, prefix[c])
  }

  /** The table holds the strings of the dictionary, each with its first index. */
  ghost predicate TableHolds(prefix: seq<int>, first: seq<Byte>, suffix: seq<Byte>, clear: nat, dict: seq<seq<int>>) {
    && |dict| <= |prefix| == |first| == |suffix|
    && Linked(prefix, clear, |dict|)
    && forall c: nat {:trigger dict[c]} :: c < |dict| && Live(clear, c) ==>
      dict[c] != [] && dict[c] == Str(prefix, suffix, c) && first[c] == dict[c][0]
  }

  lemma {:induction false} StrUnchanged(prefix: seq<int>, suffix: seq<Byte>, prefix': seq<int>, suffix': seq<Byte>,
                                        c: nat)
    requires c < |prefix| == |suffix| == |prefix'| == |suffix'|
    requires forall i: nat :: i <= c ==> prefix[i] == prefix'[i] && suffix[i] == suffix'[i]
    ensures Str(prefix, suffix, c) == Str(prefix', suffix', c)
  {
    if 0 <= prefix[c] < c { StrUnchanged(prefix, suffix, prefix', suffix', prefix[c]); }
  }

  /** Adding an entry at the end of the table adds its string to the dictionary. */
  lemma HoldsExtended(prefix: seq<int>, first: seq<Byte>, suffix: seq<Byte>, clear: nat, dict: seq<seq<int>>,
                      prefix': seq<int>, first': seq<Byte>, suffix': seq<Byte>, last: nat, code: nat)
    requires TableHolds(prefix, first, suffix, clear, dict)
    requires |dict| < |prefix| && clear + 2 <= |dict| && last < |dict| && Live(clear, last) && code <= |dict|
    requires Live(clear, code)
    requires prefix' == prefix[|dict| := last] && first' == first[|dict| := first[last]]
    requires suffix' == suffix[|dict| := first'[code]]
    ensures TableHolds(prefix', first', suffix', clear, dict + [Extended(dict, last, code)])
  {
    var n := |dict|;
    var dict' := dict + [Extended(dict, last, code)];
    forall c: nat | c < n + 1 && Live(clear, c)
      ensures dict'[c] != [] && dict'[c] == Str(prefix', suffix', c) && first'[c] == dict'[c][0]
    {
      if c < n {
        StrUnchanged(prefix, suffix, prefix', suffix', c);
        assert dict'[c] == dict[c];
      } else {
        StrUnchanged(prefix, suffix, prefix', suffix', last);
        assert Str(prefix', suffix', n) == dict[last] + [suffix'[n]];
        assert code < n ==> first[code] == dict[code][0];
      }
    }
  }

  // ---------- data sub-blocks ----------

  function ByteAt(input: seq<Byte>, pos: nat): Byte {
    if pos < |input| then input[pos] else 0
  }

  function Beyond(input: seq<Byte>, pos: nat): nat {
    if pos < |input| then pos + 1 else pos
  }

  /** The data from `pos` on, with `len` bytes left in the current sub-block; a block of length zero ends it. */
  function SubBlockData(input: seq<Byte>, pos: nat, len: nat): seq<Byte>
    decreases if pos < |input| then |input| - pos else 0, len
  {
    if len > 0 then [ByteAt(input, pos)] + SubBlockData(input, Beyond(input, pos), len - 1)
    else if ByteAt(input, pos) == 0 then []
    else SubBlockData(input, pos + 1, input[pos])
  }

  /** The code reader: sub-blocks unpacked into a bit buffer. */
  class CodeReader {
    const input: seq<Byte>
    ghost const data: seq<Byte>
    ghost const stream: seq<bool>
    var pos: nat
    var len: nat
    var bits: nat
    var validBits: nat
    ghost var bitPos: nat
    ghost var fetched: nat

    ghost predicate Valid()
      reads this
    {
      && fetched <= |data| && data[fetched..] == SubBlockData(input, pos, len)
      && BitsOf(stream, data) && |stream| == 8 * |data|
      && bitPos + validBits == 8 * fetched
      && BitStream.Holds(stream, bitPos, validBits, bits)
    }

    constructor (bytes: seq<Byte>, start: nat)
      ensures Valid() && bitPos == 0 && input == bytes && stream == BitsOfBytes(SubBlockData(bytes, start, 0))
    {
      input := bytes;
      data := SubBlockData(bytes, start, 0);
      stream := BitsOfBytes(SubBlockData(bytes, start, 0));
      BitsOfBytesCorrect(SubBlockData(bytes, start, 0));
      pos := start;
      len := 0;
      bits := 0;
      validBits := 0;
      bitPos := 0;
      fetched := 0;
    }

    method Get8() returns (b: Byte)
      modifies this`pos
      ensures b == ByteAt(input, old(pos)) && pos == Beyond(input, old(pos))
    {
      b := ByteAt(input, pos);
      pos := Beyond(input, pos);
    }

    /** Append the next data byte to the bit buffer, entering the next sub-block if need be. */
    method Fetch() returns (more: bool)
      requires Valid()
      modifies this`pos, this`len, this`bits, this`validBits, this`fetched
      ensures more ==> Valid() && validBits == old(validBits) + 8 && fetched == old(fetched) + 1
      ensures !more ==> old(fetched) == |data|
    {
      if len == 0 {
        assert data[fetched..] == if ByteAt(input, pos) == 0 then [] else SubBlockData(input, pos + 1, input[pos]);
        len := Get8();
        if len == 0 { return false; }
      }
      assert data[fetched..] == [ByteAt(input, pos)] + SubBlockData(input, Beyond(input, pos), len - 1);
      assert data[fetched] == ByteAt(input, pos) && data[fetched + 1..] == data[fetched..][1..];
      HoldsByte(stream, data, fetched);
      HoldsAppend(stream, bitPos, validBits, 8, bits, data[fetched]);
      len := len - 1;
      var b := Get8();
      bits := Or(bits, Shl(b, validBits));
      validBits := validBits + 8;
      fetched := fetched + 1;
      more := true;
    }

    /** The next code of the given width, or -1 when the data is used up. */
    method NextCode(width: nat) returns (code: int)
      requires Valid() && width > 0
      modifies this
      ensures code >= 0 ==> Valid()
      ensures if old(bitPos) + width > |stream| then code == -1
        else code == Field(stream, old(bitPos), width) && bitPos == old(bitPos) + width
    {
      while validBits < width
        invariant Valid() && bitPos == old(bitPos)
        decreases |data| - fetched
      {
        var more := Fetch();
        if !more { return -1; }
      }
      Pow2IsShl(width);
      AndMask(bits, width);
      HoldsSplit(stream, bitPos, width, validBits, bits);
      HoldsIsField(stream, bitPos, width, Low(bits, width));
      code := And(bits, Shl(1, width) - 1);
      bits := Shr(bits, width);
      validBits := validBits - width;
      bitPos := bitPos + width;
    }
  }

  // ---------- the decoder ----------

  class Raster {
    const prefix: array<int>
    const first: array<Byte>
    const suffix: array<Byte>
    const canvas: Canvas

    ghost predicate Shape() {
      prefix.Length == first.Length == suffix.Length == TABLE_SIZE && first != suffix
    }

    ghost predicate Table(clear: nat, dict: seq<seq<int>>)
      reads prefix, first, suffix
    {
      Shape() && TableHolds(prefix[..], first[..], suffix[..], clear, dict)
    }

    constructor (c: Canvas)
      ensures Shape() && canvas == c && fresh(prefix) && fresh(first) && fresh(suffix)
    {
      prefix := new int[TABLE_SIZE];
      first := new Byte[TABLE_SIZE];
      suffix := new Byte[TABLE_SIZE];
      canvas := c;
    }

    /** Draw the string of a code: its prefix first, by recursion. */
    method OutGifCode(clear: nat, ghost avail: nat, code: nat)
      requires Shape() && canvas.Valid() && Linked(prefix[..], clear, avail) && code < avail && Live(clear, code)
      modifies canvas, canvas.out
      ensures canvas.Valid() && canvas.plotted == old(canvas.plotted) + Str(prefix[..], suffix[..], code)
      decreases code
    {
      assert prefix[..][code] == prefix[code];
      if prefix[code] >= 0 {
        OutGifCode(clear, avail, prefix[code]);
      }
      canvas.Plot(suffix[code]);
    }

    /** Fill in the root entries. */
    method InitRoots(clear: nat)
      requires Shape() && clear + 2 <= TABLE_SIZE
      modifies prefix, first, suffix
      ensures Table(clear, Roots(clear))
    {
      var code := 0;
      while code < clear
        invariant code <= clear
        invariant forall c: nat :: c < code ==> prefix[c] == -1 && first[c] == c % 256 && suffix[c] == c % 256
      {
        prefix[code] := -1;
        first[code] := code % 256;
        suffix[code] := code % 256;
        code := code + 1;
      }
    }

    /** Add the entry for the string of the previous code, extended by the first index of the new one. */
    method AddEntry(clear: nat, ghost dict: seq<seq<int>>, avail: nat, oldcode: nat, code: nat)
      requires Table(clear, dict) && avail == |dict| < TABLE_SIZE && clear + 2 <= avail
      requires oldcode < avail && Live(clear, oldcode) && code <= avail && Live(clear, code)
      modifies prefix, first, suffix
      ensures Table(clear, dict + [Extended(dict, oldcode, code)])
    {
      ghost var p0, f0, s0 := prefix[..], first[..], suffix[..];
      prefix[avail] := oldcode;
      var f := first[oldcode];
      first[avail] := f;
      // `avail` has already moved on when the source compares, so its test for a code equal to it never holds;
      // the first index just stored serves a code equal to the new entry.
      suffix[avail] := if code == avail + 1 then f else first[code];
      HoldsExtended(p0, f0, s0, clear, dict, prefix[..], first[..], suffix[..], oldcode, code);
    }

    /** The table and the decoder's variables describe a state of the specification's decoder. */
    ghost predicate Tracks(clear: nat, st: State, avail: nat, oldcode: int, codesize: nat, started: bool)
      reads prefix, first, suffix
    {
      && Table(clear, st.dict) && Roots(clear) <= st.dict && |st.dict| <= TABLE_SIZE
      && avail == |st.dict| && oldcode == st.prev && codesize == st.width > 0 && started == st.started
      && (st.prev < 0 || (st.prev < |st.dict| && Live(clear, st.prev)))
    }

    /** One string code: extend the table, draw the string. */
    method StringCode(clear: nat, ghost st: State, avail: nat, oldcode: int, codesize: nat, code: nat)
      returns (ok: bool, newAvail: nat, newSize: nat)
      requires Tracks(clear, st, avail, oldcode, codesize, true) && canvas.Valid()
      requires code <= avail && Live(clear, code)
      modifies prefix, first, suffix
      modifies canvas, canvas.out
      ensures canvas.Valid()
      ensures var r := StringStep(st, code);
        if !ok then r.Wrong?
        else
          && r.Go? && canvas.plotted == old(canvas.plotted) + r.s
          && Tracks(clear, r.next, newAvail, code, newSize, true)
    {
      ghost var dict;
      newSize := codesize;
      ok, newAvail, dict := Extend(clear, st, avail, oldcode, codesize, code);
      if ok {
        assert Str(prefix[..], suffix[..], code) == dict[code];
        OutGifCode(clear, newAvail, code);
        newSize := NextSize(newAvail, codesize);
      }
    }

    /** The table after a string code: one entry more, unless the code is the first after a clear. */
    method Extend(clear: nat, ghost st: State, avail: nat, oldcode: int, ghost codesize: nat, code: nat)
      returns (ok: bool, newAvail: nat, ghost dict: seq<seq<int>>)
      requires Tracks(clear, st, avail, oldcode, codesize, true) && code <= avail && Live(clear, code)
      modifies prefix, first, suffix
      ensures !ok ==> StringStep(st, code).Wrong?
      ensures ok ==> Table(clear, dict) && Roots(clear) <= dict && code < |dict| == newAvail <= TABLE_SIZE
      ensures ok ==> StringStep(st, code) == Go(dict[code], State(dict, code, Widened(|dict|, st.width), true))
    {
      newAvail, dict := avail, st.dict;
      if oldcode >= 0 {
        newAvail := avail + 1;
        if newAvail > TABLE_SIZE { return false, newAvail, dict; }
        AddEntry(clear, st.dict, avail, oldcode, code);
        dict := st.dict + [Extended(st.dict, oldcode, code)];
      } else if code == avail {
        return false, newAvail, dict;
      }
      ok := true;
    }

    /** The code size after the table has grown to `avail` entries. */
    method NextSize(avail: nat, codesize: nat) returns (size: nat)
      ensures size == Widened(avail, codesize)
    {
      size := codesize;
      Pow2IsShl(codesize);
      AndMask(avail, codesize);
      if And(avail, Shl(1, codesize) - 1) == 0 && avail <= 0x0FFF {
        size := size + 1;
      }
    }

    /** The roots stay in the table through every extension. */
    lemma RootsStay(clear: nat, dict: seq<seq<int>>)
      requires Table(clear, dict) && Roots(clear) <= dict
      ensures Table(clear, Roots(clear))
    {
      forall c: nat | c < clear + 2 && Live(clear, c) ensures Roots(clear)[c] == dict[c] {}
    }

    /**
      `stbi__process_gif_raster`: the colour indices of the image data at `start` are drawn, or the data is corrupt.
     */
    method ProcessRaster(input: seq<Byte>, start: nat) returns (ok: bool)
      requires Shape() && canvas.Valid()
      modifies prefix, first, suffix
      modifies canvas, canvas.out
      ensures canvas.Valid()
      ensures match DecodeImage(input, start)
        case Corrupt => !ok
        case Image(s) => ok && canvas.plotted == old(canvas.plotted) + s
      ensures 2 <= ByteAt(input, start) <= 11 ==>
        (ok <==> SpecImage(input, start).Image? && !OverLongImage(input, start))
      ensures 2 <= ByteAt(input, start) <= 11 && ok ==>
        canvas.plotted == old(canvas.plotted) + SpecImage(input, start).s
    {
      if 2 <= ByteAt(input, start) <= 11 { ImageCapOnly(input, start); }
      var cs: nat := ByteAt(input, start);
      if cs > 12 { return false; }
      var reader := new CodeReader(input, Beyond(input, start));
      var clear := Shl(1, cs);
      ClearBelow(cs);
      InitRoots(clear);
      ghost var s;
      ok, s := RunCodes(reader, cs, clear);
    }

    /** The loop over codes, from a freshly initialized table. */
    method RunCodes(reader: CodeReader, cs: nat, clear: nat) returns (ok: bool, ghost s: seq<int>)
      requires reader.Valid() && canvas.Valid() && Table(clear, Roots(clear)) && clear == Shl(1, cs)
      requires clear + 2 <= TABLE_SIZE
      modifies reader, prefix, first, suffix
      modifies canvas, canvas.out
      ensures canvas.Valid()
      ensures Decode(cs, reader.stream, old(reader.bitPos), Reset(cs, false), []) == if ok then Image(s) else Corrupt
      ensures ok ==> canvas.plotted == old(canvas.plotted) + s
    {
      ghost var st := Reset(cs, false);
      s := [];
      ghost var stream, plotted0 := reader.stream, canvas.plotted;
      ghost var target := Decode(cs, stream, reader.bitPos, st, s);
      var avail: nat, oldcode: int, codesize: nat, started := clear + 2, -1, cs + 1, false;
      var more := true;
      ok := true;
      while more
        invariant canvas.Valid() && (ok ==> canvas.plotted == plotted0 + s)
        invariant more ==> ok && reader.Valid() && Tracks(clear, st, avail, oldcode, codesize, started)
        invariant target == if more then Decode(cs, stream, reader.bitPos, st, s) else if ok then Image(s) else Corrupt
        decreases more, |stream| - reader.bitPos
      {
        ghost var t;
        more, ok, avail, oldcode, codesize, started, t, st :=
          Turn(reader, cs, clear, st, s, avail, oldcode, codesize, started);
        s := s + t;
      }
    }

    /** One turn of the loop: the next code and what it does. */
    method Turn(reader: CodeReader, cs: nat, clear: nat, ghost st: State, ghost s: seq<int>, avail: nat, oldcode: int,
                codesize: nat, started: bool)
      returns (more: bool, ok: bool, newAvail: nat, newCode: int, newSize: nat, newStarted: bool, ghost t: seq<int>,
        ghost st': State)
      requires reader.Valid() && canvas.Valid() && Tracks(clear, st, avail, oldcode, codesize, started)
      requires clear == Shl(1, cs)
      modifies reader, prefix, first, suffix
      modifies canvas, canvas.out
      ensures canvas.Valid() && (ok ==> canvas.plotted == old(canvas.plotted) + t)
      ensures more ==> ok && reader.Valid() && old(reader.bitPos) < reader.bitPos <= |reader.stream|
      ensures more ==> Tracks(clear, st', newAvail, newCode, newSize, newStarted)
      ensures var r := Decode(cs, reader.stream, old(reader.bitPos), st, s);
        if more then Decode(cs, reader.stream, reader.bitPos, st', s + t) == r
        else r == if ok then Image(s + t) else Corrupt
    {
      newAvail, newCode, newSize, newStarted, t, st' := avail, oldcode, codesize, started, [], st;
      more, ok := false, true;
      assert s + t == s;
      ghost var p := reader.bitPos;
      var code := reader.NextCode(codesize);
      if code < 0 { return; }
      if code == clear + 1 {
        DecodeCode(cs, reader.stream, p, st, s, End, reader.bitPos, s);
        return;
      }
      ok, newAvail, newSize, newStarted, t, st' := ProcessCode(cs, clear, st, avail, oldcode, codesize, started, code);
      DecodeCode(cs, reader.stream, p, st, s, if ok then Go(t, st') else Wrong, reader.bitPos, s + t);
      newCode := if code == clear then -1 else code;
      more := ok;
    }

    /** A code other than the end code. */
    method ProcessCode(cs: nat, clear: nat, ghost st: State, avail: nat, oldcode: int, codesize: nat, started: bool,
                       code: nat)
      returns (ok: bool, newAvail: nat, newSize: nat, newStarted: bool, ghost t: seq<int>, ghost st': State)
      requires Tracks(clear, st, avail, oldcode, codesize, started) && canvas.Valid()
      requires clear == Shl(1, cs) && code != clear + 1
      modifies prefix, first, suffix
      modifies canvas, canvas.out
      ensures canvas.Valid()
      ensures CodeStep(cs, st, code) == if ok then Go(t, st') else Wrong
      ensures ok ==> canvas.plotted == old(canvas.plotted) + t
      ensures ok ==> Tracks(clear, st', newAvail, if code == clear then -1 else code, newSize, newStarted)
    {
      newAvail, newSize, newStarted, t, st' := avail, codesize, started, [], st;
      if code == clear {
        RootsStay(clear, st.dict);
        newAvail, newSize, newStarted, st' := clear + 2, cs + 1, true, Reset(cs, true);
        return true, newAvail, newSize, newStarted, t, st';
      }
      ok := code <= avail && started;
      if !ok { return; }
      ok, newAvail, newSize := StringCode(clear, st, avail, oldcode, codesize, code);
      if ok { t, st' := StringStep(st, code).s, StringStep(st, code).next; }
    }
  }

  /** The image data at `start`: the minimum code size, then the data sub-blocks. */
  function DecodeImage(input: seq<Byte>, start: nat): Result {
    var cs: nat := ByteAt(input, start);
    if cs > 12 then Corrupt
    else Decode(cs, BitsOfBytes(SubBlockData(input, Beyond(input, start), 0)), 0, Reset(cs, false), [])
  }

  /** What the specification makes of the image data at `start`. */
  function SpecImage(input: seq<Byte>, start: nat): Result {
    var cs: nat := ByteAt(input, start);
    SpecDecode(cs, BitsOfBytes(SubBlockData(input, Beyond(input, start), 0)), 0, Reset(cs, false), [])
  }

  /** The image data at `start` puts off a clear code for longer than the source's table lasts. */
  predicate OverLongImage(input: seq<Byte>, start: nat) {
    var cs: nat := ByteAt(input, start);
    OverLong(cs, BitsOfBytes(SubBlockData(input, Beyond(input, start), 0)), 0, Reset(cs, false), 0)
  }

  /**
    The source decodes an image as the specification does, or refuses it, exactly when a clear code is put off too long.
   */
  lemma ImageCapOnly(input: seq<Byte>, start: nat)
    requires 2 <= ByteAt(input, start) <= 11
    ensures DecodeImage(input, start) == if OverLongImage(input, start) then Corrupt else SpecImage(input, start)
  {
    var cs: nat := ByteAt(input, start);
    ResetAlike(cs, Shl(1, cs), false);
    var bits := BitsOfBytes(SubBlockData(input, Beyond(input, start), 0));
    CapOnly(cs, Shl(1, cs), bits, 0, Reset(cs, false), Reset(cs, false), 0, []);
  }

  lemma ClearBelow(cs: nat)
    requires cs <= 12
    ensures Shl(1, cs) + 2 <= TABLE_SIZE
  {
    Pow2IsShl(cs);
    Pow2Mono(cs, 12);
    Pow2Values();
  }
}
