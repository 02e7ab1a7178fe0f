/**
  What any LZW encoder of Appendix F of the GIF89a specification writes, the decoder of the specification reads back.
  The encoder may match any known string, use the string it has just added, and clear at any time or never. The source's
  decoder reads it back exactly when the encoder does not put off a clear code for too long.
 */
module GifRoundTrip {
  import opened Bits
  import opened BitStream
  import opened GifLzw

  /** The codes an encoder writes; the end code stands behind the last one. */
  datatype Codes = Stop | Code(code: nat, later: Codes)

  /** `w` stands in `s` at index `i`. */
  predicate Matches(w: seq<int>, s: seq<int>, i: nat) {
    i + |w| <= |s| && forall j: nat {:trigger w[j]} :: j < |w| ==> s[i + j] == w[j]
  }

  /**
    The strings of an encoder after it has written a code for `w`, when `i` is the next index to encode. A full table
    stays as it is.
   */
  function Added(dict: seq<seq<int>>, w: seq<int>, s: seq<int>, i: nat): seq<seq<int>> {
    if i >= |s| || |dict| >= CODE_LIMIT then dict else dict + [w + [s[i]]]
  }

  /** `codes` are an encoding of `s` from index `i` on by an encoder that knows `dict`. */
  ghost predicate Encodes(clear: nat, roots: seq<seq<int>>, dict: seq<seq<int>>, s: seq<int>, i: nat, codes: Codes)
    decreases codes
  {
    match codes
    case Stop => i == |s|
    case Code(code, later) =>
      if code == clear then Encodes(clear, roots, roots, s, i, later)
      else
        && code != clear + 1
        && code < |dict|
        && dict[code] != [] && Matches(dict[code], s, i)
        && Encodes(clear, roots, Added(dict, dict[code], s, i + |dict[code]|), s, i + |dict[code]|, later)
  }

  /** The bits from `p` on hold these codes and the end code, in widths counted from the encoder's `size` strings. */
  ghost predicate Emitted(clear: nat, cs: nat, bits: seq<bool>, p: nat, size: nat, width: nat, codes: Codes)
    decreases codes
  {
    p + width <= |bits| &&
    match codes
    case Stop => Field(bits, p, width) == clear + 1
    case Code(code, later) =>
      && Field(bits, p, width) == code
      && if code == clear then Emitted(clear, cs, bits, p + width, clear + 2, cs + 1, later)
         else Emitted(clear, cs, bits, p + width, size + 1, Widened(size, width), later)
  }

  /**
    The encoder is one string ahead of the decoder: it has already added the string that the decoder will only add when
    the next code tells it its last index.
   */
  ghost predicate Ahead(dict: seq<seq<int>>, st: State, s: seq<int>, i: nat) {
    && st.started
    && |st.dict| <= CODE_LIMIT
    && if st.prev < 0 then dict == st.dict
       else
         && st.prev < |st.dict| && st.dict[st.prev] != []
         && (i < |s| ==> dict == Added(st.dict, st.dict[st.prev], s, i))
  }

  /** One code: the decoder draws the string the encoder meant, even when it is the one just added. */
  lemma OneCode(dict: seq<seq<int>>, st: State, s: seq<int>, i: nat, code: nat, w: seq<int>, dict': seq<seq<int>>,
                end: nat)
    requires Ahead(dict, st, s, i) && code < |dict| && w == dict[code] != [] && Matches(w, s, i)
    requires end == i + |w| && dict' == Added(dict, w, s, end)
    ensures SpecString(st, code).Go? && SpecString(st, code).s == w
    ensures Ahead(dict', SpecString(st, code).next, s, end)
  {
    assert w[0] == s[i + 0];
    if st.prev >= 0 && |st.dict| < CODE_LIMIT {
      assert st.dict + [Extended(st.dict, st.prev, code)] == dict by {
        if code < |st.dict| {
          assert st.dict[code] == w;
          assert Head(w) == [s[i]];
        } else {
          assert w == st.dict[st.prev] + [s[i]];
          assert w[0] == st.dict[st.prev][0];
        }
      }
    }
  }

  /**
    The encoder and the decoder before the next code: `size` counts the encoder's strings while there is more to encode.
   */
  ghost predicate InStep(cs: nat, st: State, dict: seq<seq<int>>, s: seq<int>, i: nat, size: nat) {
    && 2 <= cs <= 8 && WidthFits(cs, st) && |st.dict| >= 1 && i <= |s|
    && Ahead(dict, st, s, i) && (i < |s| ==> size == |dict| || (size > |dict| == CODE_LIMIT))
  }

  lemma Extends(w: seq<int>, s: seq<int>, i: nat)
    requires Matches(w, s, i)
    ensures s[..i] + w == s[..i + |w|]
  {
    forall k | i <= k < i + |w| ensures (s[..i] + w)[k] == s[k] { assert w[k - i] == s[i + (k - i)]; }
  }

  /** The encoder's next code, as the decoder takes it. */
  lemma CodeDecodes(cs: nat, bits: seq<bool>, p: nat, st: State, code: nat, w: seq<int>, next: State, s: seq<int>,
                    i: nat, end: nat, q: nat)
    requires 0 < st.width && q == p + st.width <= |bits| && Field(bits, p, st.width) == code
    requires SpecStep(cs, st, code) == Go(w, next) && Matches(w, s, i) && end == i + |w|
    ensures SpecDecode(cs, bits, p, st, s[..i]) == SpecDecode(cs, bits, q, next, s[..end])
  {
    Extends(w, s, i);
    SpecCode(cs, bits, p, st, s[..i], Go(w, next), q, s[..end]);
  }

  /** The roots and the clear code of an image of `cs`-bit colour indices. */
  ghost predicate Setup(cs: nat, clear: nat, roots: seq<seq<int>>) {
    2 <= cs <= 8 && clear == Shl(1, cs) && roots == Roots(clear)
  }

  lemma SpecWidthKept(cs: nat, st: State, code: nat)
    requires 2 <= cs <= 11 && WidthFits(cs, st) && SpecString(st, code).Go? && |st.dict| >= 1
    ensures WidthFits(cs, SpecString(st, code).next) && |SpecString(st, code).next.dict| >= 1
  {
    WidenedFits(cs, st, |SpecString(st, code).next.dict|);
  }

  /** A string code: the width the encoder counts next is the one the decoder reaches. */
  lemma StringTurn(cs: nat, clear: nat, st: State, dict: seq<seq<int>>, s: seq<int>, i: nat, size: nat, code: nat,
                   w: seq<int>, dict': seq<seq<int>>, end: nat, size': nat)
    returns (next: State)
    requires clear == Shl(1, cs) && InStep(cs, st, dict, s, i, size) && code != clear && code != clear + 1
    requires code < |dict| && w == dict[code] != [] && Matches(w, s, i)
    requires end == i + |w| && dict' == Added(dict, w, s, end) && size' == size + 1
    ensures SpecStep(cs, st, code) == Go(w, next)
    ensures next.width == Widened(size, st.width)
    ensures InStep(cs, next, dict', s, end, size')
  {
    OneCode(dict, st, s, i, code, w, dict', end);
    SpecWidthKept(cs, st, code);
    next := SpecString(st, code).next;
  }

  /** What an encoding says of its next code, when that is a string code, and of the rest. */
  lemma EncodesCode(clear: nat, roots: seq<seq<int>>, dict: seq<seq<int>>, s: seq<int>, i: nat, codes: Codes)
    returns (w: seq<int>, dict': seq<seq<int>>, end: nat)
    requires Encodes(clear, roots, dict, s, i, codes) && codes.Code? && codes.code != clear
    ensures codes.code != clear + 1 && codes.code < |dict| && w == dict[codes.code] != []
    ensures Matches(w, s, i)
    ensures end == i + |w| && dict' == Added(dict, w, s, end) && Encodes(clear, roots, dict', s, end, codes.later)
  {
    w := dict[codes.code];
    end := i + |w|;
    dict' := Added(dict, w, s, end);
  }

  lemma EmittedCode(clear: nat, cs: nat, bits: seq<bool>, p: nat, size: nat, width: nat, codes: Codes)
    returns (width': nat, q: nat, size': nat)
    requires Emitted(clear, cs, bits, p, size, width, codes) && codes.Code? && codes.code != clear
    ensures q == p + width <= |bits| && Field(bits, p, width) == codes.code && size' == size + 1
    ensures width' == Widened(size, width) && Emitted(clear, cs, bits, q, size', width', codes.later)
  {
    width', q, size' := Widened(size, width), p + width, size + 1;
  }

  /** One string code as the encoder wrote it and as the decoder takes it. */
  lemma StringHead(cs: nat, clear: nat, roots: seq<seq<int>>, bits: seq<bool>, p: nat, st: State, dict: seq<seq<int>>,
                   s: seq<int>, i: nat, size: nat, codes: Codes)
    returns (w: seq<int>, next: State, dict': seq<seq<int>>, end: nat, q: nat, size': nat)
    requires clear == Shl(1, cs) && InStep(cs, st, dict, s, i, size) && codes.Code? && codes.code != clear
    requires Encodes(clear, roots, dict, s, i, codes) && Emitted(clear, cs, bits, p, size, st.width, codes)
    ensures SpecStep(cs, st, codes.code) == Go(w, next) && Matches(w, s, i) && end == i + |w|
    ensures q == p + st.width <= |bits| && Field(bits, p, st.width) == codes.code
    ensures InStep(cs, next, dict', s, end, size')
    ensures Encodes(clear, roots, dict', s, end, codes.later)
    ensures Emitted(clear, cs, bits, q, size', next.width, codes.later)
  {
    w, dict', end := EncodesCode(clear, roots, dict, s, i, codes);
    var width;
    width, q, size' := EmittedCode(clear, cs, bits, p, size, st.width, codes);
    next := StringTurn(cs, clear, st, dict, s, i, size, codes.code, w, dict', end, size');
  }

  lemma ClearStep(cs: nat, clear: nat, roots: seq<seq<int>>, st: State, s: seq<int>, i: nat) returns (next: State)
    requires Setup(cs, clear, roots) && i <= |s|
    ensures SpecStep(cs, st, clear) == Go([], next) && next.width == cs + 1
    ensures InStep(cs, next, roots, s, i, clear + 2)
  {
    next := Reset(cs, true);
    ResetFits(cs);
    SetupRooted(cs, clear, roots);
  }

  lemma ClearHead(cs: nat, clear: nat, roots: seq<seq<int>>, bits: seq<bool>, p: nat, st: State, dict: seq<seq<int>>,
                  s: seq<int>, i: nat, size: nat, codes: Codes)
    returns (next: State, w: seq<int>, q: nat, size': nat)
    requires Setup(cs, clear, roots) && i <= |s| && st.width > 0 && codes.Code? && codes.code == clear
    requires Encodes(clear, roots, dict, s, i, codes) && Emitted(clear, cs, bits, p, size, st.width, codes)
    ensures SpecStep(cs, st, clear) == Go(w, next) && Matches(w, s, i) && |w| == 0
    ensures q == p + st.width <= |bits| && Field(bits, p, st.width) == clear
    ensures InStep(cs, next, roots, s, i, size')
    ensures Encodes(clear, roots, roots, s, i, codes.later)
    ensures Emitted(clear, cs, bits, q, size', next.width, codes.later)
  {
    ClearTail(cs, clear, roots, bits, p, st.width, dict, s, i, size, codes);
    next := ClearStep(cs, clear, roots, st, s, i);
    w, q, size' := [], p + st.width, clear + 2;
  }

  lemma ClearTail(cs: nat, clear: nat, roots: seq<seq<int>>, bits: seq<bool>, p: nat, width: nat, dict: seq<seq<int>>,
                  s: seq<int>, i: nat, size: nat, codes: Codes)
    requires codes.Code? && codes.code == clear
    requires Encodes(clear, roots, dict, s, i, codes) && Emitted(clear, cs, bits, p, size, width, codes)
    ensures p + width <= |bits| && Field(bits, p, width) == clear
    ensures Encodes(clear, roots, roots, s, i, codes.later)
    ensures Emitted(clear, cs, bits, p + width, clear + 2, cs + 1, codes.later)
  {
  }

  lemma CodeHead(cs: nat, clear: nat, roots: seq<seq<int>>, bits: seq<bool>, p: nat, st: State, dict: seq<seq<int>>,
                 s: seq<int>, i: nat, size: nat, codes: Codes)
    returns (w: seq<int>, next: State, dict': seq<seq<int>>, end: nat, q: nat, size': nat)
    requires Setup(cs, clear, roots) && InStep(cs, st, dict, s, i, size) && codes.Code?
    requires Encodes(clear, roots, dict, s, i, codes) && Emitted(clear, cs, bits, p, size, st.width, codes)
    ensures SpecStep(cs, st, codes.code) == Go(w, next) && Matches(w, s, i) && end == i + |w|
    ensures 0 < st.width && q == p + st.width <= |bits| && Field(bits, p, st.width) == codes.code
    ensures InStep(cs, next, dict', s, end, size')
    ensures Encodes(clear, roots, dict', s, end, codes.later)
    ensures Emitted(clear, cs, bits, q, size', next.width, codes.later)
  {
    if codes.code == clear {
      next, w, q, size' := ClearHead(cs, clear, roots, bits, p, st, dict, s, i, size, codes);
      dict', end := roots, i;
    } else {
      w, next, dict', end, q, size' := StringHead(cs, clear, roots, bits, p, st, dict, s, i, size, codes);
    }
  }

  /** Some stretch of string codes between two clear codes is longer than the source's table lasts; `k` are behind. */
  predicate TooLong(clear: nat, codes: Codes, k: nat)
    decreases codes
  {
    match codes
    case Stop => false
    case Code(code, later) =>
      if code == clear then TooLong(clear, later, 0) else k >= Stretch(clear) || TooLong(clear, later, k + 1)
  }

  lemma TooLongCode(cs: nat, clear: nat, bits: seq<bool>, p: nat, st: State, codes: Codes, w: seq<int>, next: State,
                    q: nat, k: nat, k': nat)
    requires clear == Shl(1, cs) && codes.Code? && k' == if codes.code == clear then 0 else k + 1
    requires 0 < st.width && q == p + st.width <= |bits| && Field(bits, p, st.width) == codes.code
    requires SpecStep(cs, st, codes.code) == Go(w, next)
    requires OverLong(cs, bits, q, next, k') == TooLong(clear, codes.later, k')
    ensures OverLong(cs, bits, p, st, k) == TooLong(clear, codes, k)
  {
    var over := codes.code != clear && k >= Stretch(clear);
    OverLongCode(cs, bits, p, st, k, codes.code, Go(w, next), over, k', q);
  }

  lemma StopDecodes(cs: nat, clear: nat, bits: seq<bool>, p: nat, st: State, s: seq<int>, k: nat)
    requires clear == Shl(1, cs) && 0 < st.width && p + st.width <= |bits| && Field(bits, p, st.width) == clear + 1
    ensures SpecDecode(cs, bits, p, st, s) == Image(s)
    ensures !OverLong(cs, bits, p, st, k)
  {
  }

  /** Reading what was emitted, the decoder draws what was encoded. */
  lemma {:induction false} EmittedDecodes(cs: nat, clear: nat, roots: seq<seq<int>>, bits: seq<bool>, p: nat, st: State,
                                          dict: seq<seq<int>>, s: seq<int>, i: nat, size: nat, codes: Codes, k: nat)
    requires Setup(cs, clear, roots) && InStep(cs, st, dict, s, i, size)
    requires Encodes(clear, roots, dict, s, i, codes) && Emitted(clear, cs, bits, p, size, st.width, codes)
    ensures SpecDecode(cs, bits, p, st, s[..i]) == Image(s)
    ensures OverLong(cs, bits, p, st, k) == TooLong(clear, codes, k)
    decreases codes
  {
    if codes == Stop {
      assert s[..i] == s;
      StopDecodes(cs, clear, bits, p, st, s, k);
    } else {
      var w, next, dict', end, q, size' := CodeHead(cs, clear, roots, bits, p, st, dict, s, i, size, codes);
      var k' := if codes.code == clear then 0 else k + 1;
      EmittedDecodes(cs, clear, roots, bits, q, next, dict', s, end, size', codes.later, k');
      CodeDecodes(cs, bits, p, st, codes.code, w, next, s, i, end, q);
      TooLongCode(cs, clear, bits, p, st, codes, w, next, q, k, k');
    }
  }

  // ---------- an encoder ----------

  /** The longer of string `best` and the first `n` strings that stand at index `i`. */
  function LongestBelow(dict: seq<seq<int>>, s: seq<int>, i: nat, n: nat, best: nat): (c: nat)
    requires n <= |dict| && best < |dict| && dict[best] != [] && Matches(dict[best], s, i)
    ensures (c < n || c == best) && dict[c] != [] && Matches(dict[c], s, i) && |dict[c]| >= |dict[best]|
    decreases n
  {
    if n == 0 then best
    else
      var c := LongestBelow(dict, s, i, n - 1, best);
      if Matches(dict[n - 1], s, i) && |dict[n - 1]| > |dict[c]| then n - 1 else c
  }

  lemma {:induction false} LongestWins(dict: seq<seq<int>>, s: seq<int>, i: nat, n: nat, best: nat, j: nat)
    requires j < n <= |dict| && best < |dict| && dict[best] != [] && Matches(dict[best], s, i) && Matches(dict[j], s, i)
    ensures |dict[j]| <= |dict[LongestBelow(dict, s, i, n, best)]|
    decreases n
  {
    if j < n - 1 { LongestWins(dict, s, i, n - 1, best, j); }
  }

  /** The encoder's dictionary starts with the roots. */
  predicate Rooted(clear: nat, dict: seq<seq<int>>) {
    clear + 2 <= |dict| && forall c: nat {:trigger dict[c]} :: c < clear + 2 ==>
      dict[c] == if c < clear then [c] else []
  }

  /** The indices of an image are below its clear code. */
  ghost predicate Codable(clear: nat, roots: seq<seq<int>>, s: seq<int>) {
    && clear + 2 < CODE_LIMIT && |roots| == clear + 2 && Rooted(clear, roots)
    && forall k :: 0 <= k < |s| ==> 0 <= s[k] < clear
  }

  lemma SetupRooted(cs: nat, clear: nat, roots: seq<seq<int>>)
    requires Setup(cs, clear, roots)
    ensures |roots| == clear + 2 < CODE_LIMIT && Rooted(clear, roots)
  {
    Pow2IsShl(cs);
    Pow2Mono(cs, 8);
    Pow2Values();
  }

  /** A longest match is a string code. */
  lemma LongestIsString(clear: nat, dict: seq<seq<int>>, s: seq<int>, i: nat)
    requires Rooted(clear, dict) && i < |s| && 0 <= s[i] < clear
    ensures dict[s[i]] != [] && Matches(dict[s[i]], s, i)
    ensures LongestBelow(dict, s, i, |dict|, s[i]) != clear && LongestBelow(dict, s, i, |dict|, s[i]) != clear + 1
  {
    assert dict[s[i]] == [s[i]];
    assert dict[clear] == [] && dict[clear + 1] == [];
  }

  lemma AddedRooted(clear: nat, dict: seq<seq<int>>, w: seq<int>, s: seq<int>, i: nat)
    requires Rooted(clear, dict) && |dict| < CODE_LIMIT
    ensures Rooted(clear, Added(dict, w, s, i)) && |Added(dict, w, s, i)| <= CODE_LIMIT
  {
    var dict' := Added(dict, w, s, i);
    forall c: nat | c < clear + 2 ensures dict'[c] == if c < clear then [c] else [] { assert dict'[c] == dict[c]; }
  }

  lemma EncodesMore(clear: nat, roots: seq<seq<int>>, dict: seq<seq<int>>, s: seq<int>, i: nat, code: nat,
                    dict': seq<seq<int>>, end: nat, later: Codes)
    requires code != clear && code != clear + 1 && code < |dict| && dict[code] != []
    requires Matches(dict[code], s, i) && end == i + |dict[code]|
    requires dict' == Added(dict, dict[code], s, end)
    requires Encodes(clear, roots, dict', s, end, later)
    ensures Encodes(clear, roots, dict, s, i, Code(code, later))
  {
  }

  /**
    The encoder that always takes a longest known string, and clears when the codes of twelve bits are used up.
    What it writes is an encoding, and it clears in time for the source's table.
   */
  function Greedy(clear: nat, roots: seq<seq<int>>, dict: seq<seq<int>>, s: seq<int>, i: nat): (codes: Codes)
    requires Codable(clear, roots, s) && Rooted(clear, dict) && i <= |s| && |dict| <= CODE_LIMIT
    ensures Encodes(clear, roots, dict, s, i, codes)
    ensures forall k: nat {:trigger TooLong(clear, codes, k)} ::
      i == |s| || k + clear + 2 <= |dict| ==> !TooLong(clear, codes, k)
    decreases |s| - i, if |dict| >= CODE_LIMIT then 1 else 0
  {
    if i == |s| then Stop
    else if |dict| >= CODE_LIMIT then Code(clear, Greedy(clear, roots, roots, s, i))
    else
      LongestIsString(clear, dict, s, i);
      var c := LongestBelow(dict, s, i, |dict|, s[i]);
      var end := i + |dict[c]|;
      var dict' := Added(dict, dict[c], s, end);
      AddedRooted(clear, dict, dict[c], s, end);
      var later := Greedy(clear, roots, dict', s, end);
      EncodesMore(clear, roots, dict, s, i, c, dict', end, later);
      Code(c, later)
  }

  // ---------- main results ----------

  /** Every code fits in the width that the encoder counts for it. */
  ghost predicate Fit(clear: nat, cs: nat, size: nat, width: nat, codes: Codes)
    decreases codes
  {
    match codes
    case Stop => clear + 1 < Pow2(width)
    case Code(code, later) =>
      && code < Pow2(width)
      && if code == clear then Fit(clear, cs, clear + 2, cs + 1, later)
        else Fit(clear, cs, size + 1, Widened(size, width), later)
  }

  lemma CodeFits(cs: nat, clear: nat, st: State, dict: seq<seq<int>>, s: seq<int>, i: nat, size: nat, code: nat)
    requires clear == Shl(1, cs) && InStep(cs, st, dict, s, i, size)
    requires code == clear || code == clear + 1 || (i < |s| && code < |dict|)
    ensures code < Pow2(st.width)
  {
    Pow2IsShl(cs);
    Pow2Mono(2, cs);
    Pow2Mono(cs + 1, st.width);
    assert Pow2(2) == 4;
    Pow2Values();
  }

  /** No encoding ever needs a code that the current width cannot hold. */
  lemma {:induction false} EncodesFit(cs: nat, clear: nat, roots: seq<seq<int>>, st: State, dict: seq<seq<int>>,
                                      s: seq<int>, i: nat, size: nat, codes: Codes)
    requires Setup(cs, clear, roots) && InStep(cs, st, dict, s, i, size) && Encodes(clear, roots, dict, s, i, codes)
    ensures Fit(clear, cs, size, st.width, codes)
    decreases codes
  {
    if codes == Stop {
      CodeFits(cs, clear, st, dict, s, i, size, clear + 1);
    } else if codes.code == clear {
      CodeFits(cs, clear, st, dict, s, i, size, clear);
      var next := ClearStep(cs, clear, roots, st, s, i);
      EncodesFit(cs, clear, roots, next, roots, s, i, clear + 2, codes.later);
    } else {
      var w, dict', end := EncodesCode(clear, roots, dict, s, i, codes);
      CodeFits(cs, clear, st, dict, s, i, size, codes.code);
      var size' := size + 1;
      var next := StringTurn(cs, clear, st, dict, s, i, size, codes.code, w, dict', end, size');
      EncodesFit(cs, clear, roots, next, dict', s, end, size', codes.later);
    }
  }

  /**
    Image data whose bits hold any encoding of `s`, behind a clear code, stands for `s`, and the source decodes it to
    `s` unless the encoder puts off a clear code for too long; then the source refuses it.
   */
  lemma EncodingReadsBack(cs: nat, clear: nat, roots: seq<seq<int>>, input: seq<Byte>, start: nat, s: seq<int>,
                          codes: Codes)
    requires start < |input| && cs == input[start] && Setup(cs, clear, roots)
    requires Encodes(clear, roots, roots, s, 0, codes)
    requires Emitted(clear, cs, BitsOfBytes(SubBlockData(input, start + 1, 0)), 0, 0, cs + 1, Code(clear, codes))
    ensures SpecImage(input, start) == Image(s)
    ensures DecodeImage(input, start) == if TooLong(clear, codes, 0) then Corrupt else Image(s)
  {
    var bits := BitsOfBytes(SubBlockData(input, start + 1, 0));
    var all, st := Code(clear, codes), Reset(cs, false);
    var next, w, q, size := ClearHead(cs, clear, roots, bits, 0, st, [], s, 0, 0, all);
    EmittedDecodes(cs, clear, roots, bits, q, next, roots, s, 0, size, codes, 0);
    assert s[..0] == [];
    CodeDecodes(cs, bits, 0, st, clear, w, next, s, 0, 0, q);
    TooLongCode(cs, clear, bits, 0, st, all, w, next, q, 0, 0);
    ImageCapOnly(input, start);
  }

  // ---------- packing ----------

  /** The `n` low bits of `v`, lowest first. */
  function Digits(v: nat, n: nat): (t: seq<bool>)
    ensures |t| == n
  {
    if n == 0 then [] else [v % 2 == 1] + Digits(v / 2, n - 1)
  }

  /** The bits of a code stream and its end code. */
  function Emit(clear: nat, cs: nat, size: nat, width: nat, codes: Codes): seq<bool>
    decreases codes
  {
    match codes
    case Stop => Digits(clear + 1, width)
    case Code(code, later) =>
      Digits(code, width) +
      (if code == clear then Emit(clear, cs, clear + 2, cs + 1, later)
       else Emit(clear, cs, size + 1, Widened(size, width), later))
  }

  ghost predicate Stands<T>(t: seq<T>, all: seq<T>, p: nat) {
    p + |t| <= |all| && forall k: nat {:trigger t[k]} :: k < |t| ==> all[p + k] == t[k]
  }

  lemma StandsSplit<T>(a: seq<T>, b: seq<T>, all: seq<T>, p: nat)
    requires Stands(a + b, all, p)
    ensures Stands(a, all, p) && Stands(b, all, p + |a|)
  {
    forall k: nat | k < |a| ensures all[p + k] == a[k] { assert (a + b)[k] == a[k]; }
    forall k: nat | k < |b| ensures all[p + |a| + k] == b[k] { assert (a + b)[|a| + k] == b[k]; }
  }

  lemma {:induction false} DigitsRead(bits: seq<bool>, p: nat, v: nat, n: nat)
    requires Stands(Digits(v, n), bits, p) && v < Pow2(n)
    ensures Field(bits, p, n) == v
    decreases n
  {
    if n > 0 {
      assert Digits(v, n)[0] == (v % 2 == 1);
      StandsSplit([v % 2 == 1], Digits(v / 2, n - 1), bits, p);
      DigitsRead(bits, p + 1, v / 2, n - 1);
    }
  }

  lemma DigitsThen(bits: seq<bool>, p: nat, code: nat, width: nat, digits: seq<bool>, t: seq<bool>) returns (q: nat)
    requires digits == Digits(code, width) && Stands(digits + t, bits, p) && code < Pow2(width)
    ensures q == p + width <= |bits| && Field(bits, p, width) == code && Stands(t, bits, q)
  {
    q := p + width;
    StandsSplit(digits, t, bits, p);
    DigitsRead(bits, p, code, width);
  }

  lemma EmitHead(clear: nat, cs: nat, size: nat, width: nat, codes: Codes)
    returns (digits: seq<bool>, t: seq<bool>, size': nat, width': nat)
    requires codes.Code? && Fit(clear, cs, size, width, codes)
    ensures size' == (if codes.code == clear then clear + 2 else size + 1)
    ensures width' == (if codes.code == clear then cs + 1 else Widened(size, width))
    ensures Emit(clear, cs, size, width, codes) == digits + t && digits == Digits(codes.code, width)
    ensures t == Emit(clear, cs, size', width', codes.later)
    ensures codes.code < Pow2(width) && Fit(clear, cs, size', width', codes.later)
  {
    size' := if codes.code == clear then clear + 2 else size + 1;
    width' := if codes.code == clear then cs + 1 else Widened(size, width);
    digits, t := Digits(codes.code, width), Emit(clear, cs, size', width', codes.later);
  }

  lemma EmittedMore(clear: nat, cs: nat, bits: seq<bool>, p: nat, size: nat, width: nat, codes: Codes, q: nat,
                    size': nat, width': nat)
    requires codes.Code? && q == p + width <= |bits| && Field(bits, p, width) == codes.code
    requires size' == (if codes.code == clear then clear + 2 else size + 1)
    requires width' == (if codes.code == clear then cs + 1 else Widened(size, width))
    requires Emitted(clear, cs, bits, q, size', width', codes.later)
    ensures Emitted(clear, cs, bits, p, size, width, codes)
  {
  }

  /** Codes that fit in their widths can be read back. */
  lemma {:induction false} EmitEmitted(clear: nat, cs: nat, bits: seq<bool>, p: nat, size: nat, width: nat,
                                       codes: Codes)
    requires Fit(clear, cs, size, width, codes) && Stands(Emit(clear, cs, size, width, codes), bits, p)
    ensures Emitted(clear, cs, bits, p, size, width, codes)
    decreases codes
  {
    if codes == Stop {
      DigitsRead(bits, p, clear + 1, width);
    } else {
      var digits, t, size', width' := EmitHead(clear, cs, size, width, codes);
      var q := DigitsThen(bits, p, codes.code, width, digits, t);
      EmitEmitted(clear, cs, bits, q, size', width', codes.later);
      EmittedMore(clear, cs, bits, p, size, width, codes, q, size', width');
    }
  }

  /** Bits packed lowest first into bytes, the last one filled up with zeros. */
  function ToBytes(bits: seq<bool>): (bytes: seq<Byte>)
    ensures Stands(bits, BitsOfBytes(bytes), 0)
  {
    ToBytesHolds(bits);
    seq((|bits| + 7) / 8, k requires 0 <= k => FieldByte(bits, 8 * k))
  }

  function FieldByte(bits: seq<bool>, p: nat): Byte {
    FieldBelow(bits, p, 8);
    Pow2Values();
    Field(bits, p, 8)
  }

  lemma ToBytesHolds(bits: seq<bool>)
    ensures Stands(bits, BitsOfBytes(seq((|bits| + 7) / 8, k requires 0 <= k => FieldByte(bits, 8 * k))), 0)
  {
    forall k: nat | k < |bits| ensures bits[k] == (Bit(FieldByte(bits, 8 * (k / 8)), k % 8) == 1) {
      FieldBit(bits, 8 * (k / 8), 8, k % 8);
    }
  }

  /** Data cut into sub-blocks of at most 255 bytes, and the terminator. */
  function SubBlocks(data: seq<Byte>): seq<Byte> {
    if data == [] then [0]
    else
      var n := if |data| < 255 then |data| else 255;
      [n] + data[..n] + SubBlocks(data[n..])
  }

  lemma {:induction false} BlockBytes(input: seq<Byte>, pos: nat, len: nat)
    requires pos + len <= |input|
    ensures SubBlockData(input, pos, len) == input[pos..pos + len] + SubBlockData(input, pos + len, 0)
    decreases len
  {
    if len > 0 { BlockBytes(input, pos + 1, len - 1); }
  }

  /** The sub-blocks read back as the data. */
  lemma {:induction false} SubBlocksRead(input: seq<Byte>, pos: nat, data: seq<Byte>)
    requires Stands(SubBlocks(data), input, pos)
    ensures SubBlockData(input, pos, 0) == data
    decreases |data|
  {
    assert input[pos] == SubBlocks(data)[0];
    if data != [] {
      var n := if |data| < 255 then |data| else 255;
      StandsSplit([n] + data[..n], SubBlocks(data[n..]), input, pos);
      StandsSplit([n], data[..n], input, pos);
      BlockBytes(input, pos + 1, n);
      assert input[pos + 1..pos + 1 + n] == data[..n];
      SubBlocksRead(input, pos + 1 + n, data[n..]);
    }
  }

  /** Codes behind a clear code, packed. */
  function Packed(cs: nat, clear: nat, codes: Codes): seq<Byte> {
    ToBytes(Emit(clear, cs, 0, cs + 1, Code(clear, codes)))
  }

  /** Image data of `cs`-bit indices: the minimum code size, then the codes in sub-blocks. */
  function Encoded(cs: nat, clear: nat, codes: Codes): seq<Byte>
    requires cs <= 8
  {
    [cs] + SubBlocks(Packed(cs, clear, codes))
  }

  lemma AllFit(cs: nat, clear: nat, roots: seq<seq<int>>, s: seq<int>, codes: Codes)
    requires Setup(cs, clear, roots) && Encodes(clear, roots, roots, s, 0, codes)
    ensures Fit(clear, cs, 0, cs + 1, Code(clear, codes))
  {
    var next := ClearStep(cs, clear, roots, Reset(cs, false), s, 0);
    CodeFits(cs, clear, next, roots, s, 0, clear + 2, clear);
    EncodesFit(cs, clear, roots, next, roots, s, 0, clear + 2, codes);
  }

  /**
    Any encoding, written out, stands for its image, and the source decodes it unless it puts off clearing too long.
   */
  lemma DecodeEncoding(cs: nat, clear: nat, roots: seq<seq<int>>, s: seq<int>, codes: Codes)
    requires Setup(cs, clear, roots) && Encodes(clear, roots, roots, s, 0, codes)
    ensures SpecImage(Encoded(cs, clear, codes), 0) == Image(s)
    ensures DecodeImage(Encoded(cs, clear, codes), 0) == if TooLong(clear, codes, 0) then Corrupt else Image(s)
  {
    var input := Encoded(cs, clear, codes);
    SubBlocksRead(input, 1, Packed(cs, clear, codes));
    AllFit(cs, clear, roots, s, codes);
    EmitEmitted(clear, cs, BitsOfBytes(Packed(cs, clear, codes)), 0, 0, cs + 1, Code(clear, codes));
    EncodingReadsBack(cs, clear, roots, input, 0, s, codes);
  }

  /** Every image can be encoded so that the source decodes it to its own indices. */
  lemma DecodeEncoded(cs: nat, clear: nat, roots: seq<seq<int>>, s: seq<int>)
    requires Setup(cs, clear, roots) && forall k :: 0 <= k < |s| ==> 0 <= s[k] < clear
    ensures Codable(clear, roots, s)
    ensures DecodeImage(Encoded(cs, clear, Greedy(clear, roots, roots, s, 0)), 0) == Image(s)
  {
    SetupRooted(cs, clear, roots);
    var codes := Greedy(clear, roots, roots, s, 0);
    assert !TooLong(clear, codes, 0);
    DecodeEncoding(cs, clear, roots, s, codes);
  }

  // ---------- an encoding the source refuses ----------

  /** Every index by its own root code, without a clear code. */
  function RootCodes(s: seq<int>, i: nat): Codes
    requires i <= |s| && forall k :: 0 <= k < |s| ==> s[k] >= 0
    decreases |s| - i
  {
    if i == |s| then Stop else Code(s[i], RootCodes(s, i + 1))
  }

  lemma {:induction false} RootCodesEncode(clear: nat, roots: seq<seq<int>>, dict: seq<seq<int>>, s: seq<int>, i: nat)
    requires Codable(clear, roots, s) && Rooted(clear, dict) && i <= |s|
    ensures Encodes(clear, roots, dict, s, i, RootCodes(s, i))
    decreases |s| - i
  {
    if i < |s| {
      var w := [s[i]];
      assert dict[s[i]] == w;
      var dict' := Added(dict, w, s, i + 1);
      forall c: nat | c < clear + 2 ensures dict'[c] == if c < clear then [c] else [] { assert dict'[c] == dict[c]; }
      RootCodesEncode(clear, roots, dict', s, i + 1);
      EncodesMore(clear, roots, dict, s, i, s[i], dict', i + 1, RootCodes(s, i + 1));
    }
  }

  lemma {:induction false} RootCodesLong(clear: nat, s: seq<int>, i: nat, k: nat)
    requires i <= |s| && forall j :: 0 <= j < |s| ==> 0 <= s[j] < clear
    requires k <= Stretch(clear)
    ensures TooLong(clear, RootCodes(s, i), k) <==> k + |s| - i > Stretch(clear)
    decreases |s| - i
  {
    if i < |s| && k < Stretch(clear) { RootCodesLong(clear, s, i + 1, k + 1); }
  }

  /**
    The image data that spells an image root by root, without ever clearing again, stands for the image. The source
    decodes it exactly when the image has at most `Stretch` indices, and refuses every longer one.
   */
  lemma RefusedEncoding(cs: nat, clear: nat, roots: seq<seq<int>>, s: seq<int>)
    requires Setup(cs, clear, roots) && forall k :: 0 <= k < |s| ==> 0 <= s[k] < clear
    ensures SpecImage(Encoded(cs, clear, RootCodes(s, 0)), 0) == Image(s)
    ensures DecodeImage(Encoded(cs, clear, RootCodes(s, 0)), 0) == if |s| > 8191 - clear then Corrupt else Image(s)
  {
    SetupRooted(cs, clear, roots);
    RootCodesEncode(clear, roots, roots, s, 0);
    RootCodesLong(clear, s, 0, 0);
    DecodeEncoding(cs, clear, roots, s, RootCodes(s, 0));
  }
}
