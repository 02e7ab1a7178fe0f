/**
  Bencoding (FINAL/src/bencode.c): the growing buffer, the printer, and the parser with the leniency of `strtol`.
  Bytes are the integers they stand for; what lies behind the end of the parsed buffer is a NUL.
 */
module Bencode {
  import opened Wrappers

  datatype Pair = Pair(key: seq<int>, value: Value)

  datatype Value = Str(data: seq<int>) | Int(value: int) | List(items: seq<Value>) | Dict(pairs: seq<Pair>)

  const LONG_MIN: int := -0x8000_0000_0000_0000
  const LONG_MAX: int := 0x7FFF_FFFF_FFFF_FFFF

  // ---------- the printer ----------

  /** `%zu` */
  function Dec(n: nat): (s: seq<int>)
    ensures |s| > 0
  {
    if n < 10 then [48 + n] else Dec(n / 10) + [48 + n % 10]
  }

  /** `%lld` */
  function SignedDec(n: int): seq<int> {
    if n < 0 then [45] + Dec(-n) else Dec(n)
  }

  function EncodeString(s: seq<int>): seq<int> {
    Dec(|s|) + [58] + s
  }

  function Encode(v: Value): seq<int>
    decreases v, 0
  {
    match v
    case Str(data) => EncodeString(data)
    case Int(n) => [105] + SignedDec(n) + [101]
    case List(items) => [108] + EncodeItems(items) + [101]
    case Dict(pairs) => [100] + EncodePairs(pairs) + [101]
  }

  function EncodeItems(items: seq<Value>): seq<int>
    decreases items, 0
  {
    if items == [] then [] else Encode(items[0]) + EncodeItems(items[1..])
  }

  function EncodePairs(pairs: seq<Pair>): seq<int>
    decreases pairs, 0
  {
    if pairs == [] then []
    else EncodeString(pairs[0].key) + Encode(pairs[0].value) + EncodePairs(pairs[1..])
  }

  function Text(s: string): seq<int> {
    seq(|s|, i requires 0 <= i < |s| => s[i] as int)
  }

  lemma ShortString(s: string)
    requires |s| < 10
    ensures EncodeString(Text(s)) == [48 + |s|] + Text(":") + Text(s)
  {
  }

  /** The examples of BEP 3: strings, integers, a list and a dictionary. */
  lemma {:induction false} PrintedInteger(n: int)
    requires 0 <= n < 10
    ensures Encode(Int(n)) == Text("i") + [48 + n] + Text("e")
    ensures n > 0 ==> Encode(Int(-n)) == Text("i-") + [48 + n] + Text("e")
  {
  }

  lemma {:induction false} PrintedItem(item: string, rest: seq<Value>, items: seq<Value>, printed: seq<int>)
    requires |item| < 10 && items == [Str(Text(item))] + rest && printed == EncodeItems(rest)
    ensures EncodeItems(items) == [48 + |item|] + Text(":") + Text(item) + printed
  {
    ShortString(item);
    assert items[1..] == rest;
  }

  lemma {:induction false} PrintedList(items: seq<Value>)
    requires items == [Str(Text("spam")), Str(Text("eggs"))]
    ensures Encode(List(items)) == Text("l4:spam4:eggse")
  {
    var rest := [items[1]];
    PrintedItem("eggs", [], rest, []);
    PrintedItem("spam", rest, items, EncodeItems(rest));
  }

  /** A pair of two short strings in front of others. */
  lemma {:induction false} PrintedPair(key: string, value: string, rest: seq<Pair>, pairs: seq<Pair>, printed: seq<int>)
    requires |key| < 10 && |value| < 10 && pairs == [Pair(Text(key), Str(Text(value)))] + rest
    requires printed == EncodePairs(rest)
    ensures EncodePairs(pairs) == [48 + |key|] + Text(":") + Text(key) + ([48 + |value|] + Text(":") + Text(value)) +
                                  printed
  {
    ShortString(key);
    ShortString(value);
    assert pairs[1..] == rest;
  }

  lemma {:induction false} PrintedDict(pairs: seq<Pair>)
    requires pairs == [Pair(Text("cow"), Str(Text("moo"))), Pair(Text("spam"), Str(Text("eggs")))]
    ensures Encode(Dict(pairs)) == Text("d3:cow3:moo4:spam4:eggse")
  {
    var rest := [pairs[1]];
    PrintedPair("spam", "eggs", [], rest, []);
    PrintedPair("cow", "moo", rest, pairs, EncodePairs(rest));
  }

  // ---------- the C library on the parsed buffer ----------

  function At(d: seq<int>, p: nat): int {
    if p < |d| then d[p] else 0
  }

  predicate Digit(c: int) {
    48 <= c <= 57
  }

  predicate Space(c: int) {
    c == 32 || 9 <= c <= 13
  }

  function SkipSpaces(d: seq<int>, p: nat): (q: nat)
    requires p <= |d|
    ensures p <= q <= |d|
    decreases |d| - p
  {
    if p < |d| && Space(d[p]) then SkipSpaces(d, p + 1) else p
  }

  function DigitsEnd(d: seq<int>, p: nat): (q: nat)
    requires p <= |d|
    ensures p <= q <= |d|
    decreases |d| - p
  {
    if p < |d| && Digit(d[p]) then DigitsEnd(d, p + 1) else p
  }

  /** The number that the digits from `p` to `q` denote. */
  function Number(d: seq<int>, p: nat, q: nat): int
    requires p <= q <= |d|
    decreases q
  {
    if p == q then 0 else 10 * Number(d, p, q - 1) + (d[q - 1] - 48)
  }

  function Saturate(v: int): int {
    if v < LONG_MIN then LONG_MIN else if v > LONG_MAX then LONG_MAX else v
  }

  /** `strtol(ptr, &endptr, 10)` */
  function StrTol(d: seq<int>, p: nat): (r: (int, nat))
    requires p <= |d|
    ensures p <= r.1 <= |d|
  {
    var s := SkipSpaces(d, p);
    var t := if At(d, s) == 45 || At(d, s) == 43 then s + 1 else s;
    var q := DigitsEnd(d, t);
    if q == t then (0, p)
    else (Saturate(if At(d, s) == 45 then -Number(d, t, q) else Number(d, t, q)), q)
  }

  /** `memchr` from `p` to the end. */
  function Find(d: seq<int>, p: nat, c: int): (r: Option<nat>)
    requires p <= |d|
    ensures r.Some? ==> p <= r.value < |d| && d[r.value] == c && forall i :: p <= i < r.value ==> d[i] != c
    ensures r.None? ==> forall i :: p <= i < |d| ==> d[i] != c
    decreases |d| - p
  {
    if p == |d| then None else if d[p] == c then Some(p) else Find(d, p + 1, c)
  }

  // ---------- the parser ----------

  /** A decimal numeral as the printer writes it: digits only, no leading zero. */
  predicate PlainNumeral(d: seq<int>, p: nat, q: nat)
    requires p <= q <= |d|
  {
    && p < q
    && (forall i :: p <= i < q ==> Digit(d[i]))
    && (d[p] == 48 ==> q == p + 1)
  }

  predicate PlainLength(d: seq<int>, p: nat, q: nat)
    requires p <= q <= |d|
  {
    PlainNumeral(d, p, q) && Number(d, p, q) <= LONG_MAX
  }

  /** An integer as the printer writes it: a plain numeral in range, or a minus sign and one that is not zero. */
  predicate PlainInteger(d: seq<int>, p: nat, q: nat)
    requires p <= q <= |d|
  {
    if p < q && d[p] == 45 then PlainNumeral(d, p + 1, q) && d[p + 1] != 48 && -Number(d, p + 1, q) >= LONG_MIN
    else PlainNumeral(d, p, q) && Number(d, p, q) <= LONG_MAX
  }

  /** The parser, and with `strict` the parser that also insists on plain numerals. */
  function ParseString(strict: bool, d: seq<int>, p: nat): (r: Option<(seq<int>, nat)>)
    requires p <= |d|
    ensures r.Some? ==> p < r.value.1 <= |d|
  {
    var colon := Find(d, p, 58);
    if colon.None? then None
    else
      var c := colon.value;
      var len := StrTol(d, p).0;
      if len < 0 || c + 1 + len > |d| || (strict && !PlainLength(d, p, c)) then None
      else Some((d[c + 1..c + 1 + len], c + 1 + len))
  }

  function ParseInt(strict: bool, d: seq<int>, p: nat): (r: Option<(int, nat)>)
    requires p < |d|
    ensures r.Some? ==> p < r.value.1 <= |d|
  {
    var e := Find(d, p + 1, 101);
    if e.None? then None
    else
      var (v, end) := StrTol(d, p + 1);
      if end != e.value || (strict && !PlainInteger(d, p + 1, e.value)) then None
      else Some((v, e.value + 1))
  }

  function ParseValue(strict: bool, d: seq<int>, p: nat): (r: Option<(Value, nat)>)
    requires p <= |d|
    ensures r.Some? ==> p < r.value.1 <= |d|
    decreases |d| - p, 0
  {
    if Digit(At(d, p)) then
      var s := ParseString(strict, d, p);
      if s.None? then None else Some((Str(s.value.0), s.value.1))
    else if At(d, p) == 105 then
      var n := ParseInt(strict, d, p);
      if n.None? then None else Some((Int(n.value.0), n.value.1))
    else if At(d, p) == 108 then
      var items := ParseItems(strict, d, p + 1);
      if items.None? then None else Some((List(items.value.0), items.value.1))
    else if At(d, p) == 100 then
      var pairs := ParsePairs(strict, d, p + 1);
      if pairs.None? then None else Some((Dict(pairs.value.0), pairs.value.1))
    else None
  }

  function ParseItems(strict: bool, d: seq<int>, p: nat): (r: Option<(seq<Value>, nat)>)
    requires p <= |d|
    ensures r.Some? ==> p < r.value.1 <= |d|
    decreases |d| - p, 1
  {
    if p == |d| then None
    else if d[p] == 101 then Some(([], p + 1))
    else
      var v := ParseValue(strict, d, p);
      if v.None? then None
      else
        var rest := ParseItems(strict, d, v.value.1);
        if rest.None? then None else Some(([v.value.0] + rest.value.0, rest.value.1))
  }

  function ParsePairs(strict: bool, d: seq<int>, p: nat): (r: Option<(seq<Pair>, nat)>)
    requires p <= |d|
    ensures r.Some? ==> p < r.value.1 <= |d|
    decreases |d| - p, 1
  {
    if p == |d| then None
    else if d[p] == 101 then Some(([], p + 1))
    else
      var k := ParseString(strict, d, p);
      if k.None? then None
      else
        var v := ParseValue(strict, d, k.value.1);
        if v.None? then None
        else
          var rest := ParsePairs(strict, d, v.value.1);
          if rest.None? then None else Some(([Pair(k.value.0, v.value.0)] + rest.value.0, rest.value.1))
  }

  /** `bencode_decode`: one value that takes the whole buffer. */
  function Decode(strict: bool, d: seq<int>): Option<Value> {
    var v := ParseValue(strict, d, 0);
    if v.None? || v.value.1 != |d| then None else Some(v.value.0)
  }

  // ---------- numerals ----------

  lemma {:induction false} DecIsPlain(n: nat)
    ensures forall i :: 0 <= i < |Dec(n)| ==> Digit(Dec(n)[i])
    ensures n > 0 ==> Dec(n)[0] != 48
    ensures n == 0 ==> |Dec(n)| == 1
    decreases n
  {
    if n >= 10 { DecIsPlain(n / 10); }
  }

  lemma {:induction false} NumberOfDec(d: seq<int>, p: nat, q: nat, n: nat)
    requires p <= q <= |d| && d[p..q] == Dec(n)
    ensures Number(d, p, q) == n
    decreases n
  {
    if n < 10 {
      assert d[p..q][0] == d[p] && q == p + 1;
      assert Number(d, p, p) == 0;
    } else {
      assert d[p..q - 1] == d[p..q][..q - 1 - p] == Dec(n / 10);
      assert d[q - 1] == d[p..q][q - 1 - p] == 48 + n % 10;
      NumberOfDec(d, p, q - 1, n / 10);
    }
  }

  lemma {:induction false} NumberPositive(d: seq<int>, p: nat, q: nat)
    requires p < q <= |d| && (forall i :: p <= i < q ==> Digit(d[i])) && d[p] != 48
    ensures Number(d, p, q) > 0
    decreases q
  {
    if q == p + 1 {
      assert Number(d, p, p) == 0;
    } else {
      NumberPositive(d, p, q - 1);
    }
  }

  /** A plain numeral is what the printer writes for the number it denotes. */
  lemma {:induction false} PlainIsDec(d: seq<int>, p: nat, q: nat)
    requires p <= q <= |d| && PlainNumeral(d, p, q)
    ensures Number(d, p, q) >= 0 && d[p..q] == Dec(Number(d, p, q))
    decreases q
  {
    if q == p + 1 {
      assert Number(d, p, p) == 0;
      assert d[p..q] == [d[p]];
    } else {
      PlainIsDec(d, p, q - 1);
      NumberPositive(d, p, q - 1);
      var n := Number(d, p, q);
      assert n / 10 == Number(d, p, q - 1) && 48 + n % 10 == d[q - 1];
      assert d[p..q] == d[p..q - 1] + [d[q - 1]];
    }
  }

  lemma {:induction false} DigitsEndIs(d: seq<int>, p: nat, q: nat)
    requires p <= q <= |d| && (forall i :: p <= i < q ==> Digit(d[i])) && !Digit(At(d, q))
    ensures DigitsEnd(d, p) == q
    decreases q - p
  {
    if p < q { DigitsEndIs(d, p + 1, q); }
  }

  lemma StrTolPlain(d: seq<int>, p: nat, q: nat)
    requires p <= q <= |d| && PlainNumeral(d, p, q) && !Digit(At(d, q))
    ensures StrTol(d, p) == (Saturate(Number(d, p, q)), q)
  {
    DigitsEndIs(d, p, q);
    assert SkipSpaces(d, p) == p;
  }

  lemma StrTolInteger(d: seq<int>, p: nat, q: nat)
    requires p <= q <= |d| && PlainInteger(d, p, q) && !Digit(At(d, q))
    ensures d[p] == 45 ==> p + 1 <= q && StrTol(d, p) == (-Number(d, p + 1, q), q)
    ensures d[p] != 45 ==> StrTol(d, p) == (Number(d, p, q), q)
  {
    if d[p] == 45 {
      DigitsEndIs(d, p + 1, q);
      assert SkipSpaces(d, p) == p;
      PlainIsDec(d, p + 1, q);
    } else {
      PlainIsDec(d, p, q);
      StrTolPlain(d, p, q);
    }
  }

  lemma {:induction false} FindIs(d: seq<int>, p: nat, c: int, q: nat)
    requires p <= q < |d| && d[q] == c && forall i :: p <= i < q ==> d[i] != c
    ensures Find(d, p, c) == Some(q)
  {
    var r := Find(d, p, c);
  }

  // ---------- reading back what was printed ----------

  /** `s` stands at place `p` of `d`. */
  predicate Holds(d: seq<int>, p: nat, s: seq<int>)
    decreases s
  {
    s == [] || (p < |d| && d[p] == s[0] && Holds(d, p + 1, s[1..]))
  }

  lemma {:induction false} HoldsIs(d: seq<int>, p: nat, s: seq<int>)
    requires p <= |d|
    ensures Holds(d, p, s) <==> p + |s| <= |d| && d[p..p + |s|] == s
    decreases s
  {
    if s != [] && p < |d| {
      HoldsIs(d, p + 1, s[1..]);
      if p + |s| <= |d| {
        assert d[p..p + |s|] == [d[p]] + d[p + 1..p + |s|];
        assert s == [s[0]] + s[1..];
      }
    }
  }

  lemma {:induction false} HoldsSplit(d: seq<int>, p: nat, a: seq<int>, b: seq<int>)
    ensures Holds(d, p, a + b) <==> Holds(d, p, a) && Holds(d, p + |a|, b)
    decreases a
  {
    if a == [] {
      assert a + b == b;
    } else {
      assert (a + b)[1..] == a[1..] + b;
      HoldsSplit(d, p + 1, a[1..], b);
    }
  }

  lemma HoldsByte(d: seq<int>, p: nat, c: int)
    ensures Holds(d, p, [c]) <==> p < |d| && d[p] == c
  {
  }

  /** What fits the C types: integers of 64 bits and lengths that `strtol` can return. */
  predicate Storable(v: Value)
    decreases v
  {
    match v
    case Str(data) => |data| <= LONG_MAX
    case Int(n) => LONG_MIN <= n <= LONG_MAX
    case List(items) => forall i {:trigger items[i]} :: 0 <= i < |items| ==> Storable(items[i])
    case Dict(pairs) => forall i {:trigger pairs[i]} :: 0 <= i < |pairs| ==>
                          |pairs[i].key| <= LONG_MAX && Storable(pairs[i].value)
  }

  lemma NumeralHolds(d: seq<int>, p: nat, n: nat)
    requires p <= |d| && Holds(d, p, Dec(n))
    ensures p + |Dec(n)| <= |d|
    ensures PlainNumeral(d, p, p + |Dec(n)|) && Number(d, p, p + |Dec(n)|) == n
    ensures forall i :: p <= i < p + |Dec(n)| ==> Digit(d[i])
  {
    DecIsPlain(n);
    HoldsIs(d, p, Dec(n));
    var q := p + |Dec(n)|;
    forall i | p <= i < q ensures d[i] == Dec(n)[i - p] {
      assert d[p..q][i - p] == d[i];
    }
    NumberOfDec(d, p, q, n);
  }

  lemma ParseStringAt(strict: bool, d: seq<int>, p: nat, c: nat, e: nat, s: seq<int>)
    requires p <= c < |d| && PlainLength(d, p, c) && d[c] == 58 && Number(d, p, c) == |s|
    requires e == c + 1 + |s| && Holds(d, c + 1, s)
    ensures ParseString(strict, d, p) == Some((s, e))
  {
    HoldsIs(d, c + 1, s);
    FindIs(d, p, 58, c);
    StrTolPlain(d, p, c);
  }

  lemma ParseStringBack(strict: bool, d: seq<int>, p: nat, s: seq<int>, e: nat)
    requires p <= |d| && |s| <= LONG_MAX && Holds(d, p, EncodeString(s)) && e == p + |EncodeString(s)|
    ensures ParseString(strict, d, p) == Some((s, e))
    ensures p < |d| && Digit(d[p])
  {
    HoldsSplit(d, p, Dec(|s|) + [58], s);
    HoldsSplit(d, p, Dec(|s|), [58]);
    NumeralHolds(d, p, |s|);
    var c := p + |Dec(|s|)|;
    HoldsByte(d, c, 58);
    ParseStringAt(strict, d, p, c, e, s);
  }

  lemma ParseIntAt(strict: bool, d: seq<int>, p: nat, q: nat, e: nat, n: int)
    requires q == p + 1 && q <= e < |d| && PlainInteger(d, q, e) && d[e] == 101
    requires n == if d[q] == 45 then -Number(d, q + 1, e) else Number(d, q, e)
    ensures ParseInt(strict, d, p) == Some((n, e + 1))
  {
    FindIs(d, q, 101, e);
    StrTolInteger(d, q, e);
  }

  lemma ParseIntBack(strict: bool, d: seq<int>, p: nat, q: nat, e: nat, n: int)
    requires p < |d| && LONG_MIN <= n <= LONG_MAX
    requires q == p + 1 && e == q + |SignedDec(n)| && Holds(d, q, SignedDec(n) + [101])
    ensures ParseInt(strict, d, p) == Some((n, e + 1))
  {
    HoldsSplit(d, q, SignedDec(n), [101]);
    HoldsByte(d, e, 101);
    if n < 0 {
      HoldsSplit(d, q, [45], Dec(-n));
      HoldsByte(d, q, 45);
      NumeralHolds(d, q + 1, -n);
      DecIsPlain(-n);
      assert d[q + 1..e][0] == d[q + 1];
    } else {
      NumeralHolds(d, q, n);
    }
    ParseIntAt(strict, d, p, q, e, n);
  }

  /** A letter, a body, and an `e`. */
  lemma WrappedHolds(d: seq<int>, p: nat, c: int, body: seq<int>)
    requires Holds(d, p, [c] + body + [101])
    ensures p < |d| && d[p] == c && Holds(d, p + 1, body + [101])
  {
    assert [c] + body + [101] == [c] + (body + [101]);
    HoldsSplit(d, p, [c], body + [101]);
    HoldsByte(d, p, c);
  }

  lemma Regroup(a: seq<int>, b: seq<int>, c: seq<int>)
    ensures a + b + c == a + (b + c)
  {
  }

  lemma ItemsHold(d: seq<int>, p: nat, items: seq<Value>, n: nat)
    requires items != [] && Holds(d, p, EncodeItems(items) + [101]) && n == p + |Encode(items[0])|
    ensures Holds(d, p, Encode(items[0])) && Holds(d, n, EncodeItems(items[1..]) + [101])
  {
    var first, rest := Encode(items[0]), EncodeItems(items[1..]);
    assert first + rest + [101] == first + (rest + [101]);
    HoldsSplit(d, p, first, rest + [101]);
  }

  /** The first of the printed values, and the others. */
  lemma ItemsHead(d: seq<int>, p: nat, items: seq<Value>, e: nat) returns (v: Value, n: nat, rest: seq<Value>)
    requires p <= |d| && items != [] && Holds(d, p, EncodeItems(items) + [101]) && e == p + |EncodeItems(items)| + 1
    requires forall i {:trigger items[i]} :: 0 <= i < |items| ==> Storable(items[i])
    ensures v == items[0] && rest == items[1..] && items == [v] + rest
    ensures Storable(v) && Holds(d, p, Encode(v)) && n == p + |Encode(v)| <= |d|
    ensures forall i {:trigger rest[i]} :: 0 <= i < |rest| ==> Storable(rest[i])
    ensures Holds(d, n, EncodeItems(rest) + [101]) && e == n + |EncodeItems(rest)| + 1
  {
    v, rest := items[0], items[1..];
    n := p + |Encode(v)|;
    ItemsHold(d, p, items, n);
    HoldsIs(d, p, Encode(v));
  }

  lemma PairsHold(d: seq<int>, p: nat, pairs: seq<Pair>, m: nat, n: nat)
    requires pairs != [] && Holds(d, p, EncodePairs(pairs) + [101])
    requires m == p + |EncodeString(pairs[0].key)| && n == m + |Encode(pairs[0].value)|
    ensures Holds(d, p, EncodeString(pairs[0].key)) && Holds(d, m, Encode(pairs[0].value))
    ensures Holds(d, n, EncodePairs(pairs[1..]) + [101])
  {
    var key, value, rest := EncodeString(pairs[0].key), Encode(pairs[0].value), EncodePairs(pairs[1..]);
    Regroup(key + value, rest, [101]);
    Regroup(key, value, rest + [101]);
    HoldsSplit(d, p, key, value + (rest + [101]));
    HoldsSplit(d, m, value, rest + [101]);
  }

  lemma ParseItemsCons(strict: bool, d: seq<int>, p: nat, v: Value, n: nat, vs: seq<Value>, e: nat)
    requires p < |d| && d[p] != 101
    requires ParseValue(strict, d, p) == Some((v, n)) && ParseItems(strict, d, n) == Some((vs, e))
    ensures ParseItems(strict, d, p) == Some(([v] + vs, e))
  {
  }

  lemma ParsePairsCons(strict: bool, d: seq<int>, p: nat, k: seq<int>, m: nat, v: Value, n: nat, rest: seq<Pair>,
                       e: nat)
    requires p < |d| && d[p] != 101
    requires ParseString(strict, d, p) == Some((k, m)) && ParseValue(strict, d, m) == Some((v, n))
    requires ParsePairs(strict, d, n) == Some((rest, e))
    ensures ParsePairs(strict, d, p) == Some(([Pair(k, v)] + rest, e))
  {
  }

  lemma ValueOfString(strict: bool, d: seq<int>, p: nat, s: seq<int>, e: nat)
    requires p < |d| && Digit(d[p]) && ParseString(strict, d, p) == Some((s, e))
    ensures ParseValue(strict, d, p) == Some((Str(s), e))
  {
  }

  lemma ValueOfInt(strict: bool, d: seq<int>, p: nat, n: int, e: nat)
    requires p < |d| && d[p] == 105 && ParseInt(strict, d, p) == Some((n, e))
    ensures ParseValue(strict, d, p) == Some((Int(n), e))
  {
  }

  lemma ValueOfItems(strict: bool, d: seq<int>, p: nat, items: seq<Value>, e: nat)
    requires p < |d| && d[p] == 108 && ParseItems(strict, d, p + 1) == Some((items, e))
    ensures ParseValue(strict, d, p) == Some((List(items), e))
  {
  }

  lemma ValueOfPairs(strict: bool, d: seq<int>, p: nat, pairs: seq<Pair>, e: nat)
    requires p < |d| && d[p] == 100 && ParsePairs(strict, d, p + 1) == Some((pairs, e))
    ensures ParseValue(strict, d, p) == Some((Dict(pairs), e))
  {
  }

  lemma IntBack(strict: bool, d: seq<int>, p: nat, n: int, e: nat)
    requires p <= |d| && LONG_MIN <= n <= LONG_MAX
    requires Holds(d, p, [105] + SignedDec(n) + [101]) && e == p + |SignedDec(n)| + 2
    ensures p < |d| && d[p] == 105 && ParseValue(strict, d, p) == Some((Int(n), e))
  {
    var body, q, f := SignedDec(n), p + 1, e - 1;
    IntParsed(strict, d, p, n, body, q, f);
    ValueOfInt(strict, d, p, n, e);
  }

  lemma IntParsed(strict: bool, d: seq<int>, p: nat, n: int, body: seq<int>, q: nat, f: nat)
    requires p <= |d| && LONG_MIN <= n <= LONG_MAX && body == SignedDec(n) && q == p + 1 && f == q + |body|
    requires Holds(d, p, [105] + body + [101])
    ensures p < |d| && d[p] == 105 && ParseInt(strict, d, p) == Some((n, f + 1))
  {
    WrappedHolds(d, p, 105, body);
    ParseIntBack(strict, d, p, q, f, n);
  }

  /** Whatever follows, the parser reads back exactly the printed value and stops where it ends. */
  lemma {:induction false} ParseBack(strict: bool, d: seq<int>, p: nat, v: Value, e: nat)
    requires p <= |d| && Storable(v) && Holds(d, p, Encode(v)) && e == p + |Encode(v)|
    ensures ParseValue(strict, d, p) == Some((v, e))
    ensures p < |d| && d[p] != 101
    decreases v, 0
  {
    match v {
      case Str(data) =>
        ParseStringBack(strict, d, p, data, e);
        ValueOfString(strict, d, p, data, e);
      case Int(n) =>
        IntBack(strict, d, p, n, e);
      case List(items) =>
        WrappedHolds(d, p, 108, EncodeItems(items));
        ParseItemsBack(strict, d, p + 1, items, e);
        ValueOfItems(strict, d, p, items, e);
      case Dict(pairs) =>
        WrappedHolds(d, p, 100, EncodePairs(pairs));
        ParsePairsBack(strict, d, p + 1, pairs, e);
        ValueOfPairs(strict, d, p, pairs, e);
    }
  }

  lemma {:induction false} ParseItemsBack(strict: bool, d: seq<int>, p: nat, items: seq<Value>, e: nat)
    requires p <= |d| && Holds(d, p, EncodeItems(items) + [101]) && e == p + |EncodeItems(items)| + 1
    requires forall i {:trigger items[i]} :: 0 <= i < |items| ==> Storable(items[i])
    ensures ParseItems(strict, d, p) == Some((items, e))
    decreases items, 0
  {
    if items == [] {
      assert EncodeItems(items) + [101] == [101];
      HoldsByte(d, p, 101);
    } else {
      var v, n, rest := ItemsHead(d, p, items, e);
      ParseBack(strict, d, p, v, n);
      ParseItemsBack(strict, d, n, rest, e);
      ParseItemsCons(strict, d, p, v, n, rest, e);
    }
  }

  lemma {:induction false} ParsePairsBack(strict: bool, d: seq<int>, p: nat, pairs: seq<Pair>, e: nat)
    requires p <= |d| && Holds(d, p, EncodePairs(pairs) + [101]) && e == p + |EncodePairs(pairs)| + 1
    requires forall i {:trigger pairs[i]} :: 0 <= i < |pairs| ==> |pairs[i].key| <= LONG_MAX && Storable(pairs[i].value)
    ensures ParsePairs(strict, d, p) == Some((pairs, e))
    decreases pairs, 0
  {
    if pairs == [] {
      assert EncodePairs(pairs) + [101] == [101];
      HoldsByte(d, p, 101);
    } else {
      var m := p + |EncodeString(pairs[0].key)|;
      var n := m + |Encode(pairs[0].value)|;
      PairsHold(d, p, pairs, m, n);
      ParseStringBack(strict, d, p, pairs[0].key, m);
      ParseBack(strict, d, m, pairs[0].value, n);
      ParsePairsBack(strict, d, n, pairs[1..], e);
      ParsePairsCons(strict, d, p, pairs[0].key, m, pairs[0].value, n, pairs[1..], e);
      assert pairs == [Pair(pairs[0].key, pairs[0].value)] + pairs[1..];
    }
  }

  /** `bencode_decode(bencode_encode(v)) == v` */
  lemma DecodeEncode(v: Value)
    requires Storable(v)
    ensures Decode(false, Encode(v)) == Some(v)
  {
    var d := Encode(v);
    assert d[0..|d|] == d;
    HoldsIs(d, 0, d);
    ParseBack(false, d, 0, v, |d|);
  }

  // ---------- printing back what was parsed ----------

  lemma SignedHolds(d: seq<int>, q: nat, e: nat, n: int)
    requires q <= e < |d| && PlainInteger(d, q, e)
    requires n == if d[q] == 45 then -Number(d, q + 1, e) else Number(d, q, e)
    ensures Holds(d, q, SignedDec(n)) && q + |SignedDec(n)| == e && LONG_MIN <= n <= LONG_MAX
  {
    if d[q] == 45 {
      PlainIsDec(d, q + 1, e);
      NumberPositive(d, q + 1, e);
      HoldsByte(d, q, 45);
      HoldsIs(d, q + 1, Dec(-n));
      HoldsSplit(d, q, [45], Dec(-n));
    } else {
      PlainIsDec(d, q, e);
      HoldsIs(d, q, Dec(n));
    }
  }

  /** A plain integer followed by `e` is what the printer writes for it. */
  lemma IntegerHolds(d: seq<int>, q: nat, e: nat, n: int)
    requires q <= e < |d| && PlainInteger(d, q, e) && d[e] == 101
    requires n == if d[q] == 45 then -Number(d, q + 1, e) else Number(d, q, e)
    ensures Holds(d, q, SignedDec(n) + [101]) && q + |SignedDec(n)| == e && LONG_MIN <= n <= LONG_MAX
  {
    SignedHolds(d, q, e, n);
    HoldsByte(d, e, 101);
    HoldsSplit(d, q, SignedDec(n), [101]);
  }

  lemma StrictInt(d: seq<int>, p: nat, n: int, e: nat)
    requires p < |d| && ParseInt(true, d, p) == Some((n, e))
    ensures ParseInt(false, d, p) == Some((n, e))
    ensures LONG_MIN <= n <= LONG_MAX
    ensures Holds(d, p + 1, SignedDec(n) + [101]) && p + 1 + |SignedDec(n)| + 1 == e
  {
    var q := p + 1;
    StrTolInteger(d, q, e - 1);
    IntegerHolds(d, q, e - 1, n);
  }

  /** What the strict parser has seen of a string it accepts. */
  lemma StrictStringParts(d: seq<int>, p: nat, c: nat, n: nat, s: seq<int>, e: nat)
    requires p <= |d| && ParseString(true, d, p) == Some((s, e))
    requires Find(d, p, 58) == Some(c) && StrTol(d, p).0 == n
    ensures e == c + 1 + n <= |d| && s == d[c + 1..e] && ParseString(false, d, p) == Some((s, e))
  {
  }

  lemma StringHolds(d: seq<int>, p: nat, c: nat, n: nat, s: seq<int>, e: nat)
    requires p <= c < e <= |d| && d[p..c] == Dec(n) && d[c] == 58
    requires n == |s| && e == c + 1 + n && s == d[c + 1..e]
    ensures Holds(d, p, EncodeString(s)) && p + |EncodeString(s)| == e
  {
    HoldsIs(d, p, Dec(n));
    HoldsIs(d, c + 1, s);
    HoldsByte(d, c, 58);
    HoldsSplit(d, p, Dec(n), [58]);
    HoldsSplit(d, p, Dec(n) + [58], s);
  }

  lemma StrictString(d: seq<int>, p: nat, s: seq<int>, e: nat)
    requires p <= |d| && ParseString(true, d, p) == Some((s, e))
    ensures ParseString(false, d, p) == Some((s, e))
    ensures Holds(d, p, EncodeString(s)) && p + |EncodeString(s)| == e && |s| <= LONG_MAX
  {
    var c := Find(d, p, 58).value;
    var n := Number(d, p, c);
    StrTolPlain(d, p, c);
    PlainIsDec(d, p, c);
    StrictStringParts(d, p, c, n, s, e);
    StringHolds(d, p, c, n, s, e);
  }

  lemma HoldsWrapped(d: seq<int>, p: nat, c: int, body: seq<int>)
    requires p < |d| && d[p] == c && Holds(d, p + 1, body + [101])
    ensures Holds(d, p, [c] + body + [101])
  {
    HoldsByte(d, p, c);
    HoldsSplit(d, p, [c], body + [101]);
    Regroup([c], body, [101]);
  }

  lemma HoldsItems(d: seq<int>, p: nat, v: Value, n: nat, rest: seq<Value>, items: seq<Value>)
    requires Holds(d, p, Encode(v)) && n == p + |Encode(v)| && Holds(d, n, EncodeItems(rest) + [101])
    requires items == [v] + rest
    ensures Holds(d, p, EncodeItems(items) + [101]) && |EncodeItems(items)| == |Encode(v)| + |EncodeItems(rest)|
  {
    assert items[0] == v && items[1..] == rest;
    HoldsSplit(d, p, Encode(v), EncodeItems(rest) + [101]);
    Regroup(Encode(v), EncodeItems(rest), [101]);
  }

  lemma HoldsPairs(d: seq<int>, p: nat, k: seq<int>, m: nat, v: Value, n: nat, rest: seq<Pair>, pairs: seq<Pair>)
    requires Holds(d, p, EncodeString(k)) && m == p + |EncodeString(k)|
    requires Holds(d, m, Encode(v)) && n == m + |Encode(v)| && Holds(d, n, EncodePairs(rest) + [101])
    requires pairs == [Pair(k, v)] + rest
    ensures Holds(d, p, EncodePairs(pairs) + [101])
    ensures |EncodePairs(pairs)| == |EncodeString(k)| + |Encode(v)| + |EncodePairs(rest)|
  {
    assert pairs[0] == Pair(k, v) && pairs[1..] == rest;
    HoldsSplit(d, m, Encode(v), EncodePairs(rest) + [101]);
    HoldsSplit(d, p, EncodeString(k), Encode(v) + (EncodePairs(rest) + [101]));
    Regroup(EncodeString(k) + Encode(v), EncodePairs(rest), [101]);
    Regroup(EncodeString(k), Encode(v), EncodePairs(rest) + [101]);
  }

  /** What the strict parser accepts, the parser accepts with the same result, and the printer gives back as it was. */
  lemma {:induction false} StrictValue(d: seq<int>, p: nat, v: Value, e: nat)
    requires p <= |d| && ParseValue(true, d, p) == Some((v, e))
    ensures ParseValue(false, d, p) == Some((v, e))
    ensures Holds(d, p, Encode(v)) && p + |Encode(v)| == e && Storable(v)
    decreases |d| - p, 0
  {
    if v.Str? {
      StrictString(d, p, v.data, e);
    } else if v.Int? {
      StrictInt(d, p, v.value, e);
      HoldsWrapped(d, p, 105, SignedDec(v.value));
    } else if v.List? {
      StrictItems(d, p + 1, v.items, e);
      HoldsWrapped(d, p, 108, EncodeItems(v.items));
    } else {
      StrictPairs(d, p + 1, v.pairs, e);
      HoldsWrapped(d, p, 100, EncodePairs(v.pairs));
    }
  }

  lemma {:induction false} StrictItems(d: seq<int>, p: nat, items: seq<Value>, e: nat)
    requires p <= |d| && ParseItems(true, d, p) == Some((items, e))
    ensures ParseItems(false, d, p) == Some((items, e))
    ensures Holds(d, p, EncodeItems(items) + [101]) && p + |EncodeItems(items)| + 1 == e
    ensures forall i {:trigger items[i]} :: 0 <= i < |items| ==> Storable(items[i])
    decreases |d| - p, 1
  {
    if d[p] == 101 {
      HoldsByte(d, p, 101);
      assert EncodeItems(items) + [101] == [101];
    } else {
      var (v, n) := ParseValue(true, d, p).value;
      var rest := ParseItems(true, d, n).value.0;
      StrictValue(d, p, v, n);
      StrictItems(d, n, rest, e);
      ParseItemsCons(false, d, p, v, n, rest, e);
      HoldsItems(d, p, v, n, rest, items);
      assert forall i {:trigger items[i]} :: 1 <= i < |items| ==> items[i] == rest[i - 1];
    }
  }

  /** The first pair of a dictionary, and the others. */
  lemma {:induction false} StrictHead(d: seq<int>, p: nat, pairs: seq<Pair>, e: nat)
    returns (k: seq<int>, m: nat, v: Value, n: nat, rest: seq<Pair>)
    requires p < |d| && d[p] != 101 && ParsePairs(true, d, p) == Some((pairs, e))
    ensures ParseString(true, d, p) == Some((k, m)) && p < m <= |d|
    ensures ParseValue(true, d, m) == Some((v, n)) && m < n <= |d|
    ensures ParsePairs(true, d, n) == Some((rest, e)) && pairs == [Pair(k, v)] + rest
  {
    k, m := ParseString(true, d, p).value.0, ParseString(true, d, p).value.1;
    v, n := ParseValue(true, d, m).value.0, ParseValue(true, d, m).value.1;
    rest := ParsePairs(true, d, n).value.0;
  }

  /** What holds of the first pair and of the others holds of all. */
  lemma {:induction false} StrictJoin(d: seq<int>, p: nat, k: seq<int>, m: nat, v: Value, n: nat, rest: seq<Pair>,
                                      pairs: seq<Pair>, e: nat)
    requires p < |d| && d[p] != 101 && pairs == [Pair(k, v)] + rest
    requires ParseString(false, d, p) == Some((k, m)) && ParseValue(false, d, m) == Some((v, n))
    requires ParsePairs(false, d, n) == Some((rest, e))
    requires Holds(d, p, EncodeString(k)) && p + |EncodeString(k)| == m && |k| <= LONG_MAX
    requires Holds(d, m, Encode(v)) && m + |Encode(v)| == n && Storable(v)
    requires Holds(d, n, EncodePairs(rest) + [101]) && n + |EncodePairs(rest)| + 1 == e
    requires forall i {:trigger rest[i]} :: 0 <= i < |rest| ==> |rest[i].key| <= LONG_MAX && Storable(rest[i].value)
    ensures ParsePairs(false, d, p) == Some((pairs, e))
    ensures Holds(d, p, EncodePairs(pairs) + [101]) && p + |EncodePairs(pairs)| + 1 == e
    ensures forall i {:trigger pairs[i]} :: 0 <= i < |pairs| ==> |pairs[i].key| <= LONG_MAX && Storable(pairs[i].value)
  {
    ParsePairsCons(false, d, p, k, m, v, n, rest, e);
    HoldsPairs(d, p, k, m, v, n, rest, pairs);
    assert forall i {:trigger pairs[i]} :: 1 <= i < |pairs| ==> pairs[i] == rest[i - 1];
  }

  lemma {:induction false} StrictPairs(d: seq<int>, p: nat, pairs: seq<Pair>, e: nat)
    requires p <= |d| && ParsePairs(true, d, p) == Some((pairs, e))
    ensures ParsePairs(false, d, p) == Some((pairs, e))
    ensures Holds(d, p, EncodePairs(pairs) + [101]) && p + |EncodePairs(pairs)| + 1 == e
    ensures forall i {:trigger pairs[i]} :: 0 <= i < |pairs| ==> |pairs[i].key| <= LONG_MAX && Storable(pairs[i].value)
    decreases |d| - p, 1
  {
    if d[p] == 101 {
      HoldsByte(d, p, 101);
      assert EncodePairs(pairs) + [101] == [101];
    } else {
      var k, m, v, n, rest := StrictHead(d, p, pairs, e);
      StrictString(d, p, k, m);
      StrictValue(d, m, v, n);
      StrictPairs(d, n, rest, e);
      StrictJoin(d, p, k, m, v, n, rest, pairs, e);
    }
  }

  /** The parser saturates integers and lengths, so its results fit the C types. */
  lemma {:induction false} ParsedStorable(d: seq<int>, p: nat)
    requires p <= |d| && ParseValue(false, d, p).Some?
    ensures Storable(ParseValue(false, d, p).value.0)
    decreases |d| - p, 0
  {
    var v := ParseValue(false, d, p).value.0;
    if v.List? { ParsedItemsStorable(d, p + 1); }
    if v.Dict? { ParsedPairsStorable(d, p + 1); }
  }

  lemma {:induction false} ParsedItemsStorable(d: seq<int>, p: nat)
    requires p <= |d| && ParseItems(false, d, p).Some?
    ensures var items := ParseItems(false, d, p).value.0;
            forall i {:trigger items[i]} :: 0 <= i < |items| ==> Storable(items[i])
    decreases |d| - p, 1
  {
    if d[p] != 101 {
      ParsedStorable(d, p);
      ParsedItemsStorable(d, ParseValue(false, d, p).value.1);
    }
  }

  lemma {:induction false} ParsedPairsStorable(d: seq<int>, p: nat)
    requires p <= |d| && ParsePairs(false, d, p).Some?
    ensures var pairs := ParsePairs(false, d, p).value.0;
            forall i {:trigger pairs[i]} :: 0 <= i < |pairs| ==> |pairs[i].key| <= LONG_MAX && Storable(pairs[i].value)
    decreases |d| - p, 1
  {
    if d[p] != 101 {
      var m := ParseString(false, d, p).value.1;
      ParsedStorable(d, m);
      ParsedPairsStorable(d, ParseValue(false, d, m).value.1);
    }
  }

  lemma CanonicalIsReprinted(d: seq<int>, p: nat, v: Value, e: nat)
    requires p <= |d| && ParseValue(false, d, p) == Some((v, e)) && ParseValue(true, d, p).Some?
    ensures Encode(v) == d[p..e] && ParseValue(true, d, p).value == (v, e)
  {
    var (w, f) := ParseValue(true, d, p).value;
    StrictValue(d, p, w, f);
    HoldsIs(d, p, Encode(w));
  }

  lemma ReprintedIsCanonical(d: seq<int>, p: nat, v: Value, e: nat)
    requires p <= |d| && ParseValue(false, d, p) == Some((v, e)) && Encode(v) == d[p..e]
    ensures ParseValue(true, d, p) == Some((v, e))
  {
    ParsedStorable(d, p);
    HoldsIs(d, p, Encode(v));
    ParseBack(true, d, p, v, e);
  }

  /**
    Printing a parsed value gives the bytes it was parsed from if and only if these are canonical: every length and
    every integer in them is written as a plain numeral.
   */
  lemma Reprint(d: seq<int>, p: nat, v: Value, e: nat)
    requires p <= |d| && ParseValue(false, d, p) == Some((v, e))
    ensures Encode(v) == d[p..e] <==> ParseValue(true, d, p).Some?
  {
    if ParseValue(true, d, p).Some? { CanonicalIsReprinted(d, p, v, e); }
    if Encode(v) == d[p..e] { ReprintedIsCanonical(d, p, v, e); }
  }

  /** `bencode_encode(bencode_decode(d)) == d` exactly for canonical input. */
  lemma EncodeDecode(d: seq<int>, v: Value)
    requires Decode(false, d) == Some(v)
    ensures Encode(v) == d <==> Decode(true, d).Some?
  {
    Reprint(d, 0, v, |d|);
    assert d[0..|d|] == d;
    if ParseValue(true, d, 0).Some? { CanonicalIsReprinted(d, 0, v, |d|); }
  }

  /** Accepted but not given back: a leading zero, `i01e`. */
  lemma {:induction false} NotGivenBack()
    ensures Decode(false, [105, 48, 49, 101]) == Some(Int(1)) && Encode(Int(1)) != [105, 48, 49, 101]
  {
    var d := [105, 48, 49, 101];
    assert Find(d, 1, 101) == Some(3);
    DigitsEndIs(d, 1, 3);
    assert SkipSpaces(d, 1) == 1;
    assert Number(d, 1, 1) == 0 && Number(d, 1, 2) == 0 && Number(d, 1, 3) == 1;
    assert Encode(Int(1)) == [105, 49, 101];
  }

  /** `d1x:a1:be` */
  const TEXT_AFTER_LENGTH: seq<int> := [100, 49, 120, 58, 97, 49, 58, 98, 101]

  lemma LenientKey(d: seq<int>)
    requires d == TEXT_AFTER_LENGTH
    ensures ParseString(false, d, 1) == Some(([97], 5))
  {
    assert Find(d, 3, 58) == Some(3) && Find(d, 2, 58) == Some(3);
    assert SkipSpaces(d, 1) == 1 && DigitsEnd(d, 2) == 2 && DigitsEnd(d, 1) == 2;
    assert Number(d, 1, 1) == 0 && Number(d, 1, 2) == 1;
    assert d[4..5] == [97];
  }

  lemma ValueBehind(d: seq<int>)
    requires d == TEXT_AFTER_LENGTH
    ensures ParseValue(false, d, 5) == Some((Str([98]), 8))
  {
    assert Find(d, 6, 58) == Some(6);
    assert SkipSpaces(d, 5) == 5 && DigitsEnd(d, 6) == 6 && DigitsEnd(d, 5) == 6;
    assert Number(d, 5, 5) == 0 && Number(d, 5, 6) == 1;
    assert d[7..8] == [98];
  }

  lemma LenientPairs(d: seq<int>)
    requires d == TEXT_AFTER_LENGTH
    ensures ParsePairs(false, d, 1) == Some(([Pair([97], Str([98]))], 9))
  {
    LenientKey(d);
    ValueBehind(d);
    assert d[1] == 49 && d[8] == 101;
    var rest := ParsePairs(false, d, 8);
    assert rest.Some? && rest.value.0 == [] && rest.value.1 == 9;
    var k := ParseString(false, d, 1);
    assert k.value.0 == [97] && k.value.1 == 5;
    var v := ParseValue(false, d, 5);
    assert v.value.0 == Str([98]) && v.value.1 == 8;
    assert [Pair(k.value.0, v.value.0)] + rest.value.0 == [Pair([97], Str([98]))];
  }

  /** Accepted but not given back: a key whose length is followed by other text. */
  lemma {:induction false} KeyNotGivenBack(d: seq<int>, v: Value)
    requires d == TEXT_AFTER_LENGTH && v == Dict([Pair([97], Str([98]))])
    ensures Decode(false, d) == Some(v) && |Encode(v)| < |d|
  {
    LenientDecode(d, v.pairs);
    ShorterPrint(v);
  }

  lemma {:induction false} LenientDecode(d: seq<int>, pairs: seq<Pair>)
    requires d == TEXT_AFTER_LENGTH && pairs == [Pair([97], Str([98]))]
    ensures Decode(false, d) == Some(Dict(pairs))
  {
    var p, e := LenientRead(d, pairs);
    DecodeDict(d, pairs, p, e);
  }

  lemma {:induction false} LenientRead(d: seq<int>, pairs: seq<Pair>) returns (p: nat, e: nat)
    requires d == TEXT_AFTER_LENGTH && pairs == [Pair([97], Str([98]))]
    ensures p == 0 < |d| == e && d[p] == 100 && ParsePairs(false, d, p + 1) == Some((pairs, e))
  {
    LenientPairs(d);
    p, e := 0, 9;
  }

  lemma {:induction false} DecodeDict(d: seq<int>, pairs: seq<Pair>, p: nat, e: nat)
    requires p == 0 < |d| == e && d[p] == 100 && ParsePairs(false, d, p + 1) == Some((pairs, e))
    ensures Decode(false, d) == Some(Dict(pairs))
  {
    DictIs(d, p, pairs, e);
  }

  lemma {:induction false} DictIs(d: seq<int>, p: nat, pairs: seq<Pair>, e: nat)
    requires p < |d| && d[p] == 100 && ParsePairs(false, d, p + 1) == Some((pairs, e))
    ensures ParseValue(false, d, p) == Some((Dict(pairs), e))
  {
  }

  lemma {:induction false} ShorterPrint(v: Value)
    requires v == Dict([Pair([97], Str([98]))])
    ensures |Encode(v)| == 8
  {
    assert Dec(1) == [49];
    assert |EncodeString([97])| == 3 && |Encode(Str([98]))| == 3;
    assert v.pairs[1..] == [];
  }

  // ---------- looking up a key ----------

  /** A key as `strcmp` sees it: up to the first NUL. */
  function CString(key: seq<int>): seq<int> {
    if key == [] || key[0] == 0 then [] else [key[0]] + CString(key[1..])
  }

  /** `bencode_dict_get`: the value of the first pair with this key. */
  method DictGet(v: Value, key: seq<int>) returns (r: Option<nat>)
    ensures r.Some? ==> v.Dict? && r.value < |v.pairs| && CString(v.pairs[r.value].key) == key &&
                        forall j :: 0 <= j < r.value ==> CString(v.pairs[j].key) != key
    ensures r.None? ==> !v.Dict? || forall j :: 0 <= j < |v.pairs| ==> CString(v.pairs[j].key) != key
  {
    if !v.Dict? { return None; }
    var i := 0;
    while i < |v.pairs|
      invariant 0 <= i <= |v.pairs|
      invariant forall j :: 0 <= j < i ==> CString(v.pairs[j].key) != key
    {
      if CString(v.pairs[i].key) == key { return Some(i); }
      i := i + 1;
    }
    return None;
  }

  /** The place in the input that the i-th value of a dictionary was parsed from. */
  lemma {:induction false} PairSpan(d: seq<int>, p: nat, pairs: seq<Pair>, e: nat, i: nat) returns (q: nat, f: nat)
    requires p <= |d| && ParsePairs(false, d, p) == Some((pairs, e)) && i < |pairs|
    ensures p <= q < f <= e && f <= |d| && ParseValue(false, d, q) == Some((pairs[i].value, f))
    decreases |d| - p
  {
    var (k, m) := ParseString(false, d, p).value;
    var (v, n) := ParseValue(false, d, m).value;
    var rest := ParsePairs(false, d, n).value.0;
    assert pairs == [Pair(k, v)] + rest;
    PairsEnd(d, n);
    if i == 0 {
      q, f := m, n;
    } else {
      q, f := PairSpan(d, n, rest, e, i - 1);
    }
  }

  lemma PairsEnd(d: seq<int>, n: nat)
    requires n <= |d| && ParsePairs(false, d, n).Some?
    ensures n < ParsePairs(false, d, n).value.1
  {
  }

  /**
    The bytes hashed for the info dictionary are the bytes it was parsed from if and only if those are canonical.
   */
  lemma InfoBytes(d: seq<int>, root: Value, i: nat) returns (q: nat, f: nat)
    requires Decode(false, d) == Some(root) && root.Dict? && i < |root.pairs|
    ensures q < f <= |d| && ParseValue(false, d, q) == Some((root.pairs[i].value, f))
    ensures Encode(root.pairs[i].value) == d[q..f] <==> ParseValue(true, d, q).Some?
  {
    q, f := PairSpan(d, 1, root.pairs, |d|, i);
    Reprint(d, q, root.pairs[i].value, f);
  }
}

module BencodeWriter {
  import opened Bencode

  /** `dynbuf_t`; a null `data` is an array of length zero. */
  class DynBuf {
    var data: array<int>
    var len: nat
    var cap: nat

    ghost predicate Valid()
      reads this
    {
      len <= cap == data.Length
    }

    ghost function Contents(): seq<int>
      requires Valid()
      reads this, data
    {
      data[..len]
    }

    /** `dynbuf_init` */
    constructor ()
      ensures Valid() && Contents() == [] && fresh(data)
    {
      data := new int[0];
      len, cap := 0, 0;
    }

    /** `dynbuf_append`: the capacity doubles from 128 until the new bytes fit. */
    method Append(src: seq<int>)
      requires Valid()
      modifies this, data
      ensures Valid() && Contents() == old(Contents()) + src
      ensures data == old(data) || fresh(data)
      ensures cap == old(cap) || cap < 2 * (old(len) + |src|) || cap == 128 || cap == 2 * old(cap)
    {
      if len + |src| > cap {
        var newCap := if cap > 0 then cap * 2 else 128;
        while newCap < len + |src|
          invariant newCap > 0
          invariant newCap == 128 || newCap == 2 * cap || newCap < 2 * (len + |src|)
          decreases len + |src| - newCap
        {
          newCap := newCap * 2;
        }
        Realloc(newCap);
      }
      forall k | 0 <= k < |src| { data[len + k] := src[k]; }
      ghost var before := data[..len];
      len := len + |src|;
      assert data[..len] == before + src;
    }

    /** `xrealloc`, which does not return when memory is short. */
    method Realloc(newCap: nat)
      requires Valid() && newCap >= len
      modifies this
      ensures Valid() && Contents() == old(Contents()) && len == old(len) && cap == newCap && fresh(data)
    {
      var grown := new int[newCap];
      forall k | 0 <= k < len { grown[k] := data[k]; }
      assert grown[..len] == data[..len];
      data := grown;
      cap := newCap;
    }
  }

  /** `encode_obj`: appends exactly the printed form. */
  method EncodeObj(b: DynBuf, v: Value)
    requires b.Valid()
    modifies b, b.data
    ensures b.Valid() && b.Contents() == old(b.Contents()) + Encode(v)
    ensures b.data == old(b.data) || fresh(b.data)
    decreases v, 0
  {
    match v {
      case Str(data) =>
        AppendString(b, data);
      case Int(n) =>
        b.Append([105] + SignedDec(n) + [101]);
      case List(items) =>
        ghost var before := b.Contents();
        b.Append([108]);
        EncodeList(b, items);
        b.Append([101]);
        Wrap(before, [108], EncodeItems(items), [101]);
      case Dict(pairs) =>
        ghost var before := b.Contents();
        b.Append([100]);
        EncodeDict(b, pairs);
        b.Append([101]);
        Wrap(before, [100], EncodePairs(pairs), [101]);
    }
  }

  lemma Wrap(before: seq<int>, a: seq<int>, body: seq<int>, z: seq<int>)
    ensures before + a + body + z == before + (a + body + z)
  {
  }

  method EncodePair(b: DynBuf, pair: Pair)
    requires b.Valid()
    modifies b, b.data
    ensures b.Valid() && b.Contents() == old(b.Contents()) + (EncodeString(pair.key) + Encode(pair.value))
    ensures b.data == old(b.data) || fresh(b.data)
    decreases pair, 1
  {
    ghost var before := b.Contents();
    AppendString(b, pair.key);
    EncodeObj(b, pair.value);
    Regroup(before, EncodeString(pair.key), Encode(pair.value));
  }

  method AppendString(b: DynBuf, s: seq<int>)
    requires b.Valid()
    modifies b, b.data
    ensures b.Valid() && b.Contents() == old(b.Contents()) + EncodeString(s)
    ensures b.data == old(b.data) || fresh(b.data)
  {
    ghost var before := b.Contents();
    b.Append(Dec(|s|) + [58]);
    b.Append(s);
    Regroup(before, Dec(|s|) + [58], s);
  }

  lemma {:induction false} ItemsSnoc(items: seq<Value>, i: nat)
    requires i < |items|
    ensures EncodeItems(items[..i + 1]) == EncodeItems(items[..i]) + Encode(items[i])
    decreases i
  {
    if i == 0 {
      assert items[..1] == [items[0]] && items[..0] == [];
      assert EncodeItems(items[..1][1..]) == [];
    } else {
      ItemsSnoc(items[1..], i - 1);
      assert items[..i + 1][1..] == items[1..][..i] && items[..i][1..] == items[1..][..i - 1];
      Regroup(Encode(items[0]), EncodeItems(items[1..][..i - 1]), Encode(items[i]));
    }
  }

  lemma {:induction false} PairsSnoc(pairs: seq<Pair>, i: nat)
    requires i < |pairs|
    ensures EncodePairs(pairs[..i + 1]) == EncodePairs(pairs[..i]) +
      (EncodeString(pairs[i].key) + Encode(pairs[i].value))
    decreases i
  {
    if i == 0 {
      assert pairs[..1] == [pairs[0]] && pairs[..0] == [];
      assert EncodePairs(pairs[..1][1..]) == [];
    } else {
      PairsSnoc(pairs[1..], i - 1);
      assert pairs[..i + 1][1..] == pairs[1..][..i] && pairs[..i][1..] == pairs[1..][..i - 1];
      Regroup(EncodeString(pairs[0].key) + Encode(pairs[0].value), EncodePairs(pairs[1..][..i - 1]),
              EncodeString(pairs[i].key) + Encode(pairs[i].value));
    }
  }

  method EncodeList(b: DynBuf, items: seq<Value>)
    requires b.Valid()
    modifies b, b.data
    ensures b.Valid() && b.Contents() == old(b.Contents()) + EncodeItems(items)
    ensures b.data == old(b.data) || fresh(b.data)
    decreases items, 0
  {
    var i := 0;
    while i < |items|
      invariant 0 <= i <= |items|
      invariant b.Valid() && b.Contents() == old(b.Contents()) + EncodeItems(items[..i])
      invariant b.data == old(b.data) || fresh(b.data)
    {
      EncodeObj(b, items[i]);
      ItemsSnoc(items, i);
      i := i + 1;
    }
    assert items[..i] == items;
  }

  method EncodeDict(b: DynBuf, pairs: seq<Pair>)
    requires b.Valid()
    modifies b, b.data
    ensures b.Valid() && b.Contents() == old(b.Contents()) + EncodePairs(pairs)
    ensures b.data == old(b.data) || fresh(b.data)
    decreases pairs, 0
  {
    var i := 0;
    while i < |pairs|
      invariant 0 <= i <= |pairs|
      invariant b.Valid() && b.Contents() == old(b.Contents()) + EncodePairs(pairs[..i])
      invariant b.data == old(b.data) || fresh(b.data)
    {
      EncodePair(b, pairs[i]);
      PairsSnoc(pairs, i);
      i := i + 1;
    }
    assert pairs[..i] == pairs;
  }

  /** `bencode_encode` */
  method BencodeEncode(v: Value) returns (out: seq<int>)
    ensures out == Encode(v)
  {
    var b := new DynBuf();
    EncodeObj(b, v);
    out := b.data[..b.len];
  }
}

module BencodeReader {
  import opened Wrappers
  import opened Bencode

  /** The parsers as the source writes them: the lists grow while a pointer moves through the buffer. */

  /** `strtol` */
  method StrToL(d: seq<int>, p: nat) returns (value: int, end: nat)
    requires p <= |d|
    ensures (value, end) == StrTol(d, p)
  {
    var s := p;
    while s < |d| && Space(d[s])
      invariant p <= s <= |d|
      invariant SkipSpaces(d, s) == SkipSpaces(d, p)
    {
      s := s + 1;
    }
    var negative := At(d, s) == 45;
    var t := if negative || At(d, s) == 43 then s + 1 else s;
    var q, n := t, 0;
    while q < |d| && Digit(d[q])
      invariant t <= q <= |d|
      invariant DigitsEnd(d, q) == DigitsEnd(d, t)
      invariant n == Number(d, t, q)
    {
      n := 10 * n + (d[q] - 48);
      q := q + 1;
    }
    if q == t { return 0, p; }
    value := Saturate(if negative then -n else n);
    end := q;
  }

  /** `memchr` */
  method MemChr(d: seq<int>, p: nat, c: int) returns (r: Option<nat>)
    requires p <= |d|
    ensures r == Find(d, p, c)
  {
    var i := p;
    while i < |d| && d[i] != c
      invariant p <= i <= |d|
      invariant Find(d, i, c) == Find(d, p, c)
    {
      i := i + 1;
    }
    r := if i < |d| then Some(i) else None;
  }

  /** `parse_string` */
  method ReadString(d: seq<int>, p: nat) returns (r: Option<(seq<int>, nat)>)
    requires p <= |d|
    ensures r == ParseString(false, d, p)
  {
    var colon := MemChr(d, p, 58);
    if colon.None? { return None; }
    var len, _ := StrToL(d, p);
    if len < 0 || colon.value + 1 + len > |d| { return None; }
    return Some((d[colon.value + 1..colon.value + 1 + len], colon.value + 1 + len));
  }

  /** `parse_int` */
  method ReadInt(d: seq<int>, p: nat) returns (r: Option<(int, nat)>)
    requires p < |d|
    ensures r == ParseInt(false, d, p)
  {
    var e := MemChr(d, p + 1, 101);
    if e.None? { return None; }
    var integer, endptr := StrToL(d, p + 1);
    if endptr != e.value { return None; }
    return Some((integer, e.value + 1));
  }

  /** The choice by the first byte that every caller makes. */
  method ReadValue(d: seq<int>, p: nat) returns (r: Option<(Value, nat)>)
    requires p <= |d|
    ensures r == ParseValue(false, d, p)
    decreases |d| - p, 0
  {
    if Digit(At(d, p)) {
      var s := ReadString(d, p);
      r := if s.None? then None else Some((Str(s.value.0), s.value.1));
    } else if At(d, p) == 105 {
      var n := ReadInt(d, p);
      r := if n.None? then None else Some((Int(n.value.0), n.value.1));
    } else if At(d, p) == 108 {
      var items := ReadList(d, p + 1);
      r := if items.None? then None else Some((List(items.value.0), items.value.1));
    } else if At(d, p) == 100 {
      var pairs := ReadDict(d, p + 1);
      r := if pairs.None? then None else Some((Dict(pairs.value.0), pairs.value.1));
    } else {
      r := None;
    }
  }

  /** The items still to come, behind those read so far. */
  function ItemsAfter(items: seq<Value>, r: Option<(seq<Value>, nat)>): Option<(seq<Value>, nat)> {
    if r.None? then None else Some((items + r.value.0, r.value.1))
  }

  function PairsAfter(pairs: seq<Pair>, r: Option<(seq<Pair>, nat)>): Option<(seq<Pair>, nat)> {
    if r.None? then None else Some((pairs + r.value.0, r.value.1))
  }

  lemma ItemsStart(r: Option<(seq<Value>, nat)>)
    ensures ItemsAfter([], r) == r
  {
    if r.Some? { assert [] + r.value.0 == r.value.0; }
  }

  lemma PairsStart(r: Option<(seq<Pair>, nat)>)
    ensures PairsAfter([], r) == r
  {
    if r.Some? { assert [] + r.value.0 == r.value.0; }
  }

  lemma ItemsStep(items: seq<Value>, v: Value, r: Option<(seq<Value>, nat)>)
    ensures ItemsAfter(items + [v], r) == ItemsAfter(items, ItemsAfter([v], r))
  {
    if r.Some? { assert items + [v] + r.value.0 == items + ([v] + r.value.0); }
  }

  lemma PairsStep(pairs: seq<Pair>, pair: Pair, r: Option<(seq<Pair>, nat)>)
    ensures PairsAfter(pairs + [pair], r) == PairsAfter(pairs, PairsAfter([pair], r))
  {
    if r.Some? { assert pairs + [pair] + r.value.0 == pairs + ([pair] + r.value.0); }
  }

  /** `parse_list`, behind the `l` */
  method ReadList(d: seq<int>, p: nat) returns (r: Option<(seq<Value>, nat)>)
    requires p <= |d|
    ensures r == ParseItems(false, d, p)
    decreases |d| - p, 1
  {
    var items: seq<Value>, ptr := [], p;
    ItemsStart(ParseItems(false, d, p));
    while ptr < |d| && d[ptr] != 101
      invariant p <= ptr <= |d|
      invariant ItemsAfter(items, ParseItems(false, d, ptr)) == ParseItems(false, d, p)
      decreases |d| - ptr
    {
      var item := ReadValue(d, ptr);
      if item.None? { return None; }
      ItemsStep(items, item.value.0, ParseItems(false, d, item.value.1));
      items := items + [item.value.0];
      ptr := item.value.1;
    }
    if ptr >= |d| { return None; }
    assert items + [] == items;
    return Some((items, ptr + 1));
  }

  /** `parse_dict`, behind the `d` */
  method ReadDict(d: seq<int>, p: nat) returns (r: Option<(seq<Pair>, nat)>)
    requires p <= |d|
    ensures r == ParsePairs(false, d, p)
    decreases |d| - p, 1
  {
    var pairs: seq<Pair>, ptr := [], p;
    PairsStart(ParsePairs(false, d, p));
    while ptr < |d| && d[ptr] != 101
      invariant p <= ptr <= |d|
      invariant PairsAfter(pairs, ParsePairs(false, d, ptr)) == ParsePairs(false, d, p)
      decreases |d| - ptr
    {
      var key := ReadString(d, ptr);
      if key.None? { return None; }
      var value := ReadValue(d, key.value.1);
      if value.None? { return None; }
      PairsStep(pairs, Pair(key.value.0, value.value.0), ParsePairs(false, d, value.value.1));
      pairs := pairs + [Pair(key.value.0, value.value.0)];
      ptr := value.value.1;
    }
    if ptr >= |d| { return None; }
    assert pairs + [] == pairs;
    return Some((pairs, ptr + 1));
  }

  /** `bencode_decode` */
  method BencodeDecode(d: seq<int>) returns (r: Option<Value>)
    ensures r == Decode(false, d)
  {
    var v := ReadValue(d, 0);
    if v.None? || v.value.1 != |d| { return None; }
    return Some(v.value.0);
  }
}
