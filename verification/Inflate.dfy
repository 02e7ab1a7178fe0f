/**
  DEFLATE blocks (section 3.2 of RFC 1951): a reference decoder that reads the input one element at
  a time and writes one byte at a time, and the decoder of stb_image with its bit buffer, its fast
  Huffman tables and its growing output buffer.
 */
module Inflate {
  import opened Bits
  import opened BitStream
  import opened Huffman
  import opened ZBitReader

  /** Base values and extra bits of the length codes (from 257 on) and of the distance codes. */
  datatype Tables = Tables(lengthBase: seq<nat>, lengthExtra: seq<nat>, distBase: seq<nat>, distExtra: seq<nat>)

  ghost predicate TablesOk(t: Tables) {
    && |t.lengthBase| == |t.lengthExtra| == 31 && |t.distBase| == |t.distExtra| == 32
    && (forall z: nat :: z < 29 ==> t.lengthBase[z] > 0)
    && (forall z: nat :: z < 31 ==> t.lengthExtra[z] <= 5)
    && (forall z: nat :: z < 32 ==> t.distExtra[z] <= 13)
    && (forall z: nat :: z < 30 ==> t.distBase[z] > 0)
  }

  type DeflateTables = t: Tables | TablesOk(t)
    witness Tables(seq(31, _ => 1), seq(31, _ => 0), seq(32, _ => 1), seq(32, _ => 0))

  const LENGTH_BASE: seq<nat> := [
    3, 4, 5, 6, 7, 8, 9, 10, 11, 13,
    15, 17, 19, 23, 27, 31, 35, 43, 51, 59,
    67, 83, 99, 115, 131, 163, 195, 227, 258, 0, 0]
  const LENGTH_EXTRA: seq<nat> := [
    0, 0, 0, 0, 0, 0, 0, 0, 1, 1, 1, 1, 2, 2, 2, 2, 3, 3, 3, 3, 4, 4, 4, 4, 5, 5, 5, 5, 0, 0, 0]
  const DIST_BASE: seq<nat> := [
    1, 2, 3, 4, 5, 7, 9, 13, 17, 25, 33, 49, 65, 97, 129, 193,
    257, 385, 513, 769, 1025, 1537, 2049, 3073, 4097, 6145, 8193, 12289, 16385, 24577, 0, 0]
  const DIST_EXTRA: seq<nat> := [
    0, 0, 0, 0, 1, 1, 2, 2, 3, 3, 4, 4, 5, 5, 6, 6, 7, 7, 8, 8, 9, 9, 10, 10, 11, 11, 12, 12, 13, 13, 0, 0]

  lemma LengthBaseOk()
    ensures |LENGTH_BASE| == 31 && forall z: nat :: z < 29 ==> LENGTH_BASE[z] > 0
  {}

  lemma LengthExtraOk()
    ensures |LENGTH_EXTRA| == 31 && forall z: nat :: z < 31 ==> LENGTH_EXTRA[z] <= 5
  {}

  lemma DistExtraOk()
    ensures |DIST_EXTRA| == 32 && forall z: nat :: z < 32 ==> DIST_EXTRA[z] <= 13
  {}

  lemma DistBaseOk()
    ensures |DIST_BASE| == 32 && forall z: nat :: z < 30 ==> DIST_BASE[z] > 0
  {}

  function StandardTables(): DeflateTables {
    LengthBaseOk();
    LengthExtraOk();
    DistExtraOk();
    DistBaseOk();
    Tables(LENGTH_BASE, LENGTH_EXTRA, DIST_BASE, DIST_EXTRA)
  }

  // ---------- the reference decoder ----------

  type Positive = n: nat | n > 0 witness 1

  datatype Element = Literal(b: Byte) | Copy(len: Positive, dist: Positive) | EndOfBlock | Invalid

  /** An element and the bit position after it. */
  datatype Read = Read(e: Element, next: nat)

  /** The element of a compressed block at bit position `p`; `lit` and `dst` give the symbols of the two codes. */
  function ElementAt(t: DeflateTables, lit: seq<Symbol>, dst: seq<Symbol>, bits: seq<bool>, p: nat): Read
    requires p < |lit|
  {
    match lit[p]
    case NoSymbol => Read(Invalid, p)
    case Symbol(s, n) =>
      if s < 256 then Read(Literal(s), p + n)
      else if s == 256 then Read(EndOfBlock, p + n)
      else if s >= 286 then Read(Invalid, p)
      else MatchAt(t, dst, bits, p + n, s - 257)
  }

  function MatchAt(t: DeflateTables, dst: seq<Symbol>, bits: seq<bool>, q: nat, z: nat): Read
    requires z < 29
  {
    DistanceAt(t, dst, bits, q + t.lengthExtra[z], t.lengthBase[z] + Field(bits, q, t.lengthExtra[z]))
  }

  function DistanceAt(t: DeflateTables, dst: seq<Symbol>, bits: seq<bool>, q: nat, len: Positive): Read {
    if q >= |dst| then Read(Invalid, q)
    else
      match dst[q]
      case NoSymbol => Read(Invalid, q)
      case Symbol(s, n) =>
        if s >= 30 then Read(Invalid, q)
        else Read(Copy(len, t.distBase[s] + Field(bits, q + n, t.distExtra[s])), q + n + t.distExtra[s])
  }

  /** Copy `len` bytes from `dist` bytes back, one at a time: the source may overlap what is being written. */
  function CopyBytes(out: seq<Byte>, len: nat, dist: nat): seq<Byte>
    requires 0 < dist <= |out|
    decreases len
  {
    if len == 0 then out else CopyBytes(out + [out[|out| - dist]], len - 1, dist)
  }

  /** A match must not reach back before the start of the output. */
  predicate CanApply(out: seq<Byte>, e: Element) {
    e.Literal? || (e.Copy? && e.dist <= |out|)
  }

  function Applied(out: seq<Byte>, e: Element): seq<Byte>
    requires CanApply(out, e)
  {
    match e
    case Literal(b) => out + [b]
    case Copy(len, dist) => CopyBytes(out, len, dist)
  }

  /** What a decoding ends in: the output and the next bit position, an error, or the end of the input. */
  datatype Outcome = Done(out: seq<Byte>, next: nat) | Bad | Overrun

  /** The elements from bit position `p` on, up to the end of the block, applied to the output so far. */
  function RefBlock(t: DeflateTables, lit: seq<Symbol>, dst: seq<Symbol>, bits: seq<bool>, p: nat,
                    out: seq<Byte>): Outcome
    requires |lit| == |bits| + 1
    decreases |bits| + 1 - p
  {
    if p > |bits| then Overrun
    else
      var r := ElementAt(t, lit, dst, bits, p);
      if r.next > |bits| then Overrun
      else
        match r.e
        case Invalid => Bad
        case EndOfBlock => Done(out, r.next)
        case _ =>
          if !CanApply(out, r.e) || r.next <= p then Bad
          else RefBlock(t, lit, dst, bits, r.next, Applied(out, r.e))
  }

  lemma CopyOne(out: seq<Byte>, b: Byte, len: nat, dist: nat, all: seq<Byte>)
    requires 0 < dist <= |out| && len > 0 && b == out[|out| - dist] && all == out + [b]
    ensures CopyBytes(out, len, dist) == CopyBytes(all, len - 1, dist)
  {
  }

  lemma {:induction false} CopyGrows(out: seq<Byte>, len: nat, dist: nat)
    requires 0 < dist <= |out|
    ensures |CopyBytes(out, len, dist)| == |out| + len && out <= CopyBytes(out, len, dist)
    decreases len
  {
    if len > 0 { CopyGrows(out + [out[|out| - dist]], len - 1, dist); }
  }

  /** A copied byte repeats the byte `dist` before it: the result is periodic from the copy's source on. */
  lemma {:induction false} CopyIsPeriodic(out: seq<Byte>, len: nat, dist: nat, i: nat)
    requires 0 < dist <= |out| && |out| <= i < |out| + len
    ensures |CopyBytes(out, len, dist)| == |out| + len
    ensures CopyBytes(out, len, dist)[i] == CopyBytes(out, len, dist)[i - dist]
    decreases len
  {
    var out' := out + [out[|out| - dist]];
    CopyGrows(out', len - 1, dist);
    var r := CopyBytes(out', len - 1, dist);
    if i == |out| {
      assert r[i] == out'[i] && r[i - dist] == out'[i - dist];
    } else {
      CopyIsPeriodic(out', len - 1, dist, i);
    }
  }

  lemma AppliedGrows(out: seq<Byte>, e: Element)
    requires CanApply(out, e)
    ensures out <= Applied(out, e) && |out| < |Applied(out, e)|
  {
    if e.Copy? { CopyGrows(out, e.len, e.dist); }
  }

  lemma {:induction false} RefBlockGrows(t: DeflateTables, lit: seq<Symbol>, dst: seq<Symbol>, bits: seq<bool>, p: nat,
                                         out: seq<Byte>)
    requires |lit| == |bits| + 1
    ensures var r := RefBlock(t, lit, dst, bits, p, out); r.Done? ==> out <= r.out && p <= r.next <= |bits|
    decreases |bits| + 1 - p
  {
    if p <= |bits| {
      var r := ElementAt(t, lit, dst, bits, p);
      if CanApply(out, r.e) && p < r.next {
        AppliedGrows(out, r.e);
        RefBlockGrows(t, lit, dst, bits, r.next, Applied(out, r.e));
      }
    }
  }

  /** The length codes 257..284 with their extra bits, and 285, cover the lengths 3..258 without a gap. */
  lemma LengthCodesTile(z: nat)
    requires z < 28
    ensures z < 27 ==> LENGTH_BASE[z + 1] == LENGTH_BASE[z] + Pow2(LENGTH_EXTRA[z])
    ensures z == 27 ==> LENGTH_BASE[z] + Pow2(LENGTH_EXTRA[z]) == 259 && LENGTH_BASE[28] == 258
  {
    Pow2Values();
  }

  /** The extra bits of section 3.2.5 of RFC 1951 in closed form, and where the lengths and distances begin. */
  lemma ExtraBits(z: nat)
    ensures z < 29 ==> LENGTH_EXTRA[z] == if z < 4 || z == 28 then 0 else z / 4 - 1
    ensures z < 30 ==> DIST_EXTRA[z] == if z < 2 then 0 else z / 2 - 1
    ensures LENGTH_BASE[0] == 3 && LENGTH_BASE[28] == 258 && DIST_BASE[0] == 1
  {
  }

  /** The distance codes with their extra bits cover the distances 1..32768 without a gap. */
  lemma DistanceCodesTile(z: nat)
    requires z < 30
    ensures DIST_BASE[0] == 1
    ensures DIST_BASE[z] + Pow2(DIST_EXTRA[z]) == if z < 29 then DIST_BASE[z + 1] else 32769
  {
    Pow2Values();
    assert Pow2(10) == 1024 && Pow2(11) == 2048;
  }

  // ---------- the decoder's own stopping rule ----------

  /**
    The decoder reads ahead, and goes on in zero bits behind the input. It gives up when its buffer runs short for a
    second time there, when a block ends in the counted padding, or when the output outgrows `limit`.
   */
  datatype Taken = Refuse | Taken(e: Element, s: Cursor)

  function TakeElement(t: DeflateTables, lit: seq<Symbol>, dst: seq<Symbol>, bits: seq<bool>, size: nat,
                       s: Cursor): Taken
    requires lit != [] && dst != []
  {
    match DecodeSym(lit, size, s)
    case NoCode => Refuse
    case Decoded(v, s') =>
      if v < 256 then Taken(Literal(v), s')
      else if v == 256 then Taken(EndOfBlock, s')
      else if v >= 286 then Refuse
      else TakeMatch(t, dst, bits, size, s', v - 257)
  }

  function TakeMatch(t: DeflateTables, dst: seq<Symbol>, bits: seq<bool>, size: nat, s: Cursor, z: nat): Taken
    requires z < 29 && dst != []
  {
    TakeDistance(t, dst, bits, size, Received(s, t.lengthExtra[z]),
                 t.lengthBase[z] + Field(bits, s.p, t.lengthExtra[z]))
  }

  function TakeDistance(t: DeflateTables, dst: seq<Symbol>, bits: seq<bool>, size: nat, s: Cursor, len: Positive): Taken
    requires dst != []
  {
    match DecodeSym(dst, size, s)
    case NoCode => Refuse
    case Decoded(v, s') =>
      if v >= 30 then Refuse
      else Taken(Copy(len, t.distBase[v] + Field(bits, s'.p, t.distExtra[v])), Received(s', t.distExtra[v]))
  }

  datatype Counted = Refused | Accepted(out: seq<Byte>, s: Cursor)

  /** The padding has been counted, and some of it has been used. */
  predicate InPadding(s: Cursor) {
    s.hit && 8 * s.f < s.p + 16
  }

  function CountedBlock(t: DeflateTables, lit: seq<Symbol>, dst: seq<Symbol>, bits: seq<bool>, size: nat, s: Cursor,
                        out: seq<Byte>, limit: nat): Counted
    requires lit != [] && dst != []
    decreases limit - |out|
  {
    match TakeElement(t, lit, dst, bits, size, s)
    case Refuse => Refused
    case Taken(e, s') =>
      if e.EndOfBlock? then
        if InPadding(s') then Refused else Accepted(out, s')
      else if !CanApply(out, e) || |Applied(out, e)| > limit then Refused
      else
        AppliedGrows(out, e);
        CountedBlock(t, lit, dst, bits, size, s', Applied(out, e), limit)
  }

  // ---------- the output buffer ----------

  const UINT_MAX: nat := 0xFFFF_FFFF

  /** How far doubling takes a buffer. */
  function MaxCapacity(c: nat): (m: nat)
    requires 0 < c <= UINT_MAX
    ensures c <= m <= UINT_MAX && UINT_MAX / 2 < m
    decreases UINT_MAX - c
  {
    if c > UINT_MAX / 2 then c else MaxCapacity(c * 2)
  }

  /** The capacity after `k` turns of the doubling loop. */
  function Doubled(limit: nat, k: nat): nat
    decreases k
  {
    if k == 0 then limit else Doubled(limit * 2, k - 1)
  }

  /** After `k` turns a test ends the loop, with room for `need` bytes or with an error. */
  predicate StopsAfter(limit: nat, need: nat, k: nat) {
    need <= Doubled(limit, k) || Doubled(limit, k) > UINT_MAX / 2
  }

  lemma {:induction false} DoubledZero(k: nat)
    ensures Doubled(0, k) == 0
  {
    if k > 0 { DoubledZero(k - 1); }
  }

  lemma {:induction false} DoublingStops(limit: nat, need: nat) returns (k: nat)
    requires limit > 0
    ensures StopsAfter(limit, need, k)
    decreases UINT_MAX - limit
  {
    k := 0;
    if !StopsAfter(limit, need, 0) {
      k := DoublingStops(limit * 2, need);
      k := k + 1;
    }
  }

  /**
    For a buffer that lacks room, the loop ends exactly when the buffer is not empty: any number of doublings of zero is
    zero.
   */
  lemma DoublingEnds(limit: nat, need: nat)
    requires limit < need
    ensures limit > 0 <==> exists k: nat :: StopsAfter(limit, need, k)
  {
    if limit > 0 {
      var k := DoublingStops(limit, need);
    } else {
      forall k: nat ensures !StopsAfter(limit, need, k) { DoubledZero(k); }
    }
  }

  class Output {
    var buf: array<Byte>      // zout_start .. zout_end
    var len: nat              // zout - zout_start
    const expandable: bool

    ghost predicate Valid()
      reads this
    {
      len <= buf.Length <= UINT_MAX && (expandable ==> buf.Length > 0)
    }

    ghost function Contents(): seq<Byte>
      requires Valid()
      reads this, buf
    {
      buf[..len]
    }

    /** Output up to this size finds room, and no more. */
    ghost function Limit(): nat
      requires Valid()
      reads this
    {
      if expandable then MaxCapacity(buf.Length) else buf.Length
    }

    constructor (capacity: nat, exp: bool)
      requires capacity <= UINT_MAX && (exp ==> capacity > 0)
      ensures Valid() && Contents() == [] && fresh(buf) && expandable == exp
      ensures Limit() == if exp then MaxCapacity(capacity) else capacity
    {
      buf := new Byte[capacity];
      len := 0;
      expandable := exp;
    }

    /** Make room for `n` bytes by doubling; the bytes written so far stay. */
    method Expand(n: nat) returns (ok: bool)
      requires Valid() && len + n > buf.Length
      modifies this`buf
      ensures Valid() && Contents() == old(Contents()) && Limit() == old(Limit())
      ensures ok <==> len + n <= Limit()
      ensures if ok then len + n <= buf.Length && fresh(buf) else buf == old(buf)
    {
      if !expandable { return false; }
      if UINT_MAX - len < n { return false; }
      var limit := buf.Length;
      while len + n > limit
        invariant 0 < limit <= UINT_MAX && buf.Length <= limit && MaxCapacity(limit) == MaxCapacity(buf.Length)
        decreases UINT_MAX - limit
      {
        if limit > UINT_MAX / 2 { return false; }
        limit := limit * 2;
      }
      var q := new Byte[limit];
      forall i | 0 <= i < len { q[i] := buf[i]; }
      buf := q;
      ok := true;
    }

    method Put(b: Byte) returns (ok: bool)
      requires Valid()
      modifies this, buf
      ensures Valid() && Limit() == old(Limit()) && (buf == old(buf) || fresh(buf))
      ensures ok <==> old(len) + 1 <= Limit()
      ensures Contents() == if ok then old(Contents()) + [b] else old(Contents())
    {
      if len >= buf.Length {
        ok := Expand(1);
        if !ok { return; }
      }
      buf[len] := b;
      len := len + 1;
      ok := true;
    }

    /** Append a run of bytes of the input. */
    method Append(src: seq<Byte>) returns (ok: bool)
      requires Valid()
      modifies this, buf
      ensures Valid() && Limit() == old(Limit()) && (buf == old(buf) || fresh(buf))
      ensures ok <==> old(len) + |src| <= Limit()
      ensures Contents() == if ok then old(Contents()) + src else old(Contents())
    {
      if len + |src| > buf.Length {
        ok := Expand(|src|);
        if !ok { return; }
      }
      forall i | 0 <= i < |src| { buf[len + i] := src[i]; }
      len := len + |src|;
      ok := true;
    }

    /** Write a literal or a match; failure means an invalid distance or no room. */
    method Write(e: Element) returns (ok: bool)
      requires Valid() && (e.Literal? || e.Copy?)
      modifies this, buf
      ensures Valid() && Limit() == old(Limit()) && (buf == old(buf) || fresh(buf))
      ensures ok <==> CanApply(old(Contents()), e) && |Applied(old(Contents()), e)| <= Limit()
      ensures ok ==> Contents() == Applied(old(Contents()), e)
    {
      match e
      case Literal(b) =>
        ok := Put(b);
      case Copy(n, dist) =>
        if len < dist { return false; }
        CopyGrows(Contents(), n, dist);
        ok := CopyMatch(n, dist);
    }

    method CopyMatch(n: nat, dist: nat) returns (ok: bool)
      requires Valid() && 0 < dist <= len
      modifies this, buf
      ensures Valid() && Limit() == old(Limit()) && (buf == old(buf) || fresh(buf))
      ensures ok <==> old(len) + n <= Limit()
      ensures ok ==> Contents() == CopyBytes(old(Contents()), n, dist)
    {
      if n > buf.Length - len {
        ok := Expand(n);
        if !ok { return; }
      }
      ok := true;
      if dist == 1 {
        FillRun(n);
      } else {
        CopyRun(n, dist);
      }
    }

    /** Repeat the last byte. */
    method FillRun(n: nat)
      requires Valid() && 1 <= len && len + n <= buf.Length
      modifies this`len, buf
      ensures Valid() && Contents() == CopyBytes(old(Contents()), n, 1)
    {
      ghost var target := CopyBytes(Contents(), n, 1);
      var v := buf[len - 1];
      var k := n;
      while k > 0
        invariant Valid() && 1 <= len && len + k <= buf.Length && buf[len - 1] == v
        invariant CopyBytes(Contents(), k, 1) == target
      {
        ghost var before := Contents();
        buf[len] := v;
        len := len + 1;
        CopyOne(before, v, k, 1, Contents());
        k := k - 1;
      }
    }

    method CopyRun(n: nat, dist: nat)
      requires Valid() && 0 < dist <= len && len + n <= buf.Length
      modifies this`len, buf
      ensures Valid() && Contents() == CopyBytes(old(Contents()), n, dist)
    {
      ghost var target := CopyBytes(Contents(), n, dist);
      var p: nat := len - dist;
      var k := n;
      while k > 0
        invariant Valid() && len + k <= buf.Length && p + dist == len
        invariant CopyBytes(Contents(), k, dist) == target
      {
        ghost var before := Contents();
        var b := buf[p];
        buf[len] := b;
        len := len + 1;
        CopyOne(before, b, k, dist, Contents());
        p := p + 1;
        k := k - 1;
      }
    }
  }

  // ---------- one compressed block ----------

  class Inflater {
    const reader: BitReader
    const zout: Output
    const t: DeflateTables
    const zLength: ZHuffman
    const zDistance: ZHuffman

    ghost predicate Apart()
      reads zout
    {
      && zLength.Shape() && zDistance.Shape()
      && zLength.Apart(zDistance.fast) && zLength.Apart(zDistance.firstCode) && zLength.Apart(zDistance.maxCode)
      && zLength.Apart(zDistance.firstSymbol) && zLength.Apart(zDistance.size) && zLength.Apart(zDistance.value)
    }

    ghost predicate Valid()
      reads reader, zout
    {
      reader.Valid() && zout.Valid() && Apart()
    }

    constructor (data: seq<Byte>, capacity: nat, exp: bool)
      requires capacity <= UINT_MAX && (exp ==> capacity > 0)
      ensures Valid() && fresh(reader) && fresh(zout) && fresh(zout.buf) && fresh(zLength.Tables())
      ensures fresh(zDistance.Tables())
      ensures t == StandardTables() && reader.input == data && reader.bits == BitsOfBytes(data)
      ensures reader.numBits == 0 && reader.State() == Cursor(0, 0, false)
      ensures zout.Contents() == [] && zout.Limit() == if exp then MaxCapacity(capacity) else capacity
    {
      reader := new BitReader(data);
      zout := new Output(capacity, exp);
      t := StandardTables();
      zLength := new ZHuffman();
      zDistance := new ZHuffman();
    }

    /** Decode the distance of a match, with its extra bits. */
    method ReadDistance(ghost dl: seq<nat>, ghost dst: seq<Symbol>, len: Positive) returns (e: Element)
      requires Valid() && zDistance.Represents(dl) && Reads(dst, dl, reader.bits)
      modifies reader
      ensures Valid()
      ensures TakeDistance(t, dst, reader.bits, |reader.input|, old(reader.State()), len)
           == if e.Invalid? then Refuse else Taken(e, reader.State())
    {
      var z := reader.HuffmanDecode(dl, dst, zDistance);
      if z < 0 || z >= 30 { return Invalid; }
      var extra := reader.Receive(t.distExtra[z]);
      e := Copy(len, t.distBase[z] + extra);
    }

    /** Decode the rest of a match after its length code. */
    method ReadMatch(ghost dl: seq<nat>, ghost dst: seq<Symbol>, z: nat) returns (e: Element)
      requires Valid() && zDistance.Represents(dl) && Reads(dst, dl, reader.bits) && z < 29
      modifies reader
      ensures Valid()
      ensures TakeMatch(t, dst, reader.bits, |reader.input|, old(reader.State()), z)
           == if e.Invalid? then Refuse else Taken(e, reader.State())
    {
      var extra := reader.Receive(t.lengthExtra[z]);
      e := ReadDistance(dl, dst, t.lengthBase[z] + extra);
    }

    /** Decode one element, with its extra bits. */
    method ReadElement(ghost ll: seq<nat>, ghost dl: seq<nat>, ghost lit: seq<Symbol>,
                       ghost dst: seq<Symbol>) returns (e: Element)
      requires Valid() && zLength.Represents(ll) && Reads(lit, ll, reader.bits)
      requires zDistance.Represents(dl) && Reads(dst, dl, reader.bits)
      modifies reader
      ensures Valid()
      ensures TakeElement(t, lit, dst, reader.bits, |reader.input|, old(reader.State()))
           == if e.Invalid? then Refuse else Taken(e, reader.State())
    {
      var z := reader.HuffmanDecode(ll, lit, zLength);
      if z < 256 {
        if z < 0 { return Invalid; }
        return Literal(z);
      }
      if z == 256 { return EndOfBlock; }
      if z >= 286 { return Invalid; }
      e := ReadMatch(dl, dst, z - 257);
    }

    /** What the stopping rule makes of the rest of the block. */
    ghost function Rest(lit: seq<Symbol>, dst: seq<Symbol>): Counted
      requires zout.Valid() && lit != [] && dst != []
      reads reader, zout, zout.buf
    {
      CountedBlock(t, lit, dst, reader.bits, |reader.input|, reader.State(), zout.Contents(), zout.Limit())
    }

    ghost function Result(ok: bool): Counted
      requires zout.Valid()
      reads reader, zout, zout.buf
    {
      if ok then Accepted(zout.Contents(), reader.State()) else Refused
    }

    /** One turn of the block loop. */
    method Step(ghost ll: seq<nat>, ghost dl: seq<nat>, ghost lit: seq<Symbol>, ghost dst: seq<Symbol>)
      returns (more: bool, ok: bool)
      requires Valid() && zLength.Represents(ll) && Reads(lit, ll, reader.bits)
      requires zDistance.Represents(dl) && Reads(dst, dl, reader.bits)
      modifies reader, zout, zout.buf
      ensures Valid() && zout.Limit() == old(zout.Limit()) && (zout.buf == old(zout.buf) || fresh(zout.buf))
      ensures more ==> zout.len > old(zout.len)
      ensures old(Rest(lit, dst)) == if more then Rest(lit, dst) else Result(ok)
    {
      ghost var out := zout.Contents();
      var e := ReadElement(ll, dl, lit, dst);
      if e.Invalid? { return false, false; }
      if e.EndOfBlock? {
        return false, !(reader.hitZeofOnce && reader.numBits < 16);
      }
      ok := zout.Write(e);
      more := ok;
      if ok { AppliedGrows(out, e); }
    }

    /** Decode elements up to the end-of-block code. */
    method ParseHuffmanBlock(ghost ll: seq<nat>, ghost dl: seq<nat>, ghost lit: seq<Symbol>, ghost dst: seq<Symbol>)
      returns (ok: bool)
      requires Valid() && zLength.Represents(ll) && Reads(lit, ll, reader.bits)
      requires zDistance.Represents(dl) && Reads(dst, dl, reader.bits)
      modifies reader, zout, zout.buf
      ensures Valid() && zout.Limit() == old(zout.Limit()) && (zout.buf == old(zout.buf) || fresh(zout.buf))
      ensures CountedBlock(t, lit, dst, reader.bits, |reader.input|, old(reader.State()), old(zout.Contents()),
        zout.Limit())
           == Result(ok)
    {
      ghost var target := Rest(lit, dst);
      var more := true;
      ok := false;
      while more
        invariant Valid() && zLength.Represents(ll) && zDistance.Represents(dl)
        invariant zout.Limit() == old(zout.Limit()) && (zout.buf == old(zout.buf) || fresh(zout.buf))
        invariant target == if more then Rest(lit, dst) else Result(ok)
        decreases more, UINT_MAX - zout.len
      {
        more, ok := Step(ll, dl, lit, dst);
      }
    }
  }
}
