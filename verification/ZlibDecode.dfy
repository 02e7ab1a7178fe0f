/**
  The entry point of the zlib decoder, against the decoding that the standards ask for: what it makes of valid, invalid
  and truncated streams, and the three tests it leaves out.
 */
module ZlibDecode {
  import opened Bits
  import opened BitStream
  import opened Huffman
  import opened ZBitReader
  import opened Inflate
  import opened ZlibBlocks
  import opened Zlib
  import opened ZlibStandard
  import opened ZlibOverrun

  // ---------- the standard's decoding ----------

  /** Every valid stream is decoded to its output, if there is room for it. */
  lemma ValidDecoded(input: seq<Byte>, limit: nat)
    requires RefZlib(input).Done?
    ensures var c := CountedZlib(input, limit);
      if |RefZlib(input).out| <= limit then c.Accepted? && c.out == RefZlib(input).out else c == Refused
  {
    Stricter(input);
    IntactAgrees(input, limit);
  }

  /** The stream fails one of the tests that the source does not make. */
  ghost predicate Lenient(input: seq<Byte>) {
    && LaxZlib(input).Done?
    && (WideWindow(input) || WideStream(input) || !Checked(input, LaxZlib(input)).Done?)
  }

  /**
    For streams whose blocks do not run out of input, when there is room: the decoder accepts exactly the valid ones,
    but for those with too wide a window, too many lengths, or a checksum that is missing or wrong. It accepts all of
    these.
   */
  lemma AgreesUnlessLenient(input: seq<Byte>, limit: nat)
    requires !LaxZlib(input).Overrun? && (LaxZlib(input).Done? ==> |LaxZlib(input).out| <= limit)
    ensures CountedZlib(input, limit).Accepted? <==> RefZlib(input).Done? || Lenient(input)
    ensures Lenient(input) ==> !RefZlib(input).Done?
  {
    Stricter(input);
    IntactAgrees(input, limit);
  }

  // ---------- streams that fail only those tests ----------

  /** A final block of fixed codes with nothing in it, and a zero byte behind it. */
  predicate EmptyBlock(input: seq<Byte>) {
    |input| >= 5 && input[2] == 3 && input[3] == 0 && input[4] == 0
  }

  lemma EmptyBits(input: seq<Byte>, bits: seq<bool>, m: nat)
    requires EmptyBlock(input) && bits == BitsOfBytes(input) && m <= 21
    ensures Field(bits, 16, 1) == 1 && Field(bits, 17, 2) == 1 && Field(bits, 19, m) == 0
  {
    forall q: nat | 18 <= q < 40 ensures InBit(bits, q) == 0 {
      if q < 24 {
        assert q / 8 == 2 && q % 8 == q - 16;
        assert Pow2(2) == 4;
        BitAbove(3, 2, q - 16);
      } else {
        assert q / 8 == 3 || q / 8 == 4;
        BitOfZero(q % 8);
      }
    }
    assert InBit(bits, 16) == 1 && InBit(bits, 17) == 1 by {
      assert Bit(3, 0) == 1 && Bit(3, 1) == 1;
    }
    assert Field(bits, 17, 0) == 0 && Field(bits, 18, 1) == InBit(bits, 18) + 2 * Field(bits, 19, 0);
    forall i: nat | i < m ensures Bit(0, i) == InBit(bits, 19 + i) { BitOfZero(i); }
    HoldsIsField(bits, 19, m, 0);
  }

  lemma EmptyOnly(t: DeflateTables, order: Order, input: seq<Byte>, bits: seq<bool>, lens: seq<nat>)
    requires |bits| >= 40 && lens == DefaultLengths()
    requires Field(bits, 16, 1) == 1 && Field(bits, 17, 2) == 1 && Field(bits, 19, 16) == 0
    ensures LaxBlocks(t, order, input, bits, 16, []) == Done([], 26)
    ensures !WideTables(t, order, input, bits, 16, [])
  {
    EndAt(lens, bits, 19, 16);
    var lit := SymbolsOf(lens, bits);
    assert lit[19] == Symbol(256, 7);
    assert RefBlock(t, lit, SymbolsOf(DefaultDistances(), bits), bits, 19, []) == Done([], 26);
  }

  /** The empty output of such a stream, with the checksum that follows. */
  lemma EmptyStream(input: seq<Byte>, limit: nat)
    requires EmptyBlock(input) && HeaderTaken(input) && |input| == 8
    ensures LaxZlib(input) == Done([], 26) && !WideStream(input)
    ensures CountedZlib(input, limit).Accepted? && CountedZlib(input, limit).out == []
    ensures RefZlib(input) == if WideWindow(input) || BigEndian(input, 4) != 1 then Bad else Done([], 26)
  {
    EmptyDecodes(input);
    EmptyChecked(input);
    IntactAgrees(input, limit);
  }

  lemma EmptyDecodes(input: seq<Byte>)
    requires EmptyBlock(input) && HeaderTaken(input)
    ensures LaxZlib(input) == Done([], 26) && !WideStream(input)
  {
    var bits := BitsOfBytes(input);
    EmptyBits(input, bits, 16);
    EmptyOnly(StandardTables(), StandardOrder(), input, bits, DefaultLengths());
  }

  lemma EmptyChecked(input: seq<Byte>)
    requires HeaderTaken(input) && |input| == 8 && LaxZlib(input) == Done([], 26) && !WideStream(input)
    ensures RefZlib(input) == if WideWindow(input) || BigEndian(input, 4) != 1 then Bad else Done([], 26)
  {
    Stricter(input);
    assert Adler32([]) == 1;
  }

  const VALID: seq<Byte> := [0x78, 0x01, 3, 0, 0, 0, 0, 1]
  const WIDE_WINDOW: seq<Byte> := [0x88, 0x1C, 3, 0, 0, 0, 0, 1]
  const WRONG_CHECKSUM: seq<Byte> := [0x78, 0x01, 3, 0, 0, 0, 0, 0]

  lemma ValidAccepted(limit: nat)
    ensures RefZlib(VALID) == Done([], 26)
    ensures CountedZlib(VALID, limit).Accepted?
  {
    GoodHeader(VALID);
    EmptyStream(VALID, limit);
  }

  /** The same with a header that names a window of 64K is accepted, although the standard has no such window. */
  lemma WideWindowAccepted(limit: nat)
    ensures RefZlib(WIDE_WINDOW) == Bad
    ensures CountedZlib(WIDE_WINDOW, limit).Accepted?
  {
    WideHeader(WIDE_WINDOW);
    EmptyStream(WIDE_WINDOW, limit);
  }

  /** A wrong checksum is not noticed. */
  lemma WrongChecksumAccepted(limit: nat)
    ensures RefZlib(WRONG_CHECKSUM) == Bad
    ensures CountedZlib(WRONG_CHECKSUM, limit).Accepted?
  {
    GoodHeader(WRONG_CHECKSUM);
    EmptyStream(WRONG_CHECKSUM, limit);
  }

  lemma GoodHeader(input: seq<Byte>)
    requires |input| > 2 && input[0] == 0x78 && input[1] == 0x01
    ensures HeaderTaken(input) && !WideWindow(input)
  {
    assert 256 * 0x78 + 1 == 31 * 991;
    assert Bit(1, 5) == 0 by { BitAbove(1, 1, 5); }
    LowOfSum(8, 7, 4);
    assert Shl(7, 4) == 112;
  }

  lemma WideHeader(input: seq<Byte>)
    requires |input| > 2 && input[0] == 0x88 && input[1] == 0x1C
    ensures HeaderTaken(input) && WideWindow(input)
  {
    assert 256 * 0x88 + 0x1C == 31 * 1124;
    assert Bit(0x1C, 5) == 0 by { Pow2Values(); BitAbove(0x1C, 5, 5); }
    LowOfSum(8, 8, 4);
    assert Shl(8, 4) == 128;
  }

  // ---------- the entry point ----------

  datatype Unpacked = Unpacked(data: seq<Byte>) | Corrupt

  /** What the outcome says of the input: the standard's decoding, or that of its blocks and `SLACK` zero bytes. */
  ghost predicate Meant(input: seq<Byte>, limit: nat, r: Unpacked) {
    && (RefZlib(input).Done? ==>
        r == if |RefZlib(input).out| <= limit then Unpacked(RefZlib(input).out) else Corrupt)
    && (RefZlib(input).Bad? && r.Unpacked? ==> LaxZlib(input).Overrun? || Lenient(input))
    && (Lenient(input) && |LaxZlib(input).out| <= limit ==> r == Unpacked(LaxZlib(input).out))
    && (r.Unpacked? ==> LaxZlib(input + Zeros(SLACK)).Done? && LaxZlib(input + Zeros(SLACK)).out == r.data)
  }

  lemma OutcomeMeant(input: seq<Byte>, limit: nat, r: Unpacked)
    requires var c := CountedZlib(input, limit); r == if c.Accepted? then Unpacked(c.out) else Corrupt
    ensures Meant(input, limit, r)
  {
    Stricter(input);
    IntactAgrees(input, limit);
    if r.Unpacked? { AcceptedIsZeroExtended(input, limit, SLACK); }
  }

  /** Decode a zlib stream into a buffer that starts with room for `initialSize` bytes and grows by doubling. */
  method DecodeMallocGuessSize(input: seq<Byte>, initialSize: nat) returns (r: Unpacked)
    requires 0 < initialSize <= UINT_MAX
    ensures var c := CountedZlib(input, MaxCapacity(initialSize)); r == if c.Accepted? then Unpacked(c.out) else Corrupt
    ensures Meant(input, MaxCapacity(initialSize), r)
  {
    r := Unpack(input, initialSize);
    OutcomeMeant(input, MaxCapacity(initialSize), r);
  }

  method Unpack(input: seq<Byte>, initialSize: nat) returns (r: Unpacked)
    requires 0 < initialSize <= UINT_MAX
    ensures var c := CountedZlib(input, MaxCapacity(initialSize)); r == if c.Accepted? then Unpacked(c.out) else Corrupt
  {
    r := Corrupt;
    var z := new Inflater(input, initialSize, true);
    var ok := ParseZlibHeader(z);
    if ok { ok := ParseBlocks(z, StandardOrder()); }
    if ok { r := Unpacked(z.zout.buf[..z.zout.len]); }
  }
}
