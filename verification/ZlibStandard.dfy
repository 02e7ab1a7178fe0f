/**
  The decoding that RFC 1950 and RFC 1951 ask for. It makes three tests that the source leaves out: the window size of
  the header, the number of literal and length codes of a dynamic block, and the checksum behind the blocks.
 */
module ZlibStandard {
  import opened Bits
  import opened BitStream
  import opened Inflate
  import opened ZlibBlocks

  const MAX_LITERAL_LENGTHS: nat := 286
  const MAX_WINDOW_INFO: nat := 7

  /** A dynamic block at `p` announces more literal and length codes than section 3.2.7 of RFC 1951 allows. */
  predicate TooManyLengths(bits: seq<bool>, kind: nat, p: nat) {
    kind == 2 && Field(bits, p, 5) + 257 > MAX_LITERAL_LENGTHS
  }

  ghost function RefBody(t: DeflateTables, order: Order, input: seq<Byte>, bits: seq<bool>, kind: nat, p: nat,
                         out: seq<Byte>): Outcome {
    if TooManyLengths(bits, kind, p) then Bad else LaxBody(t, order, input, bits, kind, p, out)
  }

  /** Blocks up to and including the one marked final. */
  ghost function RefBlocks(t: DeflateTables, order: Order, input: seq<Byte>, bits: seq<bool>, p: nat,
                           out: seq<Byte>): Outcome
    decreases |bits| + 1 - p
  {
    if p > |bits| then Overrun
    else
      var r := RefBody(t, order, input, bits, Field(bits, p + 1, 2), p + 3, out);
      if !r.Done? || Field(bits, p, 1) == 1 then r
      else if r.next <= p then Bad
      else RefBlocks(t, order, input, bits, r.next, r.out)
  }

  /** The header names a window beyond 32K, which section 2.2 of RFC 1950 does not allow. */
  predicate WideWindow(input: seq<Byte>) {
    HeaderTaken(input) && input[0] / 16 > MAX_WINDOW_INFO
  }

  /** The two sums of section 8.2 of RFC 1950. */
  datatype Sums = Sums(a: nat, b: nat)

  const ADLER_BASE: nat := 65521

  function SumsOf(data: seq<Byte>): Sums {
    if data == [] then Sums(1, 0)
    else
      var s := SumsOf(data[..|data| - 1]);
      var a := (s.a + data[|data| - 1]) % ADLER_BASE;
      Sums(a, (s.b + a) % ADLER_BASE)
  }

  function Adler32(data: seq<Byte>): nat {
    65536 * SumsOf(data).b + SumsOf(data).a
  }

  /** The four bytes at `k`, most significant first. */
  function BigEndian(input: seq<Byte>, k: nat): nat
    requires k + 4 <= |input|
  {
    ((input[k] as int * 256 + input[k + 1]) * 256 + input[k + 2]) * 256 + input[k + 3]
  }

  /** After the last block, at the next byte boundary, stands the checksum of the output. */
  function Checked(input: seq<Byte>, r: Outcome): Outcome {
    if !r.Done? then r
    else
      var k := (r.next + 7) / 8;
      if k + 4 > |input| then Overrun else if BigEndian(input, k) != Adler32(r.out) then Bad else r
  }

  ghost function RefZlib(input: seq<Byte>): Outcome {
    if !HeaderTaken(input) || WideWindow(input) then Bad
    else Checked(input, RefBlocks(StandardTables(), StandardOrder(), input, BitsOfBytes(input), 16, []))
  }

  /** Some dynamic block of the stream announces too many literal and length codes. */
  ghost predicate WideTables(t: DeflateTables, order: Order, input: seq<Byte>, bits: seq<bool>, p: nat, out: seq<Byte>)
    decreases |bits| + 1 - p
  {
    && p <= |bits|
    && var kind := Field(bits, p + 1, 2);
       var r := LaxBody(t, order, input, bits, kind, p + 3, out);
       || TooManyLengths(bits, kind, p + 3)
       || (r.Done? && Field(bits, p, 1) != 1 && p < r.next && WideTables(t, order, input, bits, r.next, r.out))
  }

  ghost predicate WideStream(input: seq<Byte>) {
    WideTables(StandardTables(), StandardOrder(), input, BitsOfBytes(input), 16, [])
  }

  /** But for the blocks it refuses, the standard's decoding is the one without the test. */
  lemma {:induction false} BlocksStricter(t: DeflateTables, order: Order, input: seq<Byte>, bits: seq<bool>, p: nat,
                                          out: seq<Byte>)
    ensures RefBlocks(t, order, input, bits, p, out) ==
      if WideTables(t, order, input, bits, p, out) then Bad else LaxBlocks(t, order, input, bits, p, out)
    decreases |bits| + 1 - p
  {
    if p <= |bits| {
      var r := LaxBody(t, order, input, bits, Field(bits, p + 1, 2), p + 3, out);
      if r.Done? && p < r.next { BlocksStricter(t, order, input, bits, r.next, r.out); }
    }
  }

  /** The standard's decoding of a stream, from the decoding without the three tests and their outcomes. */
  lemma Stricter(input: seq<Byte>)
    ensures RefZlib(input) ==
      if WideWindow(input) || (HeaderTaken(input) && WideStream(input)) then Bad else Checked(input, LaxZlib(input))
  {
    BlocksStricter(StandardTables(), StandardOrder(), input, BitsOfBytes(input), 16, []);
  }
}
