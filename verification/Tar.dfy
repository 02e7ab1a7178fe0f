/**
  The streaming ustar back end (FINAL/src/tar.c), and a reader of the ustar interchange format of pax
  (IEEE Std 1003.1) that checks what it reads.
 */
module TarHeader {
  import opened Bits

  // ---------- numeric fields ----------

  /** `%0<width>o`: octal digits, padded with zeros to `width`. */
  function Octal(v: nat, width: nat): (s: seq<Byte>)
    ensures |s| >= 1 && |s| >= width
    decreases v, width
  {
    if v < 8 && width <= 1 then [48 + v]
    else Octal(v / 8, if width == 0 then 0 else width - 1) + [48 + v % 8]
  }

  /** `oct_to_str`: the value is narrowed to 32 bits, and the text to `size - 1` characters and a NUL. */
  function OctField(v: nat, size: nat): (s: seq<Byte>)
    requires size >= 3
    ensures |s| == size
  {
    var text := Octal(v % 0x1_0000_0000, size - 2) + [32];
    text[..size - 1] + [0]
  }

  predicate OctDigit(b: int) {
    48 <= b < 56
  }

  /** What a reader makes of a numeric field: the leading octal digits. */
  function ParseOct(s: seq<int>, acc: nat): nat {
    if s == [] || !OctDigit(s[0]) then acc else ParseOct(s[1..], 8 * acc + (s[0] - 48))
  }

  lemma {:induction false} ParseDigits(d: seq<Byte>, x: Byte, rest: seq<Byte>, acc: nat)
    requires forall i :: 0 <= i < |d| ==> OctDigit(d[i])
    requires OctDigit(x)
    requires rest == [] || !OctDigit(rest[0])
    ensures ParseOct(d + [x] + rest, acc) == 8 * ParseOct(d + rest, acc) + (x - 48)
  {
    if d == [] {
      assert [] + [x] + rest == [x] + rest;
      assert ([x] + rest)[1..] == rest;
      assert [] + rest == rest;
    } else {
      assert (d + [x] + rest)[1..] == d[1..] + [x] + rest;
      assert (d + rest)[1..] == d[1..] + rest;
      ParseDigits(d[1..], x, rest, 8 * acc + (d[0] - 48));
    }
  }

  lemma {:induction false} OctalIsDigits(v: nat, width: nat)
    ensures forall i :: 0 <= i < |Octal(v, width)| ==> OctDigit(Octal(v, width)[i])
    decreases v, width
  {
    if !(v < 8 && width <= 1) { OctalIsDigits(v / 8, if width == 0 then 0 else width - 1); }
  }

  lemma {:induction false} ParseOctal(v: nat, width: nat, rest: seq<Byte>)
    requires rest == [] || !OctDigit(rest[0])
    ensures ParseOct(Octal(v, width) + rest, 0) == v
    decreases v, width
  {
    if v < 8 && width <= 1 {
      assert ([48 + v] + rest)[1..] == rest;
    } else {
      var w := if width == 0 then 0 else width - 1;
      OctalIsDigits(v / 8, w);
      ParseDigits(Octal(v / 8, w), 48 + v % 8, rest, 0);
      ParseOctal(v / 8, w, rest);
    }
  }

  function Pow8(n: nat): nat {
    if n == 0 then 1 else 8 * Pow8(n - 1)
  }

  lemma Powers(n: nat)
    ensures n == 6 ==> Pow8(n) == 0x4_0000
    ensures n == 10 ==> Pow8(n) == 0x4000_0000 && Pow8(n - 1) == 0x800_0000
  {
    assert Pow8(3) == 0x200;
    assert Pow8(6) == 0x4_0000;
    assert Pow8(9) == 0x800_0000;
    assert Pow8(10) == 0x4000_0000;
  }

  /** Values below `8 ** width` take exactly `width` digits. */
  lemma {:induction false} OctalWidth(v: nat, width: nat)
    requires width >= 1 && v < Pow8(width)
    ensures |Octal(v, width)| == width
    decreases width
  {
    if width > 1 {
      OctalWidth(v / 8, width - 1);
    }
  }

  /**
    A field of twelve characters reads back as the value narrowed to 32 bits; eleven digits leave no room for the space.
   */
  lemma SizeFieldReadsBack(v: nat, n: nat)
    requires n == 12
    ensures ParseOct(OctField(v, n), 0) == v % 0x1_0000_0000
  {
    var u := v % 0x1_0000_0000;
    var digits := Octal(u, n - 2);
    if u < 0x4000_0000 {
      Powers(n - 2);
      OctalWidth(u, n - 2);
      assert OctField(v, n) == digits + [32, 0];
      ParseOctal(u, n - 2, [32, 0]);
    } else {
      WidthEleven(u, n - 2);
      assert OctField(v, n) == digits + [0];
      ParseOctal(u, n - 2, [0]);
    }
  }

  lemma WidthEleven(u: nat, width: nat)
    requires width == 10 && 0x4000_0000 <= u < 0x1_0000_0000
    ensures |Octal(u, width)| == width + 1
  {
    var high := u / 8;
    Powers(width);
    OctalTop(high, width - 1);
  }

  lemma {:induction false} OctalTop(v: nat, width: nat)
    requires width >= 1 && Pow8(width) <= v < 8 * Pow8(width)
    ensures |Octal(v, width)| == width + 1
    decreases width
  {
    if width == 1 {
      assert |Octal(v / 8, 0)| == 1;
    } else {
      OctalTop(v / 8, width - 1);
    }
  }

  lemma OctFieldFits(v: nat, n: nat)
    requires n >= 3 && v < 0x1_0000_0000 && |Octal(v, n - 2)| == n - 2
    ensures OctField(v, n) == Octal(v, n - 2) + [32, 0]
  {
  }

  /** A field of eight characters reads back as the value when six digits are enough, which they are for a checksum. */
  lemma SmallFieldReadsBack(v: nat, n: nat)
    requires n == 8 && v < 0x4_0000
    ensures ParseOct(OctField(v, n), 0) == v
  {
    Powers(n - 2);
    OctalWidth(v, n - 2);
    OctFieldFits(v, n);
    ParseOctal(v, n - 2, [32, 0]);
  }

  /** The permissions of a file, which its owner may write and all may read: six digits, a space and a NUL. */
  lemma {:induction false} ModeText(v: nat, size: nat)
    requires v == 6 * 64 + 4 * 8 + 4 && size == 8
    ensures |OctField(v, size)| == 8 && forall i :: 0 <= i < 7 ==> OctField(v, size)[i] == "000644 "[i] as int
    ensures OctField(v, size)[7] == 0
  {
    var a, b, w := v / 8, v / 64, size - 2;
    assert Octal(b / 8, w - 3) == [48, 48, 48] by {
      var zero := b / 8;
      assert Octal(zero, w - 5) == [48];
      assert Octal(zero, w - 4) == Octal(zero, w - 5) + [48];
    }
    assert Octal(b, w - 2) == [48, 48, 48] + [54];
    assert Octal(a, w - 1) == Octal(b, w - 2) + [52];
    assert Octal(v, w) == Octal(a, w - 1) + [52];
  }

  // ---------- the name field ----------

  /** A name is cut to 99 characters, and the rest of its 100-byte field is zero. */
  function NameField(path: seq<Byte>): (s: seq<Byte>)
    ensures |s| == 100
  {
    var kept := if |path| < 100 then path else path[..99];
    kept + seq(100 - |kept|, _ => 0)
  }

  /** A string in a field ends at the first NUL. */
  function ParseName(s: seq<int>): seq<int> {
    if s == [] || s[0] == 0 then [] else [s[0]] + ParseName(s[1..])
  }

  lemma {:induction false} ParseNameOf(name: seq<Byte>, rest: seq<Byte>)
    requires 0 !in name && rest != [] && rest[0] == 0
    ensures ParseName(name + rest) == name
  {
    if name == [] {
      assert name + rest == rest;
    } else {
      assert (name + rest)[1..] == name[1..] + rest;
      ParseNameOf(name[1..], rest);
    }
  }

  lemma NameReadsBack(path: seq<Byte>)
    requires 0 !in path
    ensures ParseName(NameField(path)) == if |path| < 100 then path else path[..99]
  {
    var kept := if |path| < 100 then path else path[..99];
    ParseNameOf(kept, seq(100 - |kept|, _ => 0));
  }

  // ---------- the header block ----------

  /** The header with `chksum` in its checksum field: the fields in their order, 512 bytes in all. */
  function Fields(path: seq<Byte>, size: nat, mtime: nat, chksum: seq<Byte>): (h: seq<Byte>)
    requires |chksum| == 8
    ensures |h| == 512
  {
    BeforeChksum(path, size, mtime) + chksum + AfterChksum()
  }

  function BeforeChksum(path: seq<Byte>, size: nat, mtime: nat): (h: seq<Byte>)
    ensures |h| == 148
  {
    NameField(path) + OctField(0x1A4, 8) + OctField(0, 8) + OctField(0, 8) + OctField(size, 12) + OctField(mtime, 12)
  }

  function AfterChksum(): (h: seq<Byte>)
    ensures |h| == 356
  {
    [48] + Zeros(100) + [117, 115, 116, 97, 114, 0] + [48, 48] + Zeros(247)
  }

  function Sum(s: seq<int>): int {
    if s == [] then 0 else s[0] + Sum(s[1..])
  }

  lemma {:induction false} SumNonneg(s: seq<Byte>)
    ensures 0 <= Sum(s)
  {
    if s != [] { SumNonneg(s[1..]); }
  }

  function Spaces(n: nat): (s: seq<Byte>)
    ensures |s| == n
  {
    seq(n, _ => 32)
  }

  function Checksum(path: seq<Byte>, size: nat, mtime: nat): nat {
    SumNonneg(Fields(path, size, mtime, Spaces(8)));
    Sum(Fields(path, size, mtime, Spaces(8)))
  }

  function Header(path: seq<Byte>, size: nat, mtime: nat): (h: seq<Byte>)
    ensures |h| == 512
  {
    Fields(path, size, mtime, OctField(Checksum(path, size, mtime), 8))
  }

  lemma {:induction false} SumBound(s: seq<Byte>)
    ensures Sum(s) <= 255 * |s|
  {
    if s != [] { SumBound(s[1..]); }
  }

  /** `calculate_checksum`. */
  method CalculateChecksum(hdr: seq<Byte>) returns (sum: int)
    requires |hdr| == 512
    ensures sum == Sum(hdr)
  {
    sum := 0;
    var i := 0;
    while i < 512
      invariant 0 <= i <= 512
      invariant sum + Sum(hdr[i..]) == Sum(hdr)
    {
      sum := sum + hdr[i];
      assert hdr[i..][1..] == hdr[i + 1..];
      i := i + 1;
    }
  }

  /** `write_header`: the checksum is taken over the header with spaces in its place. */
  method BuildHeader(path: seq<Byte>, size: nat, mtime: nat) returns (hdr: seq<Byte>)
    ensures hdr == Header(path, size, mtime)
  {
    hdr := Fields(path, size, mtime, Spaces(8));
    var chksum := CalculateChecksum(hdr);
    SumNonneg(hdr);
    hdr := hdr[..148] + OctField(chksum, 8) + hdr[156..];
  }

  /** What a reader accepts as the header of a regular file. */
  predicate GoodHeader(h: seq<int>) {
    && |h| == 512
    && h[257] == 117 && h[258] == 115 && h[259] == 116 && h[260] == 97 && h[261] == 114 && h[262] == 0
    && h[156] == 48
    && ParseOct(h[148..156], 0) == Sum(h[..148] + Spaces(8) + h[156..])
  }

  lemma HeaderIsGood(path: seq<Byte>, size: nat, mtime: nat)
    ensures GoodHeader(Header(path, size, mtime))
  {
    var b, a := BeforeChksum(path, size, mtime), AfterChksum();
    var sum := Checksum(path, size, mtime);
    var c := OctField(sum, 8);
    var h := b + c + a;
    assert h[..148] == b && h[148..156] == c && h[156..] == a;
    assert forall k :: 101 <= k < 107 ==> h[156 + k] == a[k];
    SumBound(b + Spaces(8) + a);
    SmallFieldReadsBack(sum, 8);
  }

  /** A field of eight characters reads back as any value of at most six digits, one of twelve modulo 2^32. */
  lemma HeaderFields(path: seq<Byte>, size: nat, mtime: nat)
    ensures var h := Header(path, size, mtime);
      && (forall i :: 0 <= i < 7 ==> h[100 + i] == "000644 "[i] as int) && h[107] == 0
      && ParseOct(h[108..116], 0) == ParseOct(h[116..124], 0) == 0
      && ParseOct(h[124..136], 0) == size % 0x1_0000_0000 && ParseOct(h[136..148], 0) == mtime % 0x1_0000_0000
      && h[156] == '0' as int && h[157..257] == Zeros(100) && h[263] == h[264] == '0' as int && h[265..] == Zeros(247)
  {
    var h := Header(path, size, mtime);
    ModeText(0x1A4, 8);
    assert forall i :: 0 <= i < 8 ==> h[100 + i] == h[100..108][i];
    SmallFieldReadsBack(0, 8);
    SizeFieldReadsBack(size, 12);
    SizeFieldReadsBack(mtime, 12);
    assert h[100..108] == OctField(0x1A4, 8) && h[108..116] == OctField(0, 8) && h[116..124] == OctField(0, 8);
    assert h[124..136] == OctField(size, 12) && h[136..148] == OctField(mtime, 12);
    assert h[156..] == AfterChksum();
    assert AfterChksum()[1..101] == Zeros(100) && AfterChksum()[109..] == Zeros(247);
  }

  lemma HeaderName(path: seq<Byte>, size: nat, mtime: nat)
    requires 0 !in path
    ensures ParseName(Header(path, size, mtime)[..100]) == if |path| < 100 then path else path[..99]
  {
    NameReadsBack(path);
    assert Header(path, size, mtime)[..100] == NameField(path);
  }

  lemma HeaderSize(path: seq<Byte>, size: nat, mtime: nat)
    ensures ParseOct(Header(path, size, mtime)[124..136], 0) == size % 0x1_0000_0000
  {
    SizeFieldReadsBack(size, 12);
    assert Header(path, size, mtime)[124..136] == OctField(size, 12);
  }
}

/** How the writer cuts the stream of a torrent into the entries of an archive, whatever the headers are. */
module TarEntries {
  import opened Bits
  import opened Torrent

  /** How far to the next multiple of 512. */
  function Pad(n: nat): nat {
    if n % 512 == 0 then 0 else 512 - n % 512
  }

  /** The lengths of the files and the header block of each. */
  datatype Plan = Plan(lengths: seq<nat>, headers: seq<seq<int>>)

  ghost predicate Complete(a: Plan) {
    |a.headers| == |a.lengths| && forall i :: 0 <= i < |a.headers| ==> |a.headers[i]| == 512
  }

  /** The `n` elements of `s` from `at` on: `s[at..at + n]`. */
  function Part<T>(s: seq<T>, at: nat, n: nat): (r: seq<T>)
    requires at + n <= |s|
    ensures |r| == n
    decreases n
  {
    if n == 0 then [] else Part(s, at, n - 1) + [s[at + n - 1]]
  }

  lemma {:induction false} PartIs<T>(s: seq<T>, at: nat, n: nat)
    requires at + n <= |s|
    ensures Part(s, at, n) == s[at..at + n]
    decreases n
  {
    if n > 0 {
      PartIs(s, at, n - 1);
      assert s[at..at + n] == s[at..at + n - 1] + [s[at + n - 1]];
    }
  }

  lemma {:induction false} PartConcat<T>(s: seq<T>, at: nat, x: nat, k: nat, m: nat, n: nat)
    requires x == at + k && m == k + n && at + m <= |s|
    ensures Part(s, at, m) == Part(s, at, k) + Part(s, x, n)
    decreases n
  {
    if n > 0 {
      PartConcat(s, at, x, k, m - 1, n - 1);
      assert Part(s, at, k) + (Part(s, x, n - 1) + [s[x + n - 1]]) ==
        (Part(s, at, k) + Part(s, x, n - 1)) + [s[x + n - 1]];
    } else {
      assert Part(s, at, k) + [] == Part(s, at, k);
    }
  }

  /** What the archive holds of a file once the first `k` of its bytes are known, the next byte being at `from + k`. */
  function Entry(header: seq<int>, length: nat, stream: seq<int>, from: nat, k: nat): seq<int>
    requires k <= length && from + k <= |stream|
  {
    if k == 0 then []
    else header + Part(stream, from, k) + (if k == length then Zeros(Pad(k)) else [])
  }

  /** The archive of the first `n` files. */
  function Done(a: Plan, stream: seq<int>, n: nat): seq<int>
    requires Complete(a) && n <= |a.lengths| && FileStart(a.lengths, n) <= |stream|
    decreases n
  {
    if n == 0 then []
    else Done(a, stream, n - 1) + Whole(a, stream, n - 1)
  }

  function Whole(a: Plan, stream: seq<int>, i: nat): seq<int>
    requires Complete(a) && i < |a.lengths| && FileStart(a.lengths, i + 1) <= |stream|
  {
    Entry(a.headers[i], a.lengths[i], stream, FileStart(a.lengths, i), a.lengths[i])
  }

  /** The fields of the writer, and what has gone to its output stream. */
  datatype State = State(current: int, fileBytes: nat, total: nat, out: seq<int>)

  function Emit(s: State, data: seq<int>): State {
    s.(total := s.total + |data|, out := s.out + data)
  }

  function Padded(s: State): State {
    Emit(s, Zeros(Pad(s.total)))
  }

  /** What the loop of `tar_writer_write` does for the i-th file with `bytes` of it at `offset`. */
  function AddBytes(s: State, i: nat, header: seq<int>, length: nat, offset: nat, bytes: seq<int>): State {
    var s1 := if i != s.current then Emit(s, header).(current := i, fileBytes := 0) else s;
    var s2 := Emit(s1, bytes).(fileBytes := s1.fileBytes + |bytes|);
    if offset + |bytes| == length then Padded(s2) else s2
  }

  function FileTurn(s: State, i: nat, header: seq<int>, from: nat, length: nat, start: nat, data: seq<int>): State {
    var to := from + length;
    var x := if start > from then start else from;
    var y := if start + |data| < to then start + |data| else to;
    if x < y then AddBytes(s, i, header, length, x - from, Part(data, x - start, y - x)) else s
  }

  /** The state after the first `n` files have been offered a piece that begins at `start`. */
  function PieceTurn(a: Plan, s: State, n: nat, start: nat, data: seq<int>): State
    requires Complete(a) && n <= |a.lengths|
    decreases n
  {
    if n == 0 then s
    else
      FileTurn(PieceTurn(a, s, n - 1, start, data), n - 1, a.headers[n - 1], FileStart(a.lengths, n - 1),
               a.lengths[n - 1], start, data)
  }

  function Closed(a: Plan, s: State): seq<int>
    requires s.current < |a.lengths|
  {
    var s1 := if s.current >= 0 && s.fileBytes < a.lengths[s.current] then Padded(s) else s;
    s1.out + Zeros(1024)
  }

  // ---------- pieces in index order ----------

  /** The last byte before `g` is in the i-th file. */
  predicate InFile(lengths: seq<nat>, i: nat, g: nat)
    requires i < |lengths|
  {
    FileStart(lengths, i) < g <= FileStart(lengths, i) + lengths[i]
  }

  lemma {:induction false} OneFile(lengths: seq<nat>, i: nat, j: nat, g: nat)
    requires i < |lengths| && j < |lengths|
    requires InFile(lengths, i, g) && InFile(lengths, j, g)
    ensures i == j
  {
    if i < j { FileStartMono(lengths, i + 1, j); }
    if j < i { FileStartMono(lengths, j + 1, i); }
  }

  /**
    With the stream put out up to `g`, the output is the archive of the files before the current one and what is
    known of the current one, in which the last byte lies.
   */
  ghost predicate Synced(a: Plan, stream: seq<int>, s: State, g: nat)
    requires Complete(a) && FileStart(a.lengths, |a.lengths|) <= |stream|
  {
    && s.total == |s.out|
    && -1 <= s.current < |a.lengths|
    && if s.current == -1 then g == 0 && s.out == [] else SyncedIn(a, stream, s, s.current, g)
  }

  ghost predicate SyncedIn(a: Plan, stream: seq<int>, s: State, c: nat, g: nat)
    requires Complete(a) && FileStart(a.lengths, |a.lengths|) <= |stream| && c < |a.lengths|
  {
    && InFile(a.lengths, c, g)
    && s.fileBytes == g - FileStart(a.lengths, c)
    && Reaches(a.lengths, c, |stream|)
    && s.out == Done(a, stream, c) + Entry(a.headers[c], a.lengths[c], stream, FileStart(a.lengths, c), s.fileBytes)
  }

  predicate Reaches(lengths: seq<nat>, i: nat, n: nat)
    requires i < |lengths|
  {
    FileStart(lengths, i) + lengths[i] <= n
  }

  lemma WholeEntry(header: seq<int>, length: nat, stream: seq<int>, from: nat)
    requires |header| == 512 && from + length <= |stream|
    ensures |Entry(header, length, stream, from, length)| % 512 == 0
  {
  }

  lemma BlockSum(a: nat, b: nat)
    requires a % 512 == 0 && b % 512 == 0
    ensures (a + b) % 512 == 0
  {
  }

  /** Finished files take whole blocks, so the header that follows begins on a block boundary. */
  lemma {:induction false} WholeBlocks(a: Plan, stream: seq<int>, n: nat)
    requires Complete(a) && n <= |a.lengths| && FileStart(a.lengths, n) <= |stream|
    ensures |Done(a, stream, n)| % 512 == 0
    decreases n
  {
    if n > 0 {
      WholeBlocks(a, stream, n - 1);
      WholeEntry(a.headers[n - 1], a.lengths[n - 1], stream, FileStart(a.lengths, n - 1));
      var done, whole := |Done(a, stream, n - 1)|, |Whole(a, stream, n - 1)|;
      assert |Done(a, stream, n)| == done + whole;
      BlockSum(done, whole);
    }
  }

  /** Empty files have no entry. */
  lemma {:induction false} EmptyFiles(a: Plan, stream: seq<int>, m: nat, n: nat)
    requires Complete(a) && m <= n <= |a.lengths| && FileStart(a.lengths, n) <= |stream|
    requires FileStart(a.lengths, m) == FileStart(a.lengths, n)
    ensures Done(a, stream, m) == Done(a, stream, n)
    decreases n
  {
    if m < n {
      FileStartMono(a.lengths, m, n - 1);
      EmptyFiles(a, stream, m, n - 1);
      DoneEmpty(a, stream, n - 1, n);
    }
  }

  lemma DoneEmpty(a: Plan, stream: seq<int>, i: nat, n: nat)
    requires Complete(a) && n == i + 1 <= |a.lengths| && FileStart(a.lengths, n) <= |stream| && a.lengths[i] == 0
    ensures Done(a, stream, n) == Done(a, stream, i)
  {
    assert Whole(a, stream, i) == [];
    assert Done(a, stream, i) + [] == Done(a, stream, i);
  }

  /** The entry of a file grows by the header when it starts, by its bytes, and by the padding when it ends. */
  lemma {:induction false} EntryGrows(header: seq<int>, length: nat, stream: seq<int>, from: nat, x: nat, k: nat,
                                      m: nat, n: nat, bytes: seq<int>)
    requires k < m <= length && from + m <= |stream|
    requires x == from + k && m == k + n && bytes == Part(stream, x, n)
    ensures Entry(header, length, stream, from, m) ==
            Entry(header, length, stream, from, k) + Gain(header, length, bytes, k, m)
  {
    var pad := if m == length then Zeros(Pad(m)) else [];
    var s1 := Part(stream, from, k);
    PartConcat(stream, from, x, k, m, n);
    if k == 0 {
      assert s1 == [];
      assert s1 + bytes == bytes;
      assert [] + (header + bytes + pad) == header + bytes + pad;
    } else {
      Regroup(header + s1, bytes, pad);
      Regroup(header, s1, bytes);
      assert header + s1 + [] == header + s1;
      assert [] + bytes == bytes;
    }
  }

  /** What one file's turn puts out. */
  lemma {:induction false} TurnPutsOut(s: State, t: State, i: nat, header: seq<int>, length: nat, k: nat, m: nat,
                                       bytes: seq<int>, before: nat)
    requires s.total == |s.out| && m == k + |bytes|
    requires k > 0 ==> s.current == i && s.total == before + 512 + k && s.fileBytes == k
    requires k == 0 ==> s.current != i && s.total == before
    requires before % 512 == 0 && |header| == 512
    requires t == AddBytes(s, i, header, length, k, bytes)
    ensures t.out == s.out + Gain(header, length, bytes, k, m)
    ensures t.current == i && t.fileBytes == m && t.total == |t.out|
  {
    var s1 := if i != s.current then Emit(s, header).(current := i, fileBytes := 0) else s;
    var s2 := Emit(s1, bytes);
    assert s2.total == before + 512 + m;
    if m == length {
      assert Pad(s2.total) == Pad(length);
    }
  }

  lemma Regroup(x: seq<int>, y: seq<int>, z: seq<int>)
    ensures (x + y) + z == x + (y + z)
  {
  }

  /** What a file's entry gains between its bytes `k` and `m`. */
  function Gain(header: seq<int>, length: nat, bytes: seq<int>, k: nat, m: nat): seq<int> {
    (if k == 0 then header else []) + bytes + (if m == length then Zeros(Pad(length)) else [])
  }

  lemma PartialEntry(header: seq<int>, length: nat, stream: seq<int>, from: nat, k: nat)
    requires |header| == 512 && k < length && from + length <= |stream|
    ensures |Entry(header, length, stream, from, k)| == if k == 0 then 0 else 512 + k
  {
  }

  /** When the next byte is the first of the i-th file, everything put out is the archive of the files before it. */
  lemma {:induction false} BetweenFiles(a: Plan, stream: seq<int>, s: State, i: nat, x: nat)
    requires Complete(a) && FileStart(a.lengths, |a.lengths|) <= |stream|
    requires i <= |a.lengths| && FileStart(a.lengths, i) == x <= |stream|
    requires Synced(a, stream, s, x)
    ensures s.out == Done(a, stream, i) && s.current < i
  {
    if s.current == -1 {
      EmptyFiles(a, stream, 0, i);
    } else {
      var c: nat := s.current;
      if i <= c { FileStartMono(a.lengths, i, c); }
      FileStartMono(a.lengths, c + 1, i);
      assert s.out == Done(a, stream, c + 1);
      EmptyFiles(a, stream, c + 1, i);
    }
  }

  lemma Chain(ux: seq<int>, uy: seq<int>, before: seq<int>, ex: seq<int>, ey: seq<int>, gain: seq<int>)
    requires ux == before + ex && uy == before + ey && ey == ex + gain
    ensures uy == ux + gain
  {
  }

  /** What has been put out when the next byte is byte `k` of the i-th file. */
  lemma {:induction false} BeforeBytes(a: Plan, stream: seq<int>, s: State, i: nat, from: nat, x: nat, k: nat)
    requires Complete(a) && i < |a.lengths|
    requires FileStart(a.lengths, |a.lengths|) <= |stream|
    requires from == FileStart(a.lengths, i) && from + a.lengths[i] <= |stream|
    requires x == from + k && k < a.lengths[i]
    requires Synced(a, stream, s, x)
    ensures s.out == Done(a, stream, i) + Entry(a.headers[i], a.lengths[i], stream, from, k)
    ensures s.total == |s.out|
    ensures if k == 0 then s.current != i && s.total == |Done(a, stream, i)|
            else s.current == i && s.fileBytes == k && s.total == |Done(a, stream, i)| + 512 + k
  {
    if k == 0 {
      BetweenFiles(a, stream, s, i, x);
      AppendEmpty(Done(a, stream, i), Entry(a.headers[i], a.lengths[i], stream, from, k));
    } else {
      OneFile(a.lengths, s.current, i, x);
      assert s.fileBytes == k;
      PartialEntry(a.headers[i], a.lengths[i], stream, from, k);
    }
  }

  lemma AppendEmpty(s: seq<int>, e: seq<int>)
    requires |e| == 0
    ensures s + e == s
  {
  }

  /** Putting out bytes `k` to `m` of the i-th file, which are at `x` to `y` of the stream. */
  lemma {:induction false} BytesSynced(a: Plan, stream: seq<int>, s: State, t: State, i: nat, from: nat, x: nat, y: nat,
                                       k: nat, m: nat, n: nat, bytes: seq<int>)
    requires Complete(a) && i < |a.lengths|
    requires FileStart(a.lengths, |a.lengths|) <= |stream|
    requires from == FileStart(a.lengths, i) && from + a.lengths[i] <= |stream|
    requires x == from + k && y == from + m && k < m <= a.lengths[i] && m == k + n
    requires bytes == Part(stream, x, n)
    requires Synced(a, stream, s, x)
    requires t == AddBytes(s, i, a.headers[i], a.lengths[i], k, bytes)
    ensures Synced(a, stream, t, y)
  {
    var gain := Gain(a.headers[i], a.lengths[i], bytes, k, m);
    BeforeBytes(a, stream, s, i, from, x, k);
    assert t.out == s.out + gain && t.current == i && t.fileBytes == m && t.total == |t.out| by {
      WholeBlocks(a, stream, i);
      TurnPutsOut(s, t, i, a.headers[i], a.lengths[i], k, m, bytes, |Done(a, stream, i)|);
    }
    assert Entry(a.headers[i], a.lengths[i], stream, from, m) ==
           Entry(a.headers[i], a.lengths[i], stream, from, k) + gain by {
      EntryGrows(a.headers[i], a.lengths[i], stream, from, x, k, m, n, bytes);
    }
    AfterBytes(a, stream, s, t, i, from, y, k, m, gain);
  }

  lemma {:induction false} AfterBytes(a: Plan, stream: seq<int>, s: State, t: State, i: nat, from: nat, y: nat, k: nat,
                                      m: nat, gain: seq<int>)
    requires Complete(a) && i < |a.lengths|
    requires FileStart(a.lengths, |a.lengths|) <= |stream|
    requires from == FileStart(a.lengths, i) && from + a.lengths[i] <= |stream|
    requires y == from + m && k < m <= a.lengths[i]
    requires s.out == Done(a, stream, i) + Entry(a.headers[i], a.lengths[i], stream, from, k)
    requires Entry(a.headers[i], a.lengths[i], stream, from, m) ==
             Entry(a.headers[i], a.lengths[i], stream, from, k) + gain
    requires t.out == s.out + gain && t.total == |t.out| && t.current == i && t.fileBytes == m
    ensures Synced(a, stream, t, y)
  {
    Chain(s.out, Done(a, stream, i) + Entry(a.headers[i], a.lengths[i], stream, from, m), Done(a, stream, i),
          Entry(a.headers[i], a.lengths[i], stream, from, k), Entry(a.headers[i], a.lengths[i], stream, from, m), gain);
  }

  function Clamp(v: nat, low: nat, high: nat): nat {
    if v < low then low else if v > high then high else v
  }

  lemma ClampTurn(from: nat, to: nat, g: nat, h: nat)
    requires from <= to && g <= h
    ensures var x := if g > from then g else from;
            var y := if h < to then h else to;
            if x < y then Clamp(from, g, h) == x && Clamp(to, g, h) == y else Clamp(from, g, h) == Clamp(to, g, h)
  {
  }

  /** `data` is what the stream holds from `g` on. */
  ghost predicate LiesAt(data: seq<int>, stream: seq<int>, g: nat) {
    g + |data| <= |stream| && forall t {:trigger data[t]} :: 0 <= t < |data| ==> data[t] == stream[g + t]
  }

  lemma {:induction false} PartLies(data: seq<int>, stream: seq<int>, g: nat, x: nat, j: nat, n: nat)
    requires LiesAt(data, stream, g)
    requires x == g + j && j + n <= |data|
    ensures Part(data, j, n) == Part(stream, x, n)
    decreases n
  {
    if n > 0 {
      PartLies(data, stream, g, x, j, n - 1);
      assert data[j + n - 1] == stream[x + n - 1];
    }
  }

  lemma FileTurnIs(s: State, t: State, i: nat, header: seq<int>, from: nat, length: nat, data: seq<int>, g: nat, x: nat,
                   y: nat, k: nat, j: nat, n: nat, bytes: seq<int>)
    requires x == (if g > from then g else from)
    requires y == (if g + |data| < from + length then g + |data| else from + length)
    requires x < y && j == x - g && n == y - x && bytes == Part(data, j, n)
    requires k == x - from
    requires t == AddBytes(s, i, header, length, k, bytes)
    ensures FileTurn(s, i, header, from, length, g, data) == t
  {
  }

  lemma FileTurnMissed(s: State, i: nat, header: seq<int>, from: nat, length: nat, data: seq<int>, g: nat)
    requires g + |data| <= from || from + length <= g || length == 0 || data == []
    ensures FileTurn(s, i, header, from, length, g, data) == s
  {
  }

  /** Some of the i-th file is in the piece. */
  predicate Reached(from: nat, length: nat, g: nat, h: nat) {
    g < h && length > 0 && g < from + length && from < h
  }

  lemma {:induction false} FileTurnOver(a: Plan, stream: seq<int>, data: seq<int>, s: State, t: State, i: nat,
                                        from: nat, g: nat, x: nat, y: nat, k: nat, m: nat, j: nat, n: nat,
                                        bytes: seq<int>)
    requires Complete(a) && i < |a.lengths|
    requires FileStart(a.lengths, |a.lengths|) <= |stream| && LiesAt(data, stream, g)
    requires from == FileStart(a.lengths, i) && from + a.lengths[i] <= |stream|
    requires x == (if g > from then g else from)
    requires y == (if g + |data| < from + a.lengths[i] then g + |data| else from + a.lengths[i])
    requires x < y && k == x - from && m == y - from && j == x - g && n == y - x
    requires bytes == Part(data, j, n)
    requires t == AddBytes(s, i, a.headers[i], a.lengths[i], k, bytes)
    requires Synced(a, stream, s, x)
    ensures FileTurn(s, i, a.headers[i], from, a.lengths[i], g, data) == t
    ensures Synced(a, stream, t, y)
  {
    FileTurnIs(s, t, i, a.headers[i], from, a.lengths[i], data, g, x, y, k, j, n, bytes);
    PartLies(data, stream, g, x, j, n);
    BytesSynced(a, stream, s, t, i, from, x, y, k, m, n, bytes);
  }

  lemma {:induction false} FileTurnSynced(a: Plan, stream: seq<int>, data: seq<int>, s: State, i: nat, from: nat,
                                          to: nat, g: nat, h: nat)
    requires Complete(a) && i < |a.lengths|
    requires FileStart(a.lengths, |a.lengths|) <= |stream| && LiesAt(data, stream, g) && h == g + |data|
    requires from == FileStart(a.lengths, i) && to == from + a.lengths[i] <= |stream|
    requires Synced(a, stream, s, Clamp(from, g, h))
    ensures Synced(a, stream, FileTurn(s, i, a.headers[i], from, a.lengths[i], g, data), Clamp(to, g, h))
  {
    ClampTurn(from, to, g, h);
    if Reached(from, a.lengths[i], g, h) {
      var x := Clamp(from, g, h);
      var y := Clamp(to, g, h);
      var bytes := Part(data, x - g, y - x);
      var t := AddBytes(s, i, a.headers[i], a.lengths[i], x - from, bytes);
      FileTurnOver(a, stream, data, s, t, i, from, g, x, y, x - from, y - from, x - g, y - x, bytes);
    } else {
      FileTurnMissed(s, i, a.headers[i], from, a.lengths[i], data, g);
    }
  }

  lemma {:induction false} PieceTurnSynced(a: Plan, stream: seq<int>, data: seq<int>, s: State, n: nat, g: nat, h: nat)
    requires Complete(a) && n <= |a.lengths|
    requires FileStart(a.lengths, |a.lengths|) <= |stream| && LiesAt(data, stream, g) && h == g + |data|
    requires Synced(a, stream, s, g)
    ensures Synced(a, stream, PieceTurn(a, s, n, g, data), Clamp(FileStart(a.lengths, n), g, h))
    decreases n
  {
    if n == 0 {
      assert Clamp(0, g, h) == g;
    } else {
      PieceTurnSynced(a, stream, data, s, n - 1, g, h);
      FileStartMono(a.lengths, n, |a.lengths|);
      var from, to := FileStart(a.lengths, n - 1), FileStart(a.lengths, n);
      FileTurnSynced(a, stream, data, PieceTurn(a, s, n - 1, g, data), n - 1, from, to, g, h);
    }
  }

  /** With the whole stream put out, closing leaves the archive of all files and two zero blocks. */
  lemma {:induction false} ClosedIsArchive(a: Plan, stream: seq<int>, s: State)
    requires Complete(a) && FileStart(a.lengths, |a.lengths|) == |stream|
    requires Synced(a, stream, s, |stream|)
    ensures Closed(a, s) == Done(a, stream, |a.lengths|) + Zeros(1024)
  {
    BetweenFiles(a, stream, s, |a.lengths|, |stream|);
    if s.current >= 0 {
      FileStartMono(a.lengths, s.current + 1, |a.lengths|);
    }
  }
}

/** A reader of archives, and what it recovers from the writer's output. */
module TarReader {
  import opened Bits
  import opened Torrent
  import opened TarEntries
  import opened TarHeader
  import opened Wrappers

  /** A member of an archive: its name and its content. */
  datatype Member = Member(name: seq<int>, content: seq<int>)

  predicate TwoZeroBlocks(s: seq<int>) {
    |s| == 1024 && forall k :: 0 <= k < 1024 ==> s[k] == 0
  }

  /** What stands first in an archive: its end, a member and what follows it, or an error. */
  datatype First = Ends | Broken | First(member: Member, rest: seq<int>)

  /** Two zero blocks that end the input are the end; a header that does not check is an error. */
  function FirstOf(s: seq<int>): (r: First)
    ensures r.First? ==> |r.rest| < |s|
  {
    if TwoZeroBlocks(s) then Ends
    else if |s| < 512 || !GoodHeader(s[..512]) then Broken
    else
      var h := s[..512];
      var size := ParseOct(h[124..136], 0);
      var end := 512 + size + Pad(size);
      if |s| < end then Broken else First(Member(ParseName(h[..100]), s[512..512 + size]), s[end..])
  }

  function Prepended(m: Member, rest: Option<seq<Member>>): Option<seq<Member>> {
    if rest.None? then None else Some([m] + rest.value)
  }

  /** Reads members up to the end of the archive. */
  function Read(s: seq<int>): Option<seq<Member>>
    decreases |s|
  {
    match FirstOf(s)
    case Ends => Some([])
    case Broken => None
    case First(m, rest) => Prepended(m, Read(rest))
  }

  /** What is read first from a block that checks as a header. */
  lemma ReadFirst(s: seq<int>, header: seq<int>, more: seq<int>)
    requires s == header + more && GoodHeader(header)
    ensures !TwoZeroBlocks(s)
    ensures Read(s).Some? ==>
              && |Read(s).value| > 0
              && Read(s).value[0].name == ParseName(header[..100])
              && |Read(s).value[0].content| == ParseOct(header[124..136], 0)
  {
    assert s[..512] == header;
    assert s[156] == 48;
  }

  /** A header that states the right length lets the reader take exactly the content and go on behind the padding. */
  lemma FirstIs(s: seq<int>, header: seq<int>, content: seq<int>, pad: seq<int>, rest: seq<int>)
    requires s == header + (content + pad + rest) && GoodHeader(header)
    requires ParseOct(header[124..136], 0) == |content| && |pad| == Pad(|content|)
    ensures FirstOf(s) == First(Member(ParseName(header[..100]), content), rest)
  {
    ReadFirst(s, header, content + pad + rest);
    var size := |content|;
    var end := 512 + size + Pad(size);
    assert s[end..] == rest && s[512..512 + size] == content && s[..512] == header;
  }

  lemma ReadOne(s: seq<int>, header: seq<int>, content: seq<int>, pad: seq<int>, rest: seq<int>)
    requires s == header + (content + pad + rest) && GoodHeader(header)
    requires ParseOct(header[124..136], 0) == |content| && |pad| == Pad(|content|)
    ensures Read(s) == Prepended(Member(ParseName(header[..100]), content), Read(rest))
  {
    FirstIs(s, header, content, pad, rest);
  }

  /** A file to be archived: its full path, its length, and the time its header will carry. */
  datatype Entry = Entry(path: seq<Byte>, length: nat, mtime: nat)

  function HeaderOf(e: Entry): (h: seq<int>)
    ensures |h| == 512
  {
    Header(e.path, e.length, e.mtime)
  }

  /** The header checks, and states the name cut to 99 characters and the size cut to 32 bits. */
  ghost predicate HeaderFor(h: seq<int>, e: Entry) {
    && GoodHeader(h)
    && ParseName(h[..100]) == (if |e.path| < 100 then e.path else e.path[..99])
    && ParseOct(h[124..136], 0) == e.length % 0x1_0000_0000
  }

  lemma HeaderOfIs(e: Entry)
    requires 0 !in e.path
    ensures HeaderFor(HeaderOf(e), e)
  {
    HeaderIsGood(e.path, e.length, e.mtime);
    HeaderName(e.path, e.length, e.mtime);
    HeaderSize(e.path, e.length, e.mtime);
  }

  /** The plan lists the lengths and the headers of these files. */
  ghost predicate Describes(a: Plan, files: seq<Entry>) {
    && |a.lengths| == |a.headers| == |files|
    && forall i {:trigger files[i]} :: 0 <= i < |files| ==>
         a.lengths[i] == files[i].length && HeaderFor(a.headers[i], files[i])
  }

  /** The name and the size of a file fit the header. */
  predicate Portable(e: Entry) {
    |e.path| < 100 && e.length < 0x1_0000_0000
  }

  ghost predicate AllPortable(files: seq<Entry>, i: nat) {
    forall k {:trigger files[k]} :: i <= k < |files| && files[k].length > 0 ==> Portable(files[k])
  }

  /** The archive of the files from the i-th on. */
  function From(a: Plan, stream: seq<int>, i: nat): seq<int>
    requires Complete(a) && i <= |a.lengths| && FileStart(a.lengths, |a.lengths|) <= |stream|
    decreases |a.lengths| - i
  {
    if i == |a.lengths| then Zeros(1024)
    else
      FileStartMono(a.lengths, i + 1, |a.lengths|);
      Whole(a, stream, i) + From(a, stream, i + 1)
  }

  /** The content of the i-th file. */
  function Content(lengths: seq<nat>, stream: seq<int>, i: nat): (content: seq<int>)
    requires i < |lengths| && FileStart(lengths, |lengths|) <= |stream|
    ensures |content| == lengths[i]
  {
    FileStartMono(lengths, i + 1, |lengths|);
    Part(stream, FileStart(lengths, i), lengths[i])
  }

  /** The files from the i-th on that are not empty, with their contents. */
  function Members(files: seq<Entry>, lengths: seq<nat>, stream: seq<int>, i: nat): seq<Member>
    requires |lengths| == |files| && i <= |files| && FileStart(lengths, |lengths|) <= |stream|
    decreases |files| - i
  {
    if i == |files| then []
    else
      var later := Members(files, lengths, stream, i + 1);
      if files[i].length == 0 then later else [Member(files[i].path, Content(lengths, stream, i))] + later
  }

  lemma {:induction false} DoneIsFrom(a: Plan, stream: seq<int>, i: nat)
    requires Complete(a) && i <= |a.lengths| && FileStart(a.lengths, |a.lengths|) <= |stream|
    requires FileStart(a.lengths, i) <= |stream|
    ensures Done(a, stream, i) + From(a, stream, i) == Done(a, stream, |a.lengths|) + Zeros(1024)
    decreases |a.lengths| - i
  {
    if i < |a.lengths| {
      FileStartMono(a.lengths, i + 1, |a.lengths|);
      Regroup(Done(a, stream, i), Whole(a, stream, i), From(a, stream, i + 1));
      DoneIsFrom(a, stream, i + 1);
    }
  }

  /** The entry of a file that is not empty. */
  lemma WholeIs(a: Plan, stream: seq<int>, i: nat, length: nat, rest: seq<int>)
    requires Complete(a) && i < |a.lengths| && FileStart(a.lengths, |a.lengths|) <= |stream|
    requires FileStart(a.lengths, i + 1) <= |stream| && length == a.lengths[i] > 0
    ensures Whole(a, stream, i) + rest == a.headers[i] + (Content(a.lengths, stream, i) + Zeros(Pad(length)) + rest)
  {
    Regroup(a.headers[i] + Content(a.lengths, stream, i), Zeros(Pad(length)), rest);
    Regroup(a.headers[i], Content(a.lengths, stream, i), Zeros(Pad(length)) + rest);
    Regroup(Content(a.lengths, stream, i), Zeros(Pad(length)), rest);
  }

  /** The first member read back from the archive of a file that is not empty followed by `rest`. */
  lemma ReadEntry(h: seq<int>, e: Entry, content: seq<int>, rest: seq<int>, s: seq<int>, members: seq<Member>)
    requires HeaderFor(h, e) && |content| == e.length > 0
    requires s == h + (content + Zeros(Pad(e.length)) + rest)
    ensures Read(s) == Some([Member(e.path, content)] + members) <==> Portable(e) && Read(rest) == Some(members)
  {
    if Portable(e) {
      ReadOne(s, h, content, Zeros(Pad(e.length)), rest);
      Cons(Member(e.path, content), members, if Read(rest).Some? then Read(rest).value else []);
    } else {
      ReadFirst(s, h, content + Zeros(Pad(e.length)) + rest);
      assert ([Member(e.path, content)] + members)[0] == Member(e.path, content);
    }
  }

  lemma Cons(m: Member, u: seq<Member>, v: seq<Member>)
    ensures [m] + u == [m] + v <==> u == v
  {
    if [m] + u == [m] + v {
      assert u == ([m] + u)[1..] == ([m] + v)[1..] == v;
    }
  }

  lemma ReadBackStep(h: seq<int>, e: Entry, content: seq<int>, rest: seq<int>, s: seq<int>, later: seq<Member>,
                     members: seq<Member>)
    requires HeaderFor(h, e) && |content| == e.length
    requires s == if e.length == 0 then rest else h + (content + Zeros(Pad(e.length)) + rest)
    requires members == if e.length == 0 then later else [Member(e.path, content)] + later
    ensures Read(s) == Some(members) <==> (e.length > 0 ==> Portable(e)) && Read(rest) == Some(later)
  {
    if e.length > 0 { ReadEntry(h, e, content, rest, s, later); }
  }

  lemma {:induction false} ReadBackAt(a: Plan, files: seq<Entry>, stream: seq<int>, i: nat)
    requires Complete(a) && Describes(a, files)
    requires i < |files| && FileStart(a.lengths, |files|) <= |stream|
    ensures Read(From(a, stream, i)) == Some(Members(files, a.lengths, stream, i)) <==>
            (files[i].length > 0 ==> Portable(files[i])) &&
            Read(From(a, stream, i + 1)) == Some(Members(files, a.lengths, stream, i + 1))
  {
    FileStartMono(a.lengths, i + 1, |files|);
    var e, s, rest, content := files[i], From(a, stream, i), From(a, stream, i + 1), Content(a.lengths, stream, i);
    assert s == if e.length == 0 then rest else a.headers[i] + (content + Zeros(Pad(e.length)) + rest) by {
      if e.length == 0 { NothingThen(rest); } else { WholeIs(a, stream, i, e.length, rest); }
    }
    ReadBackStep(a.headers[i], e, content, rest, s, Members(files, a.lengths, stream, i + 1),
                 Members(files, a.lengths, stream, i));
  }

  lemma NothingThen(s: seq<int>)
    ensures [] + s == s
  {
  }

  /**
    Reading each of the inputs gives its result exactly when its step holds and reading the next gives the next result.
   */
  ghost predicate Steps(inputs: seq<seq<int>>, results: seq<seq<Member>>, steps: seq<bool>) {
    && |inputs| == |results| == |steps| + 1
    && Read(inputs[|steps|]) == Some(results[|steps|])
    && forall k {:trigger steps[k]} :: 0 <= k < |steps| ==>
         (Read(inputs[k]) == Some(results[k]) <==> steps[k] && Read(inputs[k + 1]) == Some(results[k + 1]))
  }

  lemma {:induction false} Backward(inputs: seq<seq<int>>, results: seq<seq<Member>>, steps: seq<bool>, i: nat)
    requires Steps(inputs, results, steps) && i <= |steps|
    ensures Read(inputs[i]) == Some(results[i]) <==> forall k :: i <= k < |steps| ==> steps[k]
    decreases |steps| - i
  {
    if i < |steps| {
      Backward(inputs, results, steps, i + 1);
      assert Read(inputs[i]) == Some(results[i]) <==> steps[i] && Read(inputs[i + 1]) == Some(results[i + 1]);
    }
  }

  lemma ReadEnd()
    ensures Read(Zeros(1024)) == Some([])
  {
  }

  lemma {:induction false} StepsHold(a: Plan, files: seq<Entry>, stream: seq<int>, inputs: seq<seq<int>>,
                                     results: seq<seq<Member>>, steps: seq<bool>)
    requires Complete(a) && Describes(a, files) && FileStart(a.lengths, |files|) <= |stream|
    requires |inputs| == |results| == |files| + 1 && |steps| == |files|
    requires forall k {:trigger inputs[k]} :: 0 <= k <= |files| ==> inputs[k] == From(a, stream, k)
    requires forall k {:trigger results[k]} :: 0 <= k <= |files| ==> results[k] == Members(files, a.lengths, stream, k)
    requires forall k {:trigger steps[k]} :: 0 <= k < |files| ==> steps[k] == (files[k].length > 0 ==>
      Portable(files[k]))
    ensures Steps(inputs, results, steps)
  {
    ReadEnd();
    forall k {:trigger steps[k]} | 0 <= k < |files|
      ensures Read(inputs[k]) == Some(results[k]) <==> steps[k] && Read(inputs[k + 1]) == Some(results[k + 1])
    {
      ReadBackAt(a, files, stream, k);
    }
  }

  lemma {:induction false} ReadBackAll(a: Plan, files: seq<Entry>, stream: seq<int>)
    requires Complete(a) && Describes(a, files) && FileStart(a.lengths, |files|) <= |stream|
    ensures Read(From(a, stream, 0)) == Some(Members(files, a.lengths, stream, 0)) <==> AllPortable(files, 0)
  {
    var n := |files|;
    var inputs := seq(n + 1, i requires 0 <= i <= n => From(a, stream, i));
    var results := seq(n + 1, i requires 0 <= i <= n => Members(files, a.lengths, stream, i));
    var steps := seq(n, i requires 0 <= i < n => files[i].length > 0 ==> Portable(files[i]));
    StepsHold(a, files, stream, inputs, results, steps);
    Backward(inputs, results, steps, 0);
    assert forall k :: 0 <= k < n ==> (steps[k] <==> (files[k].length > 0 ==> Portable(files[k])));
  }

  /**
    The reader gets back exactly the files that are not empty, in their order, if and only if the name of each fits
    99 characters and its size 32 bits.
   */
  lemma {:induction false} ReadBack(a: Plan, files: seq<Entry>, stream: seq<int>)
    requires Complete(a) && Describes(a, files) && FileStart(a.lengths, |files|) <= |stream|
    ensures Read(Done(a, stream, |files|) + Zeros(1024)) == Some(Members(files, a.lengths, stream, 0)) <==>
            AllPortable(files, 0)
  {
    DoneIsFrom(a, stream, 0);
    NothingThen(From(a, stream, 0));
    ReadBackAll(a, files, stream);
  }

  /** The archive of a one-byte file. */
  function OneByteFile(e: Entry, b: Byte, pad: nat, end: nat): seq<int> {
    HeaderOf(e) + ([b] + Zeros(pad) + Zeros(end))
  }

  lemma NameCut(e: Entry, b: Byte, pad: nat, end: nat)
    requires |e.path| >= 100 && 0 !in e.path && e.length == 1 && pad == Pad(1) && end == 1024
    ensures Read(OneByteFile(e, b, pad, end)) == Some([Member(e.path[..99], [b])])
  {
    HeaderOfIs(e);
    ReadOne(OneByteFile(e, b, pad, end), HeaderOf(e), [b], Zeros(pad), Zeros(end));
    ReadEnd();
    var m := Member(e.path[..99], [b]);
    assert [m] + [] == [m];
  }

  /** A name of `n` letters. */
  function Letters(n: nat): (name: seq<Byte>)
    ensures |name| == n && 0 !in name
  {
    seq(n, _ => 97)
  }

  /** A file whose name has a hundred letters comes back with a name of ninety-nine. */
  lemma LongNameCut(b: Byte, n: nat, end: nat)
    requires n == 100 && end == 1024
    ensures var e := Entry(Letters(n), 1, 0);
      && !Portable(e)
      && Read(OneByteFile(e, b, 511, end)) == Some([Member(Letters(n - 1), [b])])
      && Read(OneByteFile(e, b, 511, end)) != Some([Member(e.path, [b])])
  {
    var e := Entry(Letters(n), 1, 0);
    NameCut(e, b, 511, end);
    assert e.path[..99] == Letters(n - 1);
    assert |Letters(n - 1)| != |e.path|;
  }
}

module TarWriter {
  import opened Bits
  import opened Wrappers
  import opened Torrent
  import opened TarEntries
  import opened TarHeader
  import opened TarReader

  /** The components of a path, joined by slashes. */
  function FullPath(path: seq<seq<Byte>>): seq<Byte> {
    if path == [] then [] else if |path| == 1 then path[0] else path[0] + [47] + FullPath(path[1..])
  }

  /** The place of the first slash, or the length. */
  function SlashAt(name: seq<int>): (i: nat)
    ensures i <= |name| && (i < |name| ==> name[i] == 47)
  {
    if name == [] || name[0] == 47 then 0 else 1 + SlashAt(name[1..])
  }

  /** A name cut at its slashes. */
  function Components(name: seq<int>): seq<seq<int>>
    decreases |name|
  {
    var i := SlashAt(name);
    if i == |name| then [name] else [name[..i]] + Components(name[i + 1..])
  }

  ghost predicate NoSlash(path: seq<seq<Byte>>) {
    path != [] && forall k {:trigger path[k]} :: 0 <= k < |path| ==> 47 !in path[k]
  }

  lemma {:induction false} SlashBehind(c: seq<int>, rest: seq<int>)
    requires 47 !in c && (rest == [] || rest[0] == 47)
    ensures SlashAt(c + rest) == |c|
    decreases |c|
  {
    if c == [] {
      assert c + rest == rest;
    } else {
      assert (c + rest)[1..] == c[1..] + rest;
      SlashBehind(c[1..], rest);
    }
  }

  /** The first component, and the others behind a slash. */
  lemma {:induction false} FirstComponent(c: seq<int>, later: seq<int>, name: seq<int>)
    requires 47 !in c && name == c + ([47] + later)
    ensures Components(name) == [c] + Components(later)
  {
    SlashBehind(c, [47] + later);
    assert name[..|c|] == c && name[|c| + 1..] == later;
  }

  lemma {:induction false} OnlyComponent(c: seq<int>)
    requires 47 !in c
    ensures Components(c) == [c]
  {
    SlashBehind(c, []);
    assert c + [] == c;
  }

  /** The name of a path, cut at its slashes, is the path. */
  lemma {:induction false} ComponentsBack(path: seq<seq<Byte>>)
    requires NoSlash(path)
    ensures Components(FullPath(path)) == path
    decreases |path|
  {
    var c, rest := path[0], path[1..];
    if rest == [] {
      OnlyComponent(c);
    } else {
      ComponentsBack(rest);
      FirstComponent(c, FullPath(rest), FullPath(path));
    }
    assert path == [c] + rest;
  }

  lemma {:induction false} NulFree(path: seq<seq<Byte>>)
    requires forall k {:trigger path[k]} :: 0 <= k < |path| ==> 0 !in path[k]
    ensures 0 !in FullPath(path)
    decreases |path|
  {
    if |path| > 1 { NulFree(path[1..]); }
  }

  /** `strcat` of the components in turn, with a slash after each but the last. */
  method JoinPath(path: seq<seq<Byte>>) returns (full: seq<Byte>)
    ensures full == FullPath(path)
  {
    full := [];
    var k := 0;
    while k < |path|
      invariant 0 <= k <= |path|
      invariant full + FullPath(path[k..]) == FullPath(path)
    {
      assert path[k..][1..] == path[k + 1..];
      full := full + path[k];
      if k < |path| - 1 {
        full := full + [47];
      }
      k := k + 1;
    }
    assert FullPath(path[k..]) == [];
  }

  /** A file of the torrent, and the time at which its header is written. */
  datatype TarFile = TarFile(path: seq<seq<Byte>>, length: nat, mtime: nat)

  function EntryOf(f: TarFile): TarReader.Entry {
    TarReader.Entry(FullPath(f.path), f.length, f.mtime)
  }

  function Entries(files: seq<TarFile>): (entries: seq<TarReader.Entry>)
    ensures |entries| == |files|
  {
    seq(|files|, i requires 0 <= i < |files| => EntryOf(files[i]))
  }

  /** The paths of the files that are not empty, from the i-th on. */
  function Paths(files: seq<TarFile>, i: nat): seq<seq<seq<Byte>>>
    requires i <= |files|
    decreases |files| - i
  {
    if i == |files| then []
    else (if files[i].length == 0 then [] else [files[i].path]) + Paths(files, i + 1)
  }

  /** The names of these members, cut at their slashes, are these paths. */
  ghost predicate NamesAre(members: seq<Member>, paths: seq<seq<seq<Byte>>>) {
    && |members| == |paths|
    && forall k {:trigger members[k]} :: 0 <= k < |members| ==> Components(members[k].name) == paths[k]
  }

  lemma NamesMore(m: Member, path: seq<seq<Byte>>, members: seq<Member>, paths: seq<seq<seq<Byte>>>)
    requires Components(m.name) == path && NamesAre(members, paths)
    ensures NamesAre([m] + members, [path] + paths)
  {
  }

  ghost predicate NoSlashes(files: seq<TarFile>) {
    forall i {:trigger files[i]} :: 0 <= i < |files| ==> NoSlash(files[i].path)
  }

  /** The members of an archive have the paths of the files that are not empty. */
  lemma {:induction false} MembersNamed(files: seq<TarFile>, lengths: seq<nat>, stream: seq<int>, i: nat)
    requires |lengths| == |files| && i <= |files| && FileStart(lengths, |lengths|) <= |stream| && NoSlashes(files)
    ensures NamesAre(Members(Entries(files), lengths, stream, i), Paths(files, i))
    decreases |files| - i
  {
    if i < |files| {
      MembersNamed(files, lengths, stream, i + 1);
      var members, paths := Members(Entries(files), lengths, stream, i + 1), Paths(files, i + 1);
      if files[i].length > 0 {
        ComponentsBack(files[i].path);
        NamesMore(Member(FullPath(files[i].path), Content(lengths, stream, i)), files[i].path, members, paths);
      } else {
        assert [] + paths == paths;
      }
    }
  }

  class TarStream {
    var currentFileIndex: int
    var fileBytesWritten: nat
    var totalWritten: nat
    var out: seq<int>
    const files: seq<TarFile>
    const pieceLength: nat
    ghost const plan: Plan

    function Now(): State
      reads this
    {
      State(currentFileIndex, fileBytesWritten, totalWritten, out)
    }

    ghost predicate Valid()
    {
      && Complete(plan) && |plan.lengths| == |files|
      && forall i {:trigger files[i]} :: 0 <= i < |files| ==>
           plan.lengths[i] == files[i].length && plan.headers[i] == HeaderOf(EntryOf(files[i]))
    }

    /** `tar_writer_open`. */
    constructor (files: seq<TarFile>, pieceLength: nat)
      ensures Valid() && this.files == files && this.pieceLength == pieceLength
      ensures Now() == State(-1, 0, 0, [])
    {
      currentFileIndex, fileBytesWritten, totalWritten, out := -1, 0, 0, [];
      this.files := files;
      this.pieceLength := pieceLength;
      plan := Plan(seq(|files|, i requires 0 <= i < |files| => files[i].length),
                   seq(|files|, i requires 0 <= i < |files| => HeaderOf(EntryOf(files[i]))));
    }

    /** `fwrite` to the output, counted. */
    method Put(data: seq<int>)
      modifies this`out, this`totalWritten
      ensures Now() == Emit(old(Now()), data)
    {
      out := out + data;
      totalWritten := totalWritten + |data|;
    }

    /** `write_header`: the checksum is taken over the header with spaces in its place. */
    method WriteHeader(path: seq<Byte>, size: nat, mtime: nat)
      modifies this`out, this`totalWritten
      ensures Now() == Emit(old(Now()), Header(path, size, mtime))
    {
      var hdr := BuildHeader(path, size, mtime);
      Put(hdr);
    }

    method WritePadding()
      modifies this`out, this`totalWritten
      ensures Now() == Padded(old(Now()))
    {
      var mod := totalWritten % 512;
      if mod != 0 {
        Put(Zeros(512 - mod));
      } else {
        assert out + Zeros(0) == out;
      }
    }

    /** `tar_writer_write`: the piece is offered to every file in turn. */
    method Write(pieceIndex: nat, data: seq<int>)
      requires Valid()
      modifies this`out, this`totalWritten, this`fileBytesWritten, this`currentFileIndex
      ensures Now() == PieceTurn(plan, old(Now()), |files|, PieceStart(pieceLength, pieceIndex), data)
    {
      var pieceStart := pieceIndex * pieceLength;
      PieceStartIsProduct(pieceLength, pieceIndex);
      var i, fileGlobalOffset := 0, 0;
      while i < |files|
        invariant 0 <= i <= |files|
        invariant fileGlobalOffset == FileStart(plan.lengths, i)
        invariant Now() == PieceTurn(plan, old(Now()), i, pieceStart, data)
      {
        WriteFile(i, fileGlobalOffset, pieceStart, data);
        fileGlobalOffset := fileGlobalOffset + files[i].length;
        i := i + 1;
      }
    }

    /** The body of the loop over files. */
    method WriteFile(i: nat, fileStart: nat, pieceStart: nat, data: seq<int>)
      requires Valid() && i < |files|
      modifies this`out, this`totalWritten, this`fileBytesWritten, this`currentFileIndex
      ensures Now() == FileTurn(old(Now()), i, plan.headers[i], fileStart, plan.lengths[i], pieceStart, data)
    {
      var f := files[i];
      var pieceEnd, fileEnd := pieceStart + |data|, fileStart + f.length;
      var overlapStart := if pieceStart > fileStart then pieceStart else fileStart;
      var overlapEnd := if pieceEnd < fileEnd then pieceEnd else fileEnd;
      if overlapStart < overlapEnd {
        var offsetInFile, offsetInPiece := overlapStart - fileStart, overlapStart - pieceStart;
        var bytes := overlapEnd - overlapStart;
        WriteBytes(i, offsetInFile, Part(data, offsetInPiece, bytes));
      }
    }

    method WriteBytes(i: nat, offsetInFile: nat, data: seq<int>)
      requires Valid() && i < |files|
      modifies this`out, this`totalWritten, this`fileBytesWritten, this`currentFileIndex
      ensures Now() == AddBytes(old(Now()), i, plan.headers[i], plan.lengths[i], offsetInFile, data)
    {
      var f := files[i];
      if i != currentFileIndex {
        var fullPath := JoinPath(f.path);
        WriteHeader(fullPath, f.length, f.mtime);
        currentFileIndex := i;
        fileBytesWritten := 0;
      }
      Put(data);
      fileBytesWritten := fileBytesWritten + |data|;
      if offsetInFile + |data| == f.length {
        WritePadding();
      }
    }

    /** `tar_writer_close`. */
    method Close()
      requires Valid() && currentFileIndex < |files|
      modifies this`out, this`totalWritten
      ensures out == Closed(plan, old(Now()))
    {
      if currentFileIndex >= 0 {
        if fileBytesWritten < files[currentFileIndex].length {
          WritePadding();
        }
      }
      Put(Zeros(1024));
    }
  }

  /** The state of a writer that has been given these pieces, each with its index, in this order. */
  function AfterPieces(a: Plan, pieceLength: nat, log: seq<(nat, seq<int>)>): State
    requires Complete(a)
  {
    if log == [] then State(-1, 0, 0, [])
    else
      var (index, data) := log[|log| - 1];
      PieceTurn(a, AfterPieces(a, pieceLength, log[..|log| - 1]), |a.lengths|, PieceStart(pieceLength, index), data)
  }

  /** The log lists the first pieces of the stream in index order. */
  ghost predicate InOrder(tor: Layout, stream: seq<int>, log: seq<(nat, seq<int>)>) {
    && |log| <= tor.numPieces
    && forall i {:trigger log[i]} :: 0 <= i < |log| ==>
         log[i].0 == i && |log[i].1| == PieceSize(tor, i) && LiesAt(log[i].1, stream, PieceStart(tor.pieceLength, i))
  }

  /** How far the stream is known after the first `n` pieces. */
  function Reach(tor: Layout, n: nat): nat {
    if n == tor.numPieces then tor.totalLength else PieceStart(tor.pieceLength, n)
  }

  lemma {:induction false} OnePieceSynced(a: Plan, tor: Layout, stream: seq<int>, s: State, i: nat, g: nat,
                                          data: seq<int>)
    requires Complete(a) && WellFormed(tor) && a.lengths == tor.files && |stream| == tor.totalLength
    requires i < tor.numPieces && g == PieceStart(tor.pieceLength, i)
    requires |data| == PieceSize(tor, i) && LiesAt(data, stream, g)
    requires Synced(a, stream, s, g)
    ensures Synced(a, stream, PieceTurn(a, s, |a.lengths|, g, data), Reach(tor, i + 1))
  {
    PiecesTile(tor, i);
    var h := Reach(tor, i + 1);
    PieceTurnSynced(a, stream, data, s, |a.lengths|, g, h);
    assert Clamp(FileStart(a.lengths, |a.lengths|), g, h) == h;
  }

  lemma {:induction false} NoPiecesSynced(a: Plan, tor: Layout, stream: seq<int>, log: seq<(nat, seq<int>)>)
    requires Complete(a) && WellFormed(tor) && a.lengths == tor.files && |stream| == tor.totalLength && log == []
    ensures Synced(a, stream, AfterPieces(a, tor.pieceLength, log), Reach(tor, |log|))
  {
    assert Synced(a, stream, State(-1, 0, 0, []), 0);
  }

  /** The last piece of such a log, where it lies, and what it makes of the writer. */
  lemma {:induction false} LastPiece(a: Plan, tor: Layout, stream: seq<int>, log: seq<(nat, seq<int>)>)
    returns (n: nat, before: seq<(nat, seq<int>)>, g: nat, data: seq<int>)
    requires Complete(a) && InOrder(tor, stream, log) && log != []
    ensures n == |log| - 1 == |before| < tor.numPieces && before == log[..n] && InOrder(tor, stream, before)
    ensures g == PieceStart(tor.pieceLength, n) && |data| == PieceSize(tor, n) && LiesAt(data, stream, g)
    ensures AfterPieces(a, tor.pieceLength, log) ==
            PieceTurn(a, AfterPieces(a, tor.pieceLength, before), |a.lengths|, g, data)
  {
    n := |log| - 1;
    before, data := log[..n], log[n].1;
    g := PieceStart(tor.pieceLength, n);
  }

  lemma {:induction false} InOrderIsSynced(a: Plan, tor: Layout, stream: seq<int>, log: seq<(nat, seq<int>)>)
    requires Complete(a) && WellFormed(tor) && a.lengths == tor.files && |stream| == tor.totalLength
    requires InOrder(tor, stream, log)
    ensures Synced(a, stream, AfterPieces(a, tor.pieceLength, log), Reach(tor, |log|))
    decreases |log|
  {
    if log == [] {
      NoPiecesSynced(a, tor, stream, log);
    } else {
      var n, before, g, data := LastPiece(a, tor, stream, log);
      InOrderIsSynced(a, tor, stream, before);
      OnePieceSynced(a, tor, stream, AfterPieces(a, tor.pieceLength, before), n, g, data);
    }
  }

  /**
    When the pieces come in index order, the closed output is an archive from which the reader recovers exactly the
    files that are not empty, with their names and contents, if and only if each of those is portable.
   */
  lemma ArchiveReadsBack(a: Plan, tor: Layout, files: seq<TarReader.Entry>, stream: seq<int>, log: seq<(nat, seq<int>)>)
    requires Complete(a) && WellFormed(tor) && a.lengths == tor.files && |stream| == tor.totalLength
    requires Describes(a, files)
    requires InOrder(tor, stream, log) && |log| == tor.numPieces
    ensures AfterPieces(a, tor.pieceLength, log).current < |a.lengths|
    ensures Read(Closed(a, AfterPieces(a, tor.pieceLength, log))) == Some(Members(files, a.lengths, stream, 0)) <==>
            AllPortable(files, 0)
  {
    InOrderIsSynced(a, tor, stream, log);
    ClosedIsArchive(a, stream, AfterPieces(a, tor.pieceLength, log));
    ReadBack(a, files, stream);
  }

  /**
    When moreover all files are portable and no component holds a slash, the recovered names, cut at their slashes, are
    the paths of the files that are not empty.
   */
  lemma ArchivePaths(a: Plan, tor: Layout, files: seq<TarFile>, stream: seq<int>, log: seq<(nat, seq<int>)>)
    requires Complete(a) && WellFormed(tor) && a.lengths == tor.files && |stream| == tor.totalLength
    requires Describes(a, Entries(files)) && AllPortable(Entries(files), 0) && NoSlashes(files)
    requires InOrder(tor, stream, log) && |log| == tor.numPieces
    ensures AfterPieces(a, tor.pieceLength, log).current < |a.lengths|
    ensures
      var r := Read(Closed(a, AfterPieces(a, tor.pieceLength, log)));
      r.Some? && NamesAre(r.value, Paths(files, 0))
  {
    ArchiveReadsBack(a, tor, Entries(files), stream, log);
    MembersNamed(files, a.lengths, stream, 0);
  }

  /** The headers a writer puts out are the ones a reader expects for its files. */
  lemma PlanDescribes(a: Plan, files: seq<TarFile>)
    requires |a.lengths| == |a.headers| == |files|
    requires forall i {:trigger files[i]} :: 0 <= i < |files| ==>
               a.lengths[i] == files[i].length && a.headers[i] == HeaderOf(EntryOf(files[i])) &&
               0 !in FullPath(files[i].path)
    ensures Describes(a, Entries(files))
  {
    var entries := Entries(files);
    forall i {:trigger entries[i]} | 0 <= i < |entries|
      ensures a.lengths[i] == entries[i].length && HeaderFor(a.headers[i], entries[i])
    {
      HeaderOfIs(EntryOf(files[i]));
    }
  }
}
