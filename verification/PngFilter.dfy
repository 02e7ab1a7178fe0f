/**
  PNG scanline filtering (HW_16-OpenGL/stb_image.h: `stbi__paeth` and the filter loop of
  `stbi__create_png_image_raw`) against clause 9 of the PNG specification (ISO/IEC 15948).
 */
module PngFilter {

  // ---------- the specification ----------

  function Abs(x: int): int {
    if x < 0 then -x else x
  }

  /** The Paeth predictor as the specification defines it. */
  function RefPaeth(a: int, b: int, c: int): int {
    var p := a + b - c;
    var pa, pb, pc := Abs(p - a), Abs(p - b), Abs(p - c);
    if pa <= pb && pa <= pc then a else if pb <= pc then b else c
  }

  /** The prediction from the byte to the left, the byte above, and the byte above to the left. */
  function Predict(filter: nat, a: int, b: int, c: int): int {
    if filter == 0 then 0
    else if filter == 1 then a
    else if filter == 2 then b
    else if filter == 3 then (a + b) / 2
    else RefPaeth(a, b, c)
  }

  type Row = seq<int>

  predicate Bytes(row: Row) {
    forall k :: 0 <= k < |row| ==> 0 <= row[k] < 256
  }

  function Left(row: Row, bpp: nat, k: nat): int
    requires k < |row|
  {
    if k < bpp then 0 else row[k - bpp]
  }

  function PredictAt(filter: nat, bpp: nat, row: Row, prior: Row, k: nat): int
    requires |row| == |prior| && k < |row|
  {
    Predict(filter, Left(row, bpp, k), prior[k], Left(prior, bpp, k))
  }

  /** The filtered form of a row, as an encoder writes it. */
  function Filtered(filter: nat, bpp: nat, row: Row, prior: Row): (r: Row)
    requires |row| == |prior|
    ensures |r| == |row|
  {
    seq(|row|, k requires 0 <= k < |row| => (row[k] - PredictAt(filter, bpp, row, prior, k)) % 256)
  }

  function ZeroRow(n: nat): (r: Row)
    ensures |r| == n
  {
    seq(n, _ => 0)
  }

  function Prior(rows: seq<Row>, j: nat, w: nat): Row
    requires j <= |rows|
  {
    if j == 0 then ZeroRow(w) else rows[j - 1]
  }

  /** What an encoder writes for the first `j` rows of an image, with one filter type per row. */
  function Encoded(rows: seq<Row>, filters: seq<nat>, bpp: nat, w: nat, j: nat): seq<int>
    requires j <= |rows| == |filters|
    requires forall i :: 0 <= i < |rows| ==> |rows[i]| == w
  {
    if j == 0 then []
    else Encoded(rows, filters, bpp, w, j - 1) + [filters[j - 1]] +
         Filtered(filters[j - 1], bpp, rows[j - 1], Prior(rows, j - 1, w))
  }

  // ---------- the predictor ----------

  /** `stbi__paeth`: the data-flow form is the predictor of the specification, for all integers. */
  function Paeth(a: int, b: int, c: int): (r: int)
    ensures r == RefPaeth(a, b, c)
  {
    var thresh := c * 3 - (a + b);
    var lo := if a < b then a else b;
    var hi := if a < b then b else a;
    var t0 := if hi <= thresh then lo else c;
    if thresh <= lo then hi else t0
  }

  // ---------- reconstruction ----------

  /** Each byte of `out` is the filtered byte plus the prediction from `out` itself and the row above, modulo 256. */
  ghost predicate Reconstructs(filter: nat, bpp: nat, src: Row, out: Row, prior: Row)
    requires |src| == |out| == |prior|
  {
    forall k {:trigger out[k]} :: 0 <= k < |out| ==> out[k] == (src[k] + PredictAt(filter, bpp, out, prior, k)) % 256
  }

  lemma {:induction false} SameByte(filter: nat, bpp: nat, src: Row, out: Row, row: Row, prior: Row, k: nat)
    requires bpp > 0 && |src| == |out| == |prior| == |row| && k < |row|
    requires src == Filtered(filter, bpp, row, prior) && Bytes(row)
    requires Reconstructs(filter, bpp, src, out, prior)
    ensures out[k] == row[k]
    decreases k
  {
    if k >= bpp { SameByte(filter, bpp, src, out, row, prior, k - bpp); }
    var pred := PredictAt(filter, bpp, row, prior, k);
    assert PredictAt(filter, bpp, out, prior, k) == pred;
    assert src[k] == (row[k] - pred) % 256;
    AddBack(row[k], pred);
  }

  lemma AddBack(x: int, pred: int)
    requires 0 <= x < 256
    ensures ((x - pred) % 256 + pred) % 256 == x
  {
  }

  /** What is reconstructed from a filtered row is that row. */
  lemma RowRecovered(filter: nat, bpp: nat, src: Row, out: Row, row: Row, prior: Row)
    requires bpp > 0 && |src| == |out| == |prior| == |row|
    requires src == Filtered(filter, bpp, row, prior) && Bytes(row)
    requires Reconstructs(filter, bpp, src, out, prior)
    ensures out == row
  {
    forall k | 0 <= k < |row| ensures out[k] == row[k] {
      SameByte(filter, bpp, src, out, row, prior, k);
    }
  }

  // ---------- what each filter byte calls for ----------

  function Distance(x: int, y: int): nat {
    if x < y then y - x else x - y
  }

  /** `p` is the one of `a`, `b` and `c` nearest to `a + b - c`; of equally near ones the earlier. */
  ghost predicate Nearest(p: int, a: int, b: int, c: int) {
    var estimate := a + b - c;
    && (p == a || p == b || p == c)
    && (p != a ==> Distance(a, estimate) > Distance(p, estimate))
    && (p != b ==> Distance(b, estimate) >= Distance(p, estimate))
    && (p != c ==> Distance(c, estimate) >= Distance(p, estimate))
    && (p != a && p != b ==> Distance(b, estimate) > Distance(p, estimate))
  }

  predicate IsHalf(v: int, left: int, above: int) {
    2 * v <= left + above < 2 * v + 2
  }

  /** The byte a decoder must put out for `x` under a filter byte, from the bytes to the left, above, and above left. */
  ghost predicate Restored(filter: int, x: int, out: int, left: int, above: int, corner: int) {
    && 0 <= filter <= 4
    && (filter == 0 ==> out == x % 256)
    && (filter == 1 ==> out == (x + left) % 256)
    && (filter == 2 ==> out == (x + above) % 256)
    && (filter == 3 ==> exists v: int :: IsHalf(v, left, above) && out == (x + v) % 256)
    && (filter == 4 ==> exists p: int :: Nearest(p, left, above, corner) && out == (x + p) % 256)
  }

  /**
    The same for the k-th byte of a row, `bpp` bytes behind the one to its left; beyond the image all bytes are zero.
   */
  ghost predicate ByteRestored(filter: int, bpp: nat, src: Row, out: Row, prior: Row, k: nat)
    requires k < |src| == |out| == |prior|
  {
    Restored(filter, src[k], out[k], if k < bpp then 0 else out[k - bpp], prior[k],
             if k < bpp then 0 else prior[k - bpp])
  }

  ghost predicate RowRestored(filter: int, bpp: nat, src: Row, out: Row, prior: Row)
    requires |src| == |out| == |prior|
  {
    forall k: nat :: k < |src| ==> ByteRestored(filter, bpp, src, out, prior, k)
  }

  lemma PaethNearest(a: int, b: int, c: int)
    ensures Nearest(RefPaeth(a, b, c), a, b, c)
  {
  }

  /** A reconstructed row has the bytes that its filter byte calls for. */
  lemma ReconstructsRestores(filter: nat, bpp: nat, src: Row, out: Row, prior: Row)
    requires |src| == |out| == |prior| && filter <= 4 && Reconstructs(filter, bpp, src, out, prior)
    ensures RowRestored(filter, bpp, src, out, prior)
  {
    forall k: nat | k < |src| ensures ByteRestored(filter, bpp, src, out, prior, k) {
      var left, above, corner := Left(out, bpp, k), prior[k], Left(prior, bpp, k);
      var v := Predict(filter, left, above, corner);
      assert out[k] == (src[k] + v) % 256;
      if filter == 3 { assert IsHalf(v, left, above); }
      if filter == 4 { PaethNearest(left, above, corner); }
    }
  }

  // ---------- the loops, in one half of the filter buffer ----------

  /** The row in the half of the buffer that begins at `at`. */
  function Half(buf: seq<int>, at: nat, w: nat): (r: Row)
    requires at + w <= |buf|
    ensures |r| == w
  {
    buf[at..at + w]
  }

  /** Only the half at `cur` has changed. */
  twostate predicate OnlyHalf(buf: array<int>, cur: nat, w: nat)
    reads buf
  {
    forall i {:trigger buf[i]} :: 0 <= i < buf.Length && !(cur <= i < cur + w) ==> buf[i] == old(buf[i])
  }

  /** `memcpy` of `n` bytes into the current half. */
  method CopyRow(buf: array<int>, cur: nat, src: Row, n: nat)
    requires cur + n <= buf.Length && n <= |src|
    modifies buf
    ensures forall k {:trigger src[k]} :: 0 <= k < n ==> buf[cur + k] == src[k]
    ensures OnlyHalf(buf, cur, n)
  {
    forall k | 0 <= k < n { buf[cur + k] := src[k]; }
  }

  /** The loop of the sub filter and, with halving, of the average filter on the first row, from byte `bpp` on. */
  method FromLeft(buf: array<int>, cur: nat, src: Row, bpp: nat, halve: bool)
    requires 0 < bpp <= |src| && cur + |src| <= buf.Length
    modifies buf
    ensures forall k {:trigger src[k]} :: bpp <= k < |src| ==>
              buf[cur + k] == (src[k] + (if halve then buf[cur + k - bpp] / 2 else buf[cur + k - bpp])) % 256
    ensures OnlyHalf(buf, cur + bpp, |src| - bpp)
  {
    var k := bpp;
    while k < |src|
      invariant bpp <= k <= |src|
      invariant forall i {:trigger src[i]} :: bpp <= i < k ==>
                  buf[cur + i] == (src[i] + (if halve then buf[cur + i - bpp] / 2 else buf[cur + i - bpp])) % 256
      invariant OnlyHalf(buf, cur + bpp, |src| - bpp)
    {
      var left := buf[cur + k - bpp];
      buf[cur + k] := (src[k] + (if halve then left / 2 else left)) % 256;
      k := k + 1;
    }
  }

  /** The loops of the up, average and Paeth filters, which look at the other half. */
  method FromAbove(filter: nat, buf: array<int>, cur: nat, prior: nat, src: Row, bpp: nat)
    requires 2 <= filter <= 4 && 0 < bpp <= |src|
    requires cur + |src| <= buf.Length && prior + |src| <= buf.Length
    requires cur + |src| <= prior || prior + |src| <= cur
    modifies buf
    ensures forall k {:trigger src[k]} :: 0 <= k < |src| ==>
              buf[cur + k] == (src[k] + Predict(filter, if k < bpp then 0 else buf[cur + k - bpp], buf[prior + k],
                                                if k < bpp then 0 else buf[prior + k - bpp])) % 256
    ensures OnlyHalf(buf, cur, |src|)
  {
    var k := 0;
    while k < |src|
      invariant 0 <= k <= |src|
      invariant forall i {:trigger src[i]} :: 0 <= i < k ==>
                  buf[cur + i] == (src[i] + Predict(filter, if i < bpp then 0 else buf[cur + i - bpp], buf[prior + i],
                                                    if i < bpp then 0 else buf[prior + i - bpp])) % 256
      invariant OnlyHalf(buf, cur, |src|)
    {
      var above := buf[prior + k];
      var pred;
      if k < bpp {
        pred := if filter == 3 then above / 2 else above;
      } else {
        var left, corner := buf[cur + k - bpp], buf[prior + k - bpp];
        pred := if filter == 2 then above else if filter == 3 then (above + left) / 2 else Paeth(left, above, corner);
      }
      buf[cur + k] := (src[k] + pred) % 256;
      k := k + 1;
    }
  }

  /** `first_row_filter`: the filters for a first row, 5 standing for the average without a row above. */
  function FirstRowFilter(filter: nat): nat
    requires filter <= 4
  {
    if filter == 0 then 0 else if filter == 1 then 1 else if filter == 2 then 0 else if filter == 3 then 5 else 1
  }

  /** The switch over the filters of the first row: the same as any row under an all-zero row. */
  method FirstRow(filter: nat, buf: array<int>, cur: nat, src: Row, bpp: nat)
    requires filter <= 4 && 0 < bpp <= |src| && cur + |src| <= buf.Length && Bytes(src)
    modifies buf
    ensures Reconstructs(filter, bpp, src, Half(buf[..], cur, |src|), ZeroRow(|src|))
    ensures Bytes(Half(buf[..], cur, |src|))
    ensures OnlyHalf(buf, cur, |src|)
  {
    var special := FirstRowFilter(filter);
    if special == 0 {
      CopyRow(buf, cur, src, |src|);
    } else {
      CopyRow(buf, cur, src, bpp);
      FromLeft(buf, cur, src, bpp, special == 5);
    }
    ghost var out := Half(buf[..], cur, |src|);
    forall k {:trigger out[k]} | 0 <= k < |src|
      ensures out[k] == (src[k] + PredictAt(filter, bpp, out, ZeroRow(|src|), k)) % 256
    {
      assert out[k] == buf[cur + k];
      if k >= bpp {
        assert out[k - bpp] == buf[cur + k - bpp];
      }
    }
  }

  /** The switch over the filters of a later row. */
  method LaterRow(filter: nat, buf: array<int>, cur: nat, prior: nat, src: Row, bpp: nat)
    requires filter <= 4 && 0 < bpp <= |src| && Bytes(src)
    requires cur + |src| <= buf.Length && prior + |src| <= buf.Length
    requires cur + |src| <= prior || prior + |src| <= cur
    modifies buf
    ensures Reconstructs(filter, bpp, src, Half(buf[..], cur, |src|), Half(buf[..], prior, |src|))
    ensures OnlyHalf(buf, cur, |src|)
  {
    if filter == 0 {
      CopyRow(buf, cur, src, |src|);
    } else if filter == 1 {
      CopyRow(buf, cur, src, bpp);
      FromLeft(buf, cur, src, bpp, false);
    } else {
      FromAbove(filter, buf, cur, prior, src, bpp);
    }
    ghost var out, above := Half(buf[..], cur, |src|), Half(buf[..], prior, |src|);
    forall k {:trigger out[k]} | 0 <= k < |src|
      ensures out[k] == (src[k] + PredictAt(filter, bpp, out, above, k)) % 256 {
      assert out[k] == buf[cur + k] && above[k] == buf[prior + k];
      if k >= bpp {
        assert out[k - bpp] == buf[cur + k - bpp] && above[k - bpp] == buf[prior + k - bpp];
      }
    }
  }

  datatype Outcome = Image(rows: seq<Row>) | NotEnoughPixels | InvalidFilter

  /** Where the j-th row, with its filter byte in front, begins in the raw data. */
  function RowPos(w: nat, j: nat): nat {
    if j == 0 then 0 else RowPos(w, j - 1) + (w + 1)
  }

  lemma {:induction false} RowPosIsProduct(w: nat, j: nat)
    ensures (w + 1) * j == RowPos(w, j)
  {
    if j > 0 {
      RowPosIsProduct(w, j - 1);
      assert (w + 1) * j == (w + 1) * (j - 1) + (w + 1);
    }
  }

  lemma {:induction false} RowPosMono(w: nat, i: nat, j: nat)
    requires i < j
    ensures RowPos(w, i) + w + 1 <= RowPos(w, j)
    decreases j
  {
    if i < j - 1 { RowPosMono(w, i, j - 1); }
  }

  function FilterOf(raw: seq<int>, w: nat, j: nat): int {
    if RowPos(w, j) < |raw| then raw[RowPos(w, j)] else 0
  }

  function SourceOf(raw: seq<int>, w: nat, j: nat): (r: Row)
    requires RowPos(w, j) + w + 1 <= |raw|
    ensures |r| == w
  {
    raw[RowPos(w, j) + 1..RowPos(w, j) + 1 + w]
  }

  /** `rows` are the reconstructions of the first `y` rows of the raw data. */
  ghost predicate Unfiltered(raw: seq<int>, w: nat, bpp: nat, y: nat, rows: seq<Row>)
    requires RowPos(w, y) <= |raw|
  {
    && |rows| == y
    && forall j: nat {:trigger RowUnfiltered(raw, w, bpp, rows, j)} :: j < y ==> RowUnfiltered(raw, w, bpp, rows, j)
  }

  ghost predicate RowUnfiltered(raw: seq<int>, w: nat, bpp: nat, rows: seq<Row>, j: nat)
    requires j < |rows|
  {
    && |rows[j]| == w && (j > 0 ==> |rows[j - 1]| == w)
    && RowPos(w, j) + w + 1 <= |raw|
    && 0 <= FilterOf(raw, w, j) <= 4
    && Reconstructs(FilterOf(raw, w, j), bpp, SourceOf(raw, w, j), rows[j], Prior(rows, j, w))
  }

  /** Some row has a filter byte that stands for no filter. */
  ghost predicate BadFilter(raw: seq<int>, w: nat, y: nat) {
    exists j: nat {:trigger FilterOf(raw, w, j)} :: j < y && FilterOf(raw, w, j) > 4
  }

  /** Row `j` stands behind its filter byte at byte `(w + 1) * j` of the raw data, and is what that byte makes of it. */
  ghost predicate RowStands(raw: seq<int>, w: nat, bpp: nat, rows: seq<Row>, j: nat)
    requires j < |rows|
  {
    var at := (w + 1) * j;
    && at + w + 1 <= |raw| && |rows[j]| == w && (j > 0 ==> |rows[j - 1]| == w)
    && RowRestored(raw[at], bpp, raw[at + 1..at + 1 + w], rows[j], if j == 0 then ZeroRow(w) else rows[j - 1])
  }

  lemma UnfilteredStands(raw: seq<int>, w: nat, bpp: nat, rows: seq<Row>, j: nat)
    requires j < |rows| && RowUnfiltered(raw, w, bpp, rows, j)
    ensures RowStands(raw, w, bpp, rows, j)
  {
    RowPosIsProduct(w, j);
    ReconstructsRestores(FilterOf(raw, w, j), bpp, SourceOf(raw, w, j), rows[j], Prior(rows, j, w));
  }

  /** The body of the loop over rows: reads the filter byte, and leaves the row in its half of the buffer. */
  method UnfilterRow(buf: array<int>, raw: seq<int>, w: nat, bpp: nat, j: nat, at: nat, cur: nat, prior: nat)
    returns (ok: bool, row: Row)
    requires 0 < bpp <= w && Bytes(raw)
    requires cur + w <= buf.Length && prior + w <= buf.Length && (cur + w <= prior || prior + w <= cur)
    requires at == RowPos(w, j) && at + w + 1 <= |raw|
    modifies buf
    ensures ok <==> FilterOf(raw, w, j) <= 4
    ensures ok ==> |row| == w && row == Half(buf[..], cur, w)
    ensures ok ==> Half(buf[..], prior, w) == old(Half(buf[..], prior, w))
    ensures ok ==> 0 <= FilterOf(raw, w, j) <= 4 &&
                   Reconstructs(FilterOf(raw, w, j), bpp, SourceOf(raw, w, j), row,
                                if j == 0 then ZeroRow(w) else old(Half(buf[..], prior, w)))
    ensures ok ==> RowRestored(raw[at], bpp, raw[at + 1..at + 1 + w], row,
                               if j == 0 then ZeroRow(w) else old(buf[prior..prior + w]))
  {
    var filter := raw[at];
    row := [];
    if filter > 4 { return false, row; }
    var src := SourceOf(raw, w, j);
    ghost var above := Half(buf[..], prior, w);
    if j == 0 {
      FirstRow(filter, buf, cur, src, bpp);
    } else {
      LaterRow(filter, buf, cur, prior, src, bpp);
    }
    assert Half(buf[..], prior, w) == above;
    ok, row := true, buf[cur..cur + w];
    ReconstructsRestores(filter, bpp, src, row, if j == 0 then ZeroRow(w) else above);
  }

  method RawLength(w: nat, y: nat) returns (n: nat)
    ensures n == RowPos(w, y)
  {
    n := (w + 1) * y;
    RowPosIsProduct(w, y);
  }

  /** The filter loop of `stbi__create_png_image_raw` for rows of `w` bytes. */
  method CreateRaw(raw: seq<int>, w: nat, bpp: nat, y: nat) returns (o: Outcome)
    requires 0 < bpp <= w && Bytes(raw)
    ensures o.NotEnoughPixels? <==> |raw| < RowPos(w, y)
    ensures o.InvalidFilter? <==> RowPos(w, y) <= |raw| && BadFilter(raw, w, y)
    ensures o.Image? ==> RowPos(w, y) <= |raw| && Unfiltered(raw, w, bpp, y, o.rows)
    ensures o.Image? ==> |o.rows| == y && forall j: nat :: j < y ==> RowStands(raw, w, bpp, o.rows, j)
  {
    var imgLen := RawLength(w, y);
    if |raw| < imgLen { return NotEnoughPixels; }
    var buf := new int[w + w];
    var rows: seq<Row>, at, j, cur, prior := [], 0, 0, 0, w;
    while j < y
      invariant 0 <= j <= y && at == RowPos(w, j) && at <= |raw|
      invariant Unfiltered(raw, w, bpp, j, rows)
      invariant (cur == 0 && prior == w) || (cur == w && prior == 0)
      invariant cur == (if j % 2 == 0 then 0 else w)
      invariant fresh(buf)
      invariant j > 0 ==> Half(buf[..], prior, w) == rows[j - 1]
      invariant forall i: nat {:trigger FilterOf(raw, w, i)} :: i < j ==> FilterOf(raw, w, i) <= 4
    {
      RowPosMono(w, j, y);
      var ok, row := UnfilterRow(buf, raw, w, bpp, j, at, cur, prior);
      if !ok { return InvalidFilter; }
      RowAdded(raw, w, bpp, rows, row, j);
      rows := rows + [row];
      at := at + w + 1;
      j := j + 1;
      cur, prior := prior, cur;
    }
    o := Image(rows);
    forall j: nat | j < y ensures RowStands(raw, w, bpp, rows, j) { UnfilteredStands(raw, w, bpp, rows, j); }
  }

  lemma RowStays(raw: seq<int>, w: nat, bpp: nat, rows: seq<Row>, row: Row, i: nat)
    requires i < |rows| && RowUnfiltered(raw, w, bpp, rows, i)
    ensures RowUnfiltered(raw, w, bpp, rows + [row], i)
  {
    var now := rows + [row];
    assert now[i] == rows[i] && (i > 0 ==> now[i - 1] == rows[i - 1]);
    assert Prior(now, i, w) == Prior(rows, i, w);
  }

  lemma RowAdded(raw: seq<int>, w: nat, bpp: nat, rows: seq<Row>, row: Row, j: nat)
    requires RowPos(w, j) + w + 1 <= |raw| && |row| == w
    requires Unfiltered(raw, w, bpp, j, rows)
    requires 0 <= FilterOf(raw, w, j) <= 4
    requires j > 0 ==> |rows[j - 1]| == w
    requires Reconstructs(FilterOf(raw, w, j), bpp, SourceOf(raw, w, j), row, Prior(rows, j, w))
    ensures RowPos(w, j + 1) <= |raw| && Unfiltered(raw, w, bpp, j + 1, rows + [row])
  {
    var now := rows + [row];
    forall i: nat {:trigger RowUnfiltered(raw, w, bpp, now, i)} | i < j + 1 ensures RowUnfiltered(raw, w, bpp, now, i) {
      if i < j {
        RowStays(raw, w, bpp, rows, row, i);
      } else {
        assert now[j] == row && (j > 0 ==> now[j - 1] == rows[j - 1]);
        assert Prior(now, j, w) == Prior(rows, j, w);
      }
    }
  }

  // ---------- decoding what was encoded ----------

  lemma {:induction false} EncodedAt(rows: seq<Row>, filters: seq<nat>, bpp: nat, w: nat, n: nat, j: nat)
    requires j < n <= |rows| == |filters|
    requires forall i :: 0 <= i < |rows| ==> |rows[i]| == w
    ensures |Encoded(rows, filters, bpp, w, n)| == RowPos(w, n)
    ensures RowPos(w, j) + w + 1 <= RowPos(w, n)
    ensures FilterOf(Encoded(rows, filters, bpp, w, n), w, j) == filters[j]
    ensures SourceOf(Encoded(rows, filters, bpp, w, n), w, j) == Filtered(filters[j], bpp, rows[j], Prior(rows, j, w))
    decreases n
  {
    EncodedLength(rows, filters, bpp, w, n);
    EncodedLength(rows, filters, bpp, w, n - 1);
    RowPosMono(w, j, n);
    var before, e := Encoded(rows, filters, bpp, w, n - 1), Encoded(rows, filters, bpp, w, n);
    if j < n - 1 {
      EncodedAt(rows, filters, bpp, w, n - 1, j);
      RowPosMono(w, j, n - 1);
      assert SourceOf(e, w, j) == SourceOf(before, w, j);
    }
  }

  lemma {:induction false} EncodedLength(rows: seq<Row>, filters: seq<nat>, bpp: nat, w: nat, n: nat)
    requires n <= |rows| == |filters|
    requires forall i :: 0 <= i < |rows| ==> |rows[i]| == w
    ensures |Encoded(rows, filters, bpp, w, n)| == RowPos(w, n)
    decreases n
  {
    if n > 0 { EncodedLength(rows, filters, bpp, w, n - 1); }
  }

  lemma PrefixRow(e: seq<int>, rest: seq<int>, w: nat, j: nat)
    requires RowPos(w, j) + w + 1 <= |e|
    ensures FilterOf(e + rest, w, j) == FilterOf(e, w, j) && SourceOf(e + rest, w, j) == SourceOf(e, w, j)
  {
  }

  /** The raw data begins with the filtered form of these rows, whatever follows. */
  ghost predicate Carries(raw: seq<int>, rows: seq<Row>, filters: seq<nat>, bpp: nat, w: nat) {
    && |rows| == |filters|
    && (forall i {:trigger rows[i]} :: 0 <= i < |rows| ==> |rows[i]| == w && Bytes(rows[i]))
    && (forall i {:trigger filters[i]} :: 0 <= i < |filters| ==> filters[i] <= 4)
    && exists rest :: raw == Encoded(rows, filters, bpp, w, |rows|) + rest
  }

  lemma RowCarried(raw: seq<int>, rows: seq<Row>, filters: seq<nat>, bpp: nat, w: nat, j: nat)
    requires Carries(raw, rows, filters, bpp, w) && j < |rows|
    ensures RowPos(w, j) + w + 1 <= |raw|
    ensures FilterOf(raw, w, j) == filters[j]
    ensures SourceOf(raw, w, j) == Filtered(filters[j], bpp, rows[j], Prior(rows, j, w))
  {
    var e := Encoded(rows, filters, bpp, w, |rows|);
    var rest :| raw == e + rest;
    EncodedAt(rows, filters, bpp, w, |rows|, j);
    PrefixRow(e, rest, w, j);
  }

  /** Any image, filtered with any filter type from 0 to 4 per row, is recovered; data behind it does not matter. */
  lemma {:induction false} ImageRecovered(raw: seq<int>, rows: seq<Row>, filters: seq<nat>, bpp: nat, w: nat,
                                          out: seq<Row>, j: nat)
    requires bpp > 0 && j < |rows| == |out| && Carries(raw, rows, filters, bpp, w)
    requires forall i: nat {:trigger RowUnfiltered(raw, w, bpp, out, i)} :: i < |out| ==>
      RowUnfiltered(raw, w, bpp, out, i)
    ensures out[j] == rows[j]
    decreases j
  {
    if j > 0 { ImageRecovered(raw, rows, filters, bpp, w, out, j - 1); }
    RowCarried(raw, rows, filters, bpp, w, j);
    assert RowUnfiltered(raw, w, bpp, out, j);
    assert Prior(out, j, w) == Prior(rows, j, w);
    RowRecovered(filters[j], bpp, SourceOf(raw, w, j), out[j], rows[j], Prior(rows, j, w));
  }

  /** The filter loop on any encoded image returns that image. */
  method DecodeEncoded(rows: seq<Row>, filters: seq<nat>, bpp: nat, w: nat, raw: seq<int>) returns (o: Outcome)
    requires 0 < bpp <= w && Bytes(raw) && Carries(raw, rows, filters, bpp, w)
    ensures o == Image(rows)
  {
    o := CreateRaw(raw, w, bpp, |rows|);
    EnoughData(raw, rows, filters, bpp, w);
    forall j: nat | j < |rows| ensures FilterOf(raw, w, j) <= 4 {
      RowCarried(raw, rows, filters, bpp, w, j);
    }
    forall j | 0 <= j < |rows| ensures o.rows[j] == rows[j] {
      ImageRecovered(raw, rows, filters, bpp, w, o.rows, j);
    }
  }

  lemma EnoughData(raw: seq<int>, rows: seq<Row>, filters: seq<nat>, bpp: nat, w: nat)
    requires Carries(raw, rows, filters, bpp, w)
    ensures RowPos(w, |rows|) <= |raw|
  {
    EncodedLength(rows, filters, bpp, w, |rows|);
  }
}
