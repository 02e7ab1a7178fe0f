/**
  A whole interlaced PNG image (HW_16-OpenGL/stb_image.h: `stbi__create_png_image`): the seven passes lie one behind the
  other in the raw data, each filtered on its own, and their pixels are spread over the image. Pixels have `bpp` bytes.
 */
module PngImage {
  import opened PngFilter
  import opened Adam7

  type Pixel = seq<int>

  // ---------- pixels and bytes of a row ----------

  /** Where pixel `i` of a row begins. */
  function Start(bpp: nat, i: nat): nat {
    if i == 0 then 0 else Start(bpp, i - 1) + bpp
  }

  lemma {:induction false} StartMono(bpp: nat, i: nat, n: nat)
    requires i < n
    ensures Start(bpp, i) + bpp <= Start(bpp, n)
    decreases n
  {
    if i < n - 1 { StartMono(bpp, i, n - 1); }
  }

  function RowBytes(pixels: seq<Pixel>): Row {
    if pixels == [] then [] else RowBytes(pixels[..|pixels| - 1]) + pixels[|pixels| - 1]
  }

  function PixelAt(row: Row, bpp: nat, i: nat): Pixel {
    if Start(bpp, i) + bpp <= |row| then row[Start(bpp, i)..Start(bpp, i) + bpp] else []
  }

  function PixelsOf(row: Row, bpp: nat, x: nat): (pixels: seq<Pixel>)
    ensures |pixels| == x
  {
    seq(x, i requires 0 <= i < x => PixelAt(row, bpp, i))
  }

  function PassPixels(rows: seq<Row>, bpp: nat, x: nat): (pass: Pass<Pixel>)
    ensures |pass| == |rows|
    ensures forall j {:trigger pass[j]} :: 0 <= j < |pass| ==> |pass[j]| == x
  {
    seq(|rows|, j requires 0 <= j < |rows| => PixelsOf(rows[j], bpp, x))
  }

  function PassRows(pass: Pass<Pixel>): (rows: seq<Row>)
    ensures |rows| == |pass|
  {
    seq(|pass|, j requires 0 <= j < |pass| => RowBytes(pass[j]))
  }

  lemma {:induction false} RowBytesLength(pixels: seq<Pixel>, bpp: nat)
    requires forall i {:trigger pixels[i]} :: 0 <= i < |pixels| ==> |pixels[i]| == bpp && Bytes(pixels[i])
    ensures |RowBytes(pixels)| == Start(bpp, |pixels|) && Bytes(RowBytes(pixels))
  {
    if pixels != [] { RowBytesLength(pixels[..|pixels| - 1], bpp); }
  }

  lemma {:induction false} PixelBack(pixels: seq<Pixel>, bpp: nat, i: nat)
    requires forall i {:trigger pixels[i]} :: 0 <= i < |pixels| ==> |pixels[i]| == bpp && Bytes(pixels[i])
    requires i < |pixels|
    ensures PixelAt(RowBytes(pixels), bpp, i) == pixels[i]
    decreases |pixels|
  {
    var last := |pixels| - 1;
    RowBytesLength(pixels, bpp);
    RowBytesLength(pixels[..last], bpp);
    if i < last {
      PixelBack(pixels[..last], bpp, i);
      StartMono(bpp, i, last);
      assert PixelAt(RowBytes(pixels), bpp, i) == PixelAt(RowBytes(pixels[..last]), bpp, i);
    }
  }

  // ---------- the passes in the raw data ----------

  predicate Empty(p: nat, h: nat, w: nat)
    requires p < 7
  {
    PassWidth(p, w) <= 0 || PassHeight(p, h) <= 0
  }

  /** `img_len` of a pass. */
  function PassLength(p: nat, h: nat, w: nat, bpp: nat): nat
    requires p < 7
  {
    if Empty(p, h, w) then 0 else RowPos(Start(bpp, PassWidth(p, w)), PassHeight(p, h))
  }

  /** Where the data of pass `p` begins. */
  function PassPos(p: nat, h: nat, w: nat, bpp: nat): nat
    requires p <= 7
  {
    if p == 0 then 0 else PassPos(p - 1, h, w, bpp) + PassLength(p - 1, h, w, bpp)
  }

  /** There is enough data for pass `p`, and every row of it names a filter. */
  ghost predicate PassGood(raw: seq<int>, p: nat, h: nat, w: nat, bpp: nat)
    requires p < 7
  {
    Empty(p, h, w) ||
    (PassPos(p, h, w, bpp) + PassLength(p, h, w, bpp) <= |raw| &&
     !BadFilter(raw[PassPos(p, h, w, bpp)..], Start(bpp, PassWidth(p, w)), PassHeight(p, h)))
  }

  /** `pass` is what pass `p` of the raw data stands for. */
  ghost predicate PassIn(raw: seq<int>, p: nat, h: nat, w: nat, bpp: nat, pass: Pass<Pixel>)
    requires p < 7
  {
    if Empty(p, h, w) then pass == []
    else
      && PassPos(p, h, w, bpp) + PassLength(p, h, w, bpp) <= |raw|
      && exists rows {:trigger PassPixels(rows, bpp, PassWidth(p, w))} ::
        && Unfiltered(raw[PassPos(p, h, w, bpp)..], Start(bpp, PassWidth(p, w)), bpp, PassHeight(p, h), rows)
        && pass == PassPixels(rows, bpp, PassWidth(p, w))
  }

  ghost predicate PassesIn(raw: seq<int>, h: nat, w: nat, bpp: nat, passes: seq<Pass<Pixel>>) {
    |passes| <= 7 && forall p {:trigger passes[p]} :: 0 <= p < |passes| ==> PassIn(raw, p, h, w, bpp, passes[p])
  }

  /** One pass: its rows, if it has any. */
  method DecodePass(raw: seq<int>, p: nat, h: nat, w: nat, bpp: nat, pos: nat)
    returns (ok: bool, pass: Pass<Pixel>, next: nat)
    requires p < 7 && bpp > 0 && Bytes(raw) && pos == PassPos(p, h, w, bpp) <= |raw|
    ensures ok <==> PassGood(raw, p, h, w, bpp)
    ensures ok ==> PassIn(raw, p, h, w, bpp, pass) && next == PassPos(p + 1, h, w, bpp) <= |raw|
  {
    var x, y := PassWidth(p, w), PassHeight(p, h);
    pass, next := [], pos;
    if x <= 0 || y <= 0 { return true, pass, next; }
    StartMono(bpp, 0, x);
    var width := Start(bpp, x);
    var o := CreateRaw(raw[pos..], width, bpp, y);
    if !o.Image? {
      return false, pass, next;
    }
    NoneBad(raw[pos..], width, bpp, y, o.rows);
    var imgLen := RawLength(width, y);
    pass := PassPixels(o.rows, bpp, x);
    next := pos + imgLen;
    ok := true;
  }

  lemma NoneBad(raw: seq<int>, w: nat, bpp: nat, y: nat, rows: seq<Row>)
    requires RowPos(w, y) <= |raw| && Unfiltered(raw, w, bpp, y, rows)
    ensures !BadFilter(raw, w, y)
  {
    forall j: nat | j < y ensures FilterOf(raw, w, j) <= 4 { assert RowUnfiltered(raw, w, bpp, rows, j); }
  }

  /** The loop over the passes, as far as it decodes them. */
  method DecodePasses(raw: seq<int>, h: nat, w: nat, bpp: nat) returns (ok: bool, passes: seq<Pass<Pixel>>)
    requires h > 0 && w > 0 && bpp > 0 && Bytes(raw)
    ensures ok <==> forall p: nat {:trigger PassGood(raw, p, h, w, bpp)} :: p < 7 ==> PassGood(raw, p, h, w, bpp)
    ensures ok ==> |passes| == 7 && PassesIn(raw, h, w, bpp, passes)
  {
    passes := [];
    var p, pos := 0, 0;
    while p < 7
      invariant 0 <= p <= 7 && |passes| == p && pos == PassPos(p, h, w, bpp) <= |raw|
      invariant PassesIn(raw, h, w, bpp, passes)
      invariant forall q: nat {:trigger PassGood(raw, q, h, w, bpp)} :: q < p ==> PassGood(raw, q, h, w, bpp)
    {
      var pass;
      ok, pass, pos := DecodePass(raw, p, h, w, bpp, pos);
      if !ok { return; }
      passes := passes + [pass];
      p := p + 1;
    }
    ok := true;
  }

  lemma InIsSized(raw: seq<int>, h: nat, w: nat, bpp: nat, passes: seq<Pass<Pixel>>)
    requires |passes| == 7 && PassesIn(raw, h, w, bpp, passes)
    ensures Sized(passes, h, w)
  {
    forall p {:trigger passes[p]} | 0 <= p < 7 && PassWidth(p, w) > 0 && PassHeight(p, h) > 0
      ensures |passes[p]| == PassHeight(p, h)
      ensures forall j {:trigger passes[p][j]} :: 0 <= j < |passes[p]| ==> |passes[p][j]| == PassWidth(p, w)
    {
      assert PassIn(raw, p, h, w, bpp, passes[p]);
    }
  }

  /**
    `stbi__create_png_image` for an interlaced image. It fails exactly when some pass that has pixels lacks data or
    names a filter that does not exist; otherwise every pixel is the one its pass holds for it. The source spreads each
    pass before it decodes the next one, which changes nothing that decoding reads.
   */
  method CreateImage(raw: seq<int>, h: nat, w: nat, bpp: nat)
    returns (ok: bool, final: array2<Pixel>, ghost passes: seq<Pass<Pixel>>)
    requires h > 0 && w > 0 && bpp > 0 && Bytes(raw)
    ensures ok <==> forall p: nat {:trigger PassGood(raw, p, h, w, bpp)} :: p < 7 ==> PassGood(raw, p, h, w, bpp)
    ensures ok ==> |passes| == 7 && PassesIn(raw, h, w, bpp, passes) && Sized(passes, h, w)
    ensures ok ==> final.Length0 == h && final.Length1 == w
    ensures ok ==> forall y: nat, x: nat :: y < h && x < w ==> final[y, x] == PixelOf(passes, h, w, y, x)
  {
    var decoded;
    ok, decoded := DecodePasses(raw, h, w, bpp);
    passes := decoded;
    if ok {
      InIsSized(raw, h, w, bpp, decoded);
      ghost var writes;
      final, writes := Deinterlace(decoded, h, w);
    } else {
      final := new Pixel[0, 0];
    }
  }

  // ---------- decoding what was encoded ----------

  /** An image of `h` rows of `w` pixels of `bpp` bytes. */
  ghost predicate IsImage(img: seq<seq<Pixel>>, h: nat, w: nat, bpp: nat) {
    && |img| == h && h > 0 && w > 0
    && (forall y {:trigger img[y]} :: 0 <= y < h ==> |img[y]| == w)
    && forall y, x {:trigger img[y][x]} :: 0 <= y < h && 0 <= x < w ==> |img[y][x]| == bpp && Bytes(img[y][x])
  }

  /** The raw data holds every pass of the image in its place, each row of it filtered with some filter from 0 to 4. */
  ghost predicate Holds(raw: seq<int>, img: seq<seq<Pixel>>, filters: seq<seq<nat>>, h: nat, w: nat, bpp: nat)
    requires IsImage(img, h, w, bpp)
  {
    && |filters| == 7
    && forall p {:trigger filters[p]} :: 0 <= p < 7 && !Empty(p, h, w) ==>
         && PassPos(p, h, w, bpp) <= |raw|
         && Carries(raw[PassPos(p, h, w, bpp)..], PassRows(Interlaced(img, h, w, p)), filters[p], bpp,
           Start(bpp, PassWidth(p, w)))
  }

  lemma PassBack(raw: seq<int>, img: seq<seq<Pixel>>, filters: seq<seq<nat>>, h: nat, w: nat, bpp: nat, p: nat,
                 pass: Pass<Pixel>)
    requires IsImage(img, h, w, bpp) && Holds(raw, img, filters, h, w, bpp) && bpp > 0
    requires p < 7 && !Empty(p, h, w) && PassIn(raw, p, h, w, bpp, pass)
    ensures pass == Interlaced(img, h, w, p)
  {
    var want, x, part := Interlaced(img, h, w, p), PassWidth(p, w), raw[PassPos(p, h, w, bpp)..];
    var width := Start(bpp, x);
    var rows :| Unfiltered(part, width, bpp, PassHeight(p, h), rows) && pass == PassPixels(rows, bpp, x);
    assert Carries(part, PassRows(want), filters[p], bpp, width);
    forall j | 0 <= j < |want| ensures pass[j] == want[j] {
      ImageRecovered(part, PassRows(want), filters[p], bpp, width, rows, j);
      RowBack(img, h, w, bpp, p, j);
    }
  }

  lemma RowBack(img: seq<seq<Pixel>>, h: nat, w: nat, bpp: nat, p: nat, j: nat)
    requires IsImage(img, h, w, bpp) && p < 7 && !Empty(p, h, w) && j < |Interlaced(img, h, w, p)|
    ensures var row := Interlaced(img, h, w, p)[j]; PixelsOf(RowBytes(row), bpp, PassWidth(p, w)) == row
  {
    var row := Interlaced(img, h, w, p)[j];
    PassSizes(p, h, j);
    forall i {:trigger row[i]} | 0 <= i < |row| ensures |row[i]| == bpp && Bytes(row[i]) { PassSizes(p, w, i); }
    forall i | 0 <= i < |row| ensures PixelAt(RowBytes(row), bpp, i) == row[i] { PixelBack(row, bpp, i); }
  }

  lemma PassHeld(raw: seq<int>, img: seq<seq<Pixel>>, filters: seq<seq<nat>>, h: nat, w: nat, bpp: nat, p: nat)
    requires IsImage(img, h, w, bpp) && Holds(raw, img, filters, h, w, bpp) && p < 7
    ensures PassGood(raw, p, h, w, bpp)
  {
    if !Empty(p, h, w) {
      var fs := filters[p];
      var rows, width, part := PassRows(Interlaced(img, h, w, p)), Start(bpp, PassWidth(p, w)),
        raw[PassPos(p, h, w, bpp)..];
      assert Carries(part, rows, filters[p], bpp, width);
      EnoughData(part, rows, filters[p], bpp, width);
      forall j: nat | j < |rows| ensures FilterOf(part, width, j) <= 4 {
        RowCarried(part, rows, filters[p], bpp, width, j);
      }
    }
  }

  /** Any image, taken apart into passes and filtered with any filters, is decoded to itself. */
  method DecodeInterlaced(raw: seq<int>, ghost img: seq<seq<Pixel>>, ghost filters: seq<seq<nat>>, h: nat, w: nat,
                          bpp: nat)
    returns (ok: bool, final: array2<Pixel>)
    requires bpp > 0 && Bytes(raw) && IsImage(img, h, w, bpp) && Holds(raw, img, filters, h, w, bpp)
    ensures ok && final.Length0 == h && final.Length1 == w
    ensures forall y: nat, x: nat :: y < h && x < w ==> final[y, x] == img[y][x]
  {
    ghost var passes;
    ok, final, passes := CreateImage(raw, h, w, bpp);
    forall p: nat | p < 7 ensures PassGood(raw, p, h, w, bpp) { PassHeld(raw, img, filters, h, w, bpp, p); }
    forall y: nat, x: nat | y < h && x < w ensures final[y, x] == img[y][x] {
      ImagePixel(raw, img, filters, h, w, bpp, passes, y, x);
    }
  }

  lemma ImagePixel(raw: seq<int>, img: seq<seq<Pixel>>, filters: seq<seq<nat>>, h: nat, w: nat, bpp: nat,
                   passes: seq<Pass<Pixel>>, y: nat, x: nat)
    requires bpp > 0 && IsImage(img, h, w, bpp) && Holds(raw, img, filters, h, w, bpp)
    requires |passes| == 7 && PassesIn(raw, h, w, bpp, passes) && Sized(passes, h, w) && y < h && x < w
    ensures PixelOf(passes, h, w, y, x) == img[y][x]
  {
    var p := PassOf(y, x);
    PassHasPixel(passes, h, w, y, x);
    Covers(y, x);
    PassSizes(p, w, ColOf(p, x));
    PassSizes(p, h, RowOf(p, y));
    PassBack(raw, img, filters, h, w, bpp, p, passes[p]);
  }

  /** The encoder's data: the passes from `p` on, one behind the other. */
  ghost function EncodedFrom(img: seq<seq<Pixel>>, filters: seq<seq<nat>>, h: nat, w: nat, bpp: nat, p: nat): seq<int>
    requires IsImage(img, h, w, bpp) && Filters(img, filters, h, w, bpp) && p <= 7
    decreases 7 - p, |img|
  {
    if p == 7 then []
    else
      (if Empty(p, h, w) then [] else PassData(img, filters[p], h, w, bpp, p)) +
        EncodedFrom(img, filters, h, w, bpp, p + 1)
  }

  /** One filter from 0 to 4 for each row of each pass. */
  ghost predicate Filters(img: seq<seq<Pixel>>, filters: seq<seq<nat>>, h: nat, w: nat, bpp: nat)
    requires IsImage(img, h, w, bpp)
  {
    && |filters| == 7
    && forall p {:trigger filters[p]} :: 0 <= p < 7 && !Empty(p, h, w) ==>
         |filters[p]| == PassHeight(p, h) && forall j {:trigger filters[p][j]} :: 0 <= j < |filters[p]| ==>
           filters[p][j] <= 4
  }

  ghost function PassData(img: seq<seq<Pixel>>, filters: seq<nat>, h: nat, w: nat, bpp: nat, p: nat): seq<int>
    requires IsImage(img, h, w, bpp) && p < 7 && !Empty(p, h, w) && |filters| == PassHeight(p, h)
  {
    PassRowsSized(img, h, w, bpp, p);
    Encoded(PassRows(Interlaced(img, h, w, p)), filters, bpp, Start(bpp, PassWidth(p, w)), |filters|)
  }

  lemma PassRowsSized(img: seq<seq<Pixel>>, h: nat, w: nat, bpp: nat, p: nat)
    requires IsImage(img, h, w, bpp) && p < 7 && !Empty(p, h, w)
    ensures var rows := PassRows(Interlaced(img, h, w, p));
      && |rows| == PassHeight(p, h)
      && forall j {:trigger rows[j]} :: 0 <= j < |rows| ==> |rows[j]| == Start(bpp, PassWidth(p, w)) && Bytes(rows[j])
  {
    var pass := Interlaced(img, h, w, p);
    var rows := PassRows(pass);
    forall j {:trigger rows[j]} | 0 <= j < |rows| ensures |rows[j]| == Start(bpp, PassWidth(p, w)) && Bytes(rows[j]) {
      PassSizes(p, h, j);
      forall i {:trigger pass[j][i]} | 0 <= i < |pass[j]| ensures |pass[j][i]| == bpp && Bytes(pass[j][i]) {
        PassSizes(p, w, i);
      }
      RowBytesLength(pass[j], bpp);
    }
  }

  /** What the encoder writes, followed by anything, holds the image. */
  lemma EncodedHolds(raw: seq<int>, img: seq<seq<Pixel>>, filters: seq<seq<nat>>, h: nat, w: nat, bpp: nat)
    requires IsImage(img, h, w, bpp) && Filters(img, filters, h, w, bpp)
    requires EncodedFrom(img, filters, h, w, bpp, 0) <= raw
    ensures Holds(raw, img, filters, h, w, bpp)
  {
    forall p {:trigger filters[p]} | 0 <= p < 7 && !Empty(p, h, w)
      ensures PassPos(p, h, w, bpp) <= |raw|
      ensures Carries(raw[PassPos(p, h, w, bpp)..], PassRows(Interlaced(img, h, w, p)), filters[p], bpp,
        Start(bpp, PassWidth(p, w)))
    {
      FromPass(raw, img, filters, h, w, bpp, p);
      var data, later := OnePass(img, filters, h, w, bpp, p);
      PassCarried(raw[PassPos(p, h, w, bpp)..], img, filters[p], h, w, bpp, p, data, later);
    }
  }

  lemma {:induction false} FromPass(raw: seq<int>, img: seq<seq<Pixel>>, filters: seq<seq<nat>>, h: nat, w: nat,
                                    bpp: nat, p: nat)
    requires IsImage(img, h, w, bpp) && Filters(img, filters, h, w, bpp) && p <= 7
    requires EncodedFrom(img, filters, h, w, bpp, 0) <= raw
    ensures PassPos(p, h, w, bpp) <= |raw|
    ensures EncodedFrom(img, filters, h, w, bpp, p) <= raw[PassPos(p, h, w, bpp)..]
    decreases p
  {
    if p > 0 {
      var q := p - 1;
      FromPass(raw, img, filters, h, w, bpp, q);
      var data, later := OnePass(img, filters, h, w, bpp, q);
      Peel(raw, PassPos(q, h, w, bpp), data, later, PassPos(p, h, w, bpp));
    }
  }

  lemma OnePass(img: seq<seq<Pixel>>, filters: seq<seq<nat>>, h: nat, w: nat, bpp: nat, p: nat)
    returns (data: seq<int>, later: seq<int>)
    requires IsImage(img, h, w, bpp) && Filters(img, filters, h, w, bpp) && p < 7
    ensures data + later == EncodedFrom(img, filters, h, w, bpp, p)
    ensures later == EncodedFrom(img, filters, h, w, bpp, p + 1)
    ensures |data| == PassLength(p, h, w, bpp)
    ensures !Empty(p, h, w) ==> data == PassData(img, filters[p], h, w, bpp, p)
  {
    data := if Empty(p, h, w) then [] else PassData(img, filters[p], h, w, bpp, p);
    later := EncodedFrom(img, filters, h, w, bpp, p + 1);
    if !Empty(p, h, w) { PassDataLength(img, filters[p], h, w, bpp, p); }
  }

  lemma Peel(raw: seq<int>, pos: nat, data: seq<int>, later: seq<int>, next: nat)
    requires pos <= |raw| && data + later <= raw[pos..] && next == pos + |data|
    ensures next <= |raw| && later <= raw[next..]
  {
    assert raw[next..] == raw[pos..][|data|..];
    assert later == (data + later)[|data|..];
  }

  lemma PassDataLength(img: seq<seq<Pixel>>, filters: seq<nat>, h: nat, w: nat, bpp: nat, p: nat)
    requires IsImage(img, h, w, bpp) && p < 7 && !Empty(p, h, w) && |filters| == PassHeight(p, h)
    ensures |PassData(img, filters, h, w, bpp, p)| == PassLength(p, h, w, bpp)
  {
    PassRowsSized(img, h, w, bpp, p);
    EncodedLength(PassRows(Interlaced(img, h, w, p)), filters, bpp, Start(bpp, PassWidth(p, w)), |filters|);
  }

  lemma PassCarried(part: seq<int>, img: seq<seq<Pixel>>, filters: seq<nat>, h: nat, w: nat, bpp: nat, p: nat,
                    data: seq<int>, later: seq<int>)
    requires IsImage(img, h, w, bpp) && p < 7 && !Empty(p, h, w) && |filters| == PassHeight(p, h)
    requires forall j {:trigger filters[j]} :: 0 <= j < |filters| ==> filters[j] <= 4
    requires data == PassData(img, filters, h, w, bpp, p) && data + later <= part
    ensures Carries(part, PassRows(Interlaced(img, h, w, p)), filters, bpp, Start(bpp, PassWidth(p, w)))
  {
    PassRowsSized(img, h, w, bpp, p);
    assert part == data + part[|data|..];
  }
}
