/**
  PNG de-interlacing (HW_16-OpenGL/stb_image.h: `stbi__create_png_image`) against the Adam7 passes of clause 8.2 of the
  PNG specification (ISO/IEC 15948).
 */
module Adam7 {

  // ---------- the passes ----------

  function XOrig(p: nat): nat { if p == 1 then 4 else if p == 3 then 2 else if p == 5 then 1 else 0 }

  function YOrig(p: nat): nat { if p == 2 then 4 else if p == 4 then 2 else if p == 6 then 1 else 0 }

  function XSpc(p: nat): nat { if p <= 1 then 8 else if p <= 3 then 4 else if p <= 5 then 2 else 1 }

  function YSpc(p: nat): nat { if p <= 2 then 8 else if p <= 4 then 4 else 2 }

  /** `(img_x - xorig[p] + xspc[p] - 1) / xspc[p]`, which does not go below zero for an image that is not empty. */
  function PassWidth(p: nat, w: nat): int
    requires p < 7
  {
    (w - XOrig(p) + XSpc(p) - 1) / XSpc(p)
  }

  function PassHeight(p: nat, h: nat): int
    requires p < 7
  {
    (h - YOrig(p) + YSpc(p) - 1) / YSpc(p)
  }

  /** Where column `i` of pass `p` goes. */
  function OutX(p: nat, i: nat): nat { i * XSpc(p) + XOrig(p) }

  function OutY(p: nat, j: nat): nat { j * YSpc(p) + YOrig(p) }

  /** The pass of the specification that transmits the pixel at row `y`, column `x`. */
  function PassOf(y: nat, x: nat): (p: nat)
    ensures p < 7
  {
    if y % 2 == 1 then 6
    else if x % 2 == 1 then 5
    else if y % 4 == 2 then 4
    else if x % 4 == 2 then 3
    else if y % 8 == 4 then 2
    else if x % 8 == 4 then 1
    else 0
  }

  /** Its column and row within that pass. */
  function ColOf(p: nat, x: nat): nat {
    if p <= 1 then x / 8 else if p <= 3 then x / 4 else if p <= 5 then x / 2 else x
  }

  function RowOf(p: nat, y: nat): nat {
    if p <= 2 then y / 8 else if p <= 4 then y / 4 else y / 2
  }

  /** The columns, and the rows, that pass `p` visits. */
  predicate InX(p: nat, x: nat) {
    if p == 0 then x % 8 == 0
    else if p == 1 then x % 8 == 4
    else if p == 2 then x % 4 == 0
    else if p == 3 then x % 4 == 2
    else if p == 4 then x % 2 == 0 else if p == 5 then x % 2 == 1 else true
  }

  predicate InY(p: nat, y: nat) {
    if p <= 1 then y % 8 == 0
    else if p == 2 then y % 8 == 4
    else if p == 3 then y % 4 == 0
    else if p == 4 then y % 4 == 2
    else if p == 5 then y % 2 == 0 else y % 2 == 1
  }

  /** The seven residue classes divide the pixels among the passes. */
  lemma PassIs(p: nat, y: nat, x: nat)
    requires p < 7
    ensures PassOf(y, x) == p <==> InX(p, x) && InY(p, y)
  {
    Residues(x);
    Residues(y);
  }

  lemma Residues(v: nat)
    ensures v % 8 == 0 ==> v % 4 == 0
    ensures v % 8 == 4 ==> v % 4 == 0
    ensures v % 4 == 0 ==> v % 2 == 0 && (v % 8 == 0 || v % 8 == 4)
    ensures v % 4 == 2 ==> v % 2 == 0
    ensures v % 2 == 0 ==> v % 4 == 0 || v % 4 == 2
    ensures v % 2 == 0 || v % 2 == 1
  {
  }

  lemma Step8(i: nat, o: nat, v: nat)
    requires o < 8
    ensures i * 8 + o == v <==> v % 8 == o && v / 8 == i
  {
  }

  lemma Ceil8(i: nat, o: nat, v: nat)
    requires o < 8
    ensures i < (v - o + 7) / 8 <==> i * 8 + o < v
    ensures v > 0 ==> (v - o + 7) / 8 >= 0
  {
  }

  lemma Step4(i: nat, o: nat, v: nat)
    requires o < 4
    ensures i * 4 + o == v <==> v % 4 == o && v / 4 == i
  {
  }

  lemma Ceil4(i: nat, o: nat, v: nat)
    requires o < 4
    ensures i < (v - o + 3) / 4 <==> i * 4 + o < v
    ensures v > 0 ==> (v - o + 3) / 4 >= 0
  {
  }

  lemma Step2(i: nat, o: nat, v: nat)
    requires o < 2
    ensures i * 2 + o == v <==> v % 2 == o && v / 2 == i
  {
  }

  lemma Ceil2(i: nat, o: nat, v: nat)
    requires o < 2
    ensures i < (v - o + 1) / 2 <==> i * 2 + o < v
    ensures v > 0 ==> (v - o + 1) / 2 >= 0
  {
  }

  lemma OutXIs(p: nat, i: nat, x: nat)
    requires p < 7
    ensures OutX(p, i) == x <==> InX(p, x) && ColOf(p, x) == i
  {
    if p <= 1 {
      Step8(i, XOrig(p), x);
    } else if p <= 3 {
      Step4(i, XOrig(p), x);
    } else if p <= 5 {
      Step2(i, XOrig(p), x);
    }
  }

  lemma OutYIs(p: nat, j: nat, y: nat)
    requires p < 7
    ensures OutY(p, j) == y <==> InY(p, y) && RowOf(p, y) == j
  {
    if p <= 2 { Step8(j, YOrig(p), y); } else if p <= 4 { Step4(j, YOrig(p), y); } else { Step2(j, YOrig(p), y); }
  }

  /** A pixel of a pass goes to the pixel of the image that the specification gives to that place of that pass, only. */
  lemma PlaceIs(p: nat, j: nat, i: nat, y: nat, x: nat)
    requires p < 7
    ensures OutY(p, j) == y && OutX(p, i) == x <==> PassOf(y, x) == p && RowOf(p, y) == j && ColOf(p, x) == i
  {
    PassIs(p, y, x);
    OutXIs(p, i, x);
    OutYIs(p, j, y);
  }

  /** The size of a pass counts exactly the columns, and the rows, that lie in the image. */
  lemma PassSizes(p: nat, w: nat, i: nat)
    requires p < 7
    ensures i < PassWidth(p, w) <==> OutX(p, i) < w
    ensures i < PassHeight(p, w) <==> OutY(p, i) < w
    ensures w > 0 ==> PassWidth(p, w) >= 0 && PassHeight(p, w) >= 0
  {
    if p <= 1 {
      Ceil8(i, XOrig(p), w);
    } else if p <= 3 {
      Ceil4(i, XOrig(p), w);
    } else if p <= 5 {
      Ceil2(i, XOrig(p), w);
    }
    if p <= 2 { Ceil8(i, YOrig(p), w); } else if p <= 4 { Ceil4(i, YOrig(p), w); } else { Ceil2(i, YOrig(p), w); }
  }

  // ---------- the loops ----------

  /** A pass image: its rows of pixels. */
  type Pass<P> = seq<seq<P>>

  /** The seven passes have the sizes of their pixels in an image of `h` rows and `w` columns. */
  ghost predicate Sized<P>(passes: seq<Pass<P>>, h: nat, w: nat) {
    && |passes| == 7
    && forall p {:trigger passes[p]} :: 0 <= p < 7 && PassWidth(p, w) > 0 && PassHeight(p, h) > 0 ==>
         |passes[p]| == PassHeight(p, h) &&
         forall j {:trigger passes[p][j]} :: 0 <= j < |passes[p]| ==> |passes[p][j]| == PassWidth(p, w)
  }

  lemma PassHasPixel<P>(passes: seq<Pass<P>>, h: nat, w: nat, y: nat, x: nat)
    requires Sized(passes, h, w) && y < h && x < w
    ensures var p := PassOf(y, x);
            RowOf(p, y) < |passes[p]| && ColOf(p, x) < |passes[p][RowOf(p, y)]|
  {
    var p := PassOf(y, x);
    PlaceIs(p, RowOf(p, y), ColOf(p, x), y, x);
    PassSizes(p, w, ColOf(p, x));
    PassSizes(p, h, RowOf(p, y));
    assert |passes[p]| == PassHeight(p, h);
    assert |passes[p][RowOf(p, y)]| == PassWidth(p, w);
  }

  /** The pixel that the passes hold for row `y`, column `x`. */
  function PixelOf<P>(passes: seq<Pass<P>>, h: nat, w: nat, y: nat, x: nat): P
    requires Sized(passes, h, w) && y < h && x < w
  {
    PassHasPixel(passes, h, w, y, x);
    var p := PassOf(y, x);
    passes[p][RowOf(p, y)][ColOf(p, x)]
  }

  /** Pixel (y, x) comes before place (p, j, i) in the order of the loops. */
  predicate Before(p: nat, j: nat, i: nat, y: nat, x: nat) {
    var q := PassOf(y, x);
    q < p || (q == p && (RowOf(p, y) < j || (RowOf(p, y) == j && ColOf(p, x) < i)))
  }

  /**
    Up to place (p, j, i) of the loops, exactly the pixels that come before it have been written, each once, with the
    pixel of its pass.
   */
  ghost predicate Done<P>(final: array2<P>, writes: multiset<(nat, nat)>, passes: seq<Pass<P>>, h: nat, w: nat, p: nat,
                          j: nat, i: nat)
    requires final.Length0 == h && final.Length1 == w && Sized(passes, h, w)
    reads final
  {
    forall y: nat, x: nat {:trigger writes[(y, x)]} {:trigger final[y, x]} :: y < h && x < w ==>
      writes[(y, x)] == (if Before(p, j, i, y, x) then 1 else 0) &&
      (Before(p, j, i, y, x) ==> final[y, x] == PixelOf(passes, h, w, y, x))
  }

  lemma NextColumn(p: nat, j: nat, i: nat, y: nat, x: nat)
    requires p < 7
    ensures Before(p, j, i + 1, y, x) <==> Before(p, j, i, y, x) || (OutY(p, j) == y && OutX(p, i) == x)
    ensures OutY(p, j) == y && OutX(p, i) == x ==> !Before(p, j, i, y, x)
  {
    PlaceIs(p, j, i, y, x);
  }

  lemma NextRow(p: nat, j: nat, w: nat, y: nat, x: nat)
    requires p < 7 && x < w
    ensures PassWidth(p, w) >= 0 && (Before(p, j, PassWidth(p, w), y, x) <==> Before(p, j + 1, 0, y, x))
  {
    PlaceIs(PassOf(y, x), RowOf(PassOf(y, x), y), ColOf(PassOf(y, x), x), y, x);
    PassSizes(PassOf(y, x), w, ColOf(PassOf(y, x), x));
    PassSizes(p, w, 0);
  }

  lemma NextPass(p: nat, h: nat, w: nat, y: nat, x: nat)
    requires p < 7 && x < w && y < h
    ensures PassHeight(p, h) >= 0 && (Before(p, PassHeight(p, h), 0, y, x) <==> Before(p + 1, 0, 0, y, x))
    ensures PassWidth(p, w) <= 0 || PassHeight(p, h) <= 0 ==> (Before(p, 0, 0, y, x) <==> Before(p + 1, 0, 0, y, x))
  {
    PlaceIs(PassOf(y, x), RowOf(PassOf(y, x), y), ColOf(PassOf(y, x), x), y, x);
    PassSizes(PassOf(y, x), w, ColOf(PassOf(y, x), x));
    PassSizes(PassOf(y, x), h, RowOf(PassOf(y, x), y));
    PassSizes(p, h, 0);
  }

  /** The copy of one pixel. */
  method PlacePixel<P>(passes: seq<Pass<P>>, h: nat, w: nat, p: nat, j: nat, i: nat, final: array2<P>,
                       ghost before: multiset<(nat, nat)>) returns (ghost writes: multiset<(nat, nat)>)
    requires Sized(passes, h, w) && p < 7 && i < PassWidth(p, w) && j < PassHeight(p, h)
    requires final.Length0 == h && final.Length1 == w && Done(final, before, passes, h, w, p, j, i)
    modifies final
    ensures Done(final, writes, passes, h, w, p, j, i + 1)
  {
    var outY, outX := OutY(p, j), OutX(p, i);
    PassSizes(p, w, i);
    PassSizes(p, h, j);
    PlaceIs(p, j, i, outY, outX);
    PassHasPixel(passes, h, w, outY, outX);
    final[outY, outX] := passes[p][j][i];
    writes := before[(outY, outX) := before[(outY, outX)] + 1];
    forall y: nat, x: nat {:trigger writes[(y, x)]} {:trigger final[y, x]} | y < h && x < w
      ensures writes[(y, x)] == (if Before(p, j, i + 1, y, x) then 1 else 0)
      ensures Before(p, j, i + 1, y, x) ==> final[y, x] == PixelOf(passes, h, w, y, x)
    {
      NextColumn(p, j, i, y, x);
    }
  }

  method PlaceRow<P>(passes: seq<Pass<P>>, h: nat, w: nat, p: nat, j: nat, final: array2<P>,
                     ghost before: multiset<(nat, nat)>) returns (ghost writes: multiset<(nat, nat)>)
    requires Sized(passes, h, w) && p < 7 && 0 < PassWidth(p, w) && j < PassHeight(p, h)
    requires final.Length0 == h && final.Length1 == w && Done(final, before, passes, h, w, p, j, 0)
    modifies final
    ensures Done(final, writes, passes, h, w, p, j + 1, 0)
  {
    writes := before;
    var i := 0;
    while i < PassWidth(p, w)
      invariant 0 <= i <= PassWidth(p, w)
      invariant Done(final, writes, passes, h, w, p, j, i)
    {
      writes := PlacePixel(passes, h, w, p, j, i, final, writes);
      i := i + 1;
    }
    forall y: nat, x: nat {:trigger Before(p, j, i, y, x)} | y < h && x < w
      ensures Before(p, j, i, y, x) <==> Before(p, j + 1, 0, y, x)
    {
      NextRow(p, j, w, y, x);
    }
  }

  /** The loops over the rows and columns of one pass. */
  method PlacePass<P>(passes: seq<Pass<P>>, h: nat, w: nat, p: nat, final: array2<P>,
                      ghost before: multiset<(nat, nat)>) returns (ghost writes: multiset<(nat, nat)>)
    requires Sized(passes, h, w) && p < 7 && 0 < PassWidth(p, w) && 0 < PassHeight(p, h)
    requires final.Length0 == h && final.Length1 == w && Done(final, before, passes, h, w, p, 0, 0)
    modifies final
    ensures Done(final, writes, passes, h, w, p + 1, 0, 0)
  {
    writes := before;
    var j := 0;
    while j < PassHeight(p, h)
      invariant 0 <= j <= PassHeight(p, h)
      invariant Done(final, writes, passes, h, w, p, j, 0)
    {
      writes := PlaceRow(passes, h, w, p, j, final, writes);
      j := j + 1;
    }
    forall y: nat, x: nat {:trigger Before(p, j, 0, y, x)} | y < h && x < w
      ensures Before(p, j, 0, y, x) <==> Before(p + 1, 0, 0, y, x)
    {
      NextPass(p, h, w, y, x);
    }
  }

  /** The de-interlacing loops of `stbi__create_png_image`, on the decoded passes. */
  method Deinterlace<P(0)>(passes: seq<Pass<P>>, h: nat, w: nat)
    returns (final: array2<P>, ghost writes: multiset<(nat, nat)>)
    requires h > 0 && w > 0 && Sized(passes, h, w)
    ensures final.Length0 == h && final.Length1 == w
    ensures forall y: nat, x: nat :: y < h && x < w ==> final[y, x] == PixelOf(passes, h, w, y, x)
    ensures forall y: nat, x: nat :: y < h && x < w ==> writes[(y, x)] == 1
  {
    final := new P[h, w];
    writes := multiset{};
    var p := 0;
    while p < 7
      invariant 0 <= p <= 7
      invariant fresh(final) && final.Length0 == h && final.Length1 == w
      invariant Done(final, writes, passes, h, w, p, 0, 0)
    {
      var x, y := PassWidth(p, w), PassHeight(p, h);
      PassSizes(p, w, 0);
      PassSizes(p, h, 0);
      if x > 0 && y > 0 {
        writes := PlacePass(passes, h, w, p, final, writes);
      } else {
        forall v: nat, u: nat {:trigger Before(p, 0, 0, v, u)} | v < h && u < w
          ensures Before(p, 0, 0, v, u) <==> Before(p + 1, 0, 0, v, u)
        {
          NextPass(p, h, w, v, u);
        }
      }
      p := p + 1;
    }
    forall y: nat, x: nat | y < h && x < w
      ensures final[y, x] == PixelOf(passes, h, w, y, x) && writes[(y, x)] == 1
    {
      assert Before(7, 0, 0, y, x);
    }
  }

  // ---------- interlacing and back ----------

  /** The passes that an encoder makes of an image. */
  function Interlaced<P>(img: seq<seq<P>>, h: nat, w: nat, p: nat): (pass: Pass<P>)
    requires p < 7 && h > 0 && w > 0
    requires |img| == h && forall y :: 0 <= y < h ==> |img[y]| == w
  {
    PassSizes(p, w, 0);
    PassSizes(p, h, 0);
    seq(PassHeight(p, h), j requires 0 <= j < PassHeight(p, h) =>
      PassSizes(p, h, j);
      seq(PassWidth(p, w), i requires 0 <= i < PassWidth(p, w) =>
        PassSizes(p, w, i);
        img[OutY(p, j)][OutX(p, i)]))
  }

  /** Taking an image apart into its passes and putting it together gives the image back. */
  lemma InterlacedBack<P>(img: seq<seq<P>>, passes: seq<Pass<P>>, h: nat, w: nat, y: nat, x: nat)
    requires h > 0 && w > 0 && y < h && x < w
    requires |img| == h && forall y :: 0 <= y < h ==> |img[y]| == w
    requires |passes| == 7 && forall p {:trigger passes[p]} :: 0 <= p < 7 ==> passes[p] == Interlaced(img, h, w, p)
    ensures Sized(passes, h, w) && PixelOf(passes, h, w, y, x) == img[y][x]
  {
    InterlacedSized(img, passes, h, w);
    PassHasPixel(passes, h, w, y, x);
    Covers(y, x);
    var p := PassOf(y, x);
    assert passes[p] == Interlaced(img, h, w, p);
  }

  lemma Covers(y: nat, x: nat)
    ensures OutX(PassOf(y, x), ColOf(PassOf(y, x), x)) == x && OutY(PassOf(y, x), RowOf(PassOf(y, x), y)) == y
  {
    PlaceIs(PassOf(y, x), RowOf(PassOf(y, x), y), ColOf(PassOf(y, x), x), y, x);
  }

  lemma InterlacedSized<P>(img: seq<seq<P>>, passes: seq<Pass<P>>, h: nat, w: nat)
    requires h > 0 && w > 0
    requires |img| == h && forall y :: 0 <= y < h ==> |img[y]| == w
    requires |passes| == 7 && forall p {:trigger passes[p]} :: 0 <= p < 7 ==> passes[p] == Interlaced(img, h, w, p)
    ensures Sized(passes, h, w)
  {
    forall p {:trigger passes[p]} | 0 <= p < 7 && PassWidth(p, w) > 0 && PassHeight(p, h) > 0
      ensures |passes[p]| == PassHeight(p, h)
      ensures forall j {:trigger passes[p][j]} :: 0 <= j < |passes[p]| ==> |passes[p][j]| == PassWidth(p, w)
    {
      assert passes[p] == Interlaced(img, h, w, p);
    }
  }
}
