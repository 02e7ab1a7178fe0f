/**
  Drawing a GIF frame pixel by pixel, with the interlaced row order of Appendix E of the GIF89a
  specification. Offsets are counted in pixels of four bytes each.
 */
module GifCanvas {
  import opened Bits

  datatype Color = Color(c0: Byte, c1: Byte, c2: Byte, alpha: Byte)

  // ---------- the order in which rows are drawn ----------

  /** The row drawn as number `j` of `h` rows. */
  function RowAt(interlaced: bool, h: nat, j: nat): nat {
    var n1, n2, n3 := (h + 7) / 8, (h + 3) / 8, (h + 1) / 4;
    if !interlaced then j
    else if j < n1 then 8 * j
    else if j < n1 + n2 then 8 * (j - n1) + 4
    else if j < n1 + n2 + n3 then 4 * (j - n1 - n2) + 2
    else 2 * (j - n1 - n2 - n3) + 1
  }

  /** The number under which row `r` is drawn. */
  function TurnOf(interlaced: bool, h: nat, r: nat): nat {
    var n1, n2, n3 := (h + 7) / 8, (h + 3) / 8, (h + 1) / 4;
    if !interlaced then r
    else if r % 8 == 0 then r / 8
    else if r % 8 == 4 then n1 + r / 8
    else if r % 4 == 2 then n1 + n2 + r / 4
    else n1 + n2 + n3 + r / 2
  }

  lemma FirstPass(h: nat, r: nat)
    requires r < h && r % 8 == 0
    ensures r / 8 < (h + 7) / 8 && 8 * (r / 8) == r
  {}

  lemma SecondPass(h: nat, r: nat)
    requires r < h && r % 8 == 4
    ensures r / 8 < (h + 3) / 8 && 8 * (r / 8) + 4 == r
  {}

  lemma ThirdPass(h: nat, r: nat)
    requires r < h && r % 4 == 2
    ensures r / 4 < (h + 1) / 4 && 4 * (r / 4) + 2 == r
  {}

  lemma FourthPass(h: nat, r: nat)
    requires r < h && r % 2 == 1
    ensures r / 2 < h / 2 && 2 * (r / 2) + 1 == r
  {}

  lemma PassesFill(h: nat)
    ensures (h + 7) / 8 + (h + 3) / 8 + (h + 1) / 4 + h / 2 == h
  {
    PassesFillFrom(h / 8, h % 8);
  }

  lemma PassesFillFrom(q: nat, s: nat)
    requires s < 8
    ensures (8 * q + s + 7) / 8 == q + (s + 7) / 8
    ensures (8 * q + s + 3) / 8 == q + (s + 3) / 8
    ensures (8 * q + s + 1) / 4 == 2 * q + (s + 1) / 4
    ensures (8 * q + s) / 2 == 4 * q + s / 2
    ensures (s + 7) / 8 + (s + 3) / 8 + (s + 1) / 4 + s / 2 == s
  {}

  /** Each row is drawn under the number `TurnOf` gives it. */
  lemma RowOfTurn(interlaced: bool, h: nat, r: nat)
    requires r < h
    ensures TurnOf(interlaced, h, r) < h && RowAt(interlaced, h, TurnOf(interlaced, h, r)) == r
  {
    if interlaced {
      PassesFill(h);
      if r % 8 == 0 { FirstPass(h, r); }
      else if r % 8 == 4 { SecondPass(h, r); }
      else if r % 4 == 2 { ThirdPass(h, r); }
      else { OddRow(r); FourthPass(h, r); }
    }
  }

  lemma OddRow(r: nat)
    requires r % 8 != 0 && r % 8 != 4 && r % 4 != 2
    ensures r % 2 == 1
  {}

  /** Each number below the height draws a row of the frame, and no two of them draw the same one. */
  lemma TurnOfRow(interlaced: bool, h: nat, j: nat)
    requires j < h
    ensures RowAt(interlaced, h, j) < h && TurnOf(interlaced, h, RowAt(interlaced, h, j)) == j
  {
    if interlaced {
      var n1, n2, n3 := (h + 7) / 8, (h + 3) / 8, (h + 1) / 4;
      PassesFill(h);
      if j < n1 { EighthRow(j, 0); }
      else if j < n1 + n2 { EighthRow(j - n1, 4); }
      else if j < n1 + n2 + n3 { QuarterRow(j - n1 - n2); }
      else { HalfRow(j - n1 - n2 - n3); }
    }
  }

  /**
    Every eighth row comes first, then every eighth from the fourth on, every fourth from the second on, and the rest.
   */
  function PassOf(r: nat): nat {
    if r % 8 == 0 then 0 else if r % 8 == 4 then 1 else if r % 4 == 2 then 2 else 3
  }

  lemma TurnInPass(h: nat, r: nat)
    requires r < h
    ensures var n1, n2, n3 := (h + 7) / 8, (h + 3) / 8, (h + 1) / 4;
      var turn := TurnOf(true, h, r);
      && (PassOf(r) == 0 ==> turn < n1 && r == 8 * turn)
      && (PassOf(r) == 1 ==> n1 <= turn < n1 + n2 && r == 8 * (turn - n1) + 4)
      && (PassOf(r) == 2 ==> n1 + n2 <= turn < n1 + n2 + n3 && r == 4 * (turn - n1 - n2) + 2)
      && (PassOf(r) == 3 ==> n1 + n2 + n3 <= turn && r == 2 * (turn - n1 - n2 - n3) + 1)
  {
    if r % 8 == 0 { FirstPass(h, r); }
    else if r % 8 == 4 { SecondPass(h, r); }
    else if r % 4 == 2 { ThirdPass(h, r); }
    else { OddRow(r); FourthPass(h, r); }
  }

  /** Of two rows of an interlaced frame the one of the earlier pass is drawn first, and in a pass the upper one. */
  lemma DrawingOrder(h: nat, r: nat, q: nat)
    requires r < h && q < h
    ensures TurnOf(true, h, r) < TurnOf(true, h, q) <==> PassOf(r) < PassOf(q) || (PassOf(r) == PassOf(q) && r < q)
    ensures TurnOf(false, h, r) < TurnOf(false, h, q) <==> r < q
  {
    TurnInPass(h, r);
    TurnInPass(h, q);
  }

  lemma EighthRow(q: nat, s: nat)
    requires s < 8
    ensures (8 * q + s) % 8 == s && (8 * q + s) / 8 == q
  {}

  lemma QuarterRow(q: nat)
    ensures (4 * q + 2) % 4 == 2 && (4 * q + 2) / 4 == q && (4 * q + 2) % 8 != 0 && (4 * q + 2) % 8 != 4
  {}

  lemma HalfRow(q: nat)
    ensures (2 * q + 1) / 2 == q && (2 * q + 1) % 8 != 0 && (2 * q + 1) % 8 != 4 && (2 * q + 1) % 4 != 2
  {}

  /** Row and column of the pixel drawn as number `k`. */
  datatype Place = Place(turn: nat, col: nat)

  function PlaceOf(w: nat, k: nat): Place
    requires w > 0
  {
    if k == 0 then Place(0, 0)
    else
      var p := PlaceOf(w, k - 1);
      if p.col + 1 < w then Place(p.turn, p.col + 1) else Place(p.turn + 1, 0)
  }

  lemma {:induction false} PlaceInRow(w: nat, k: nat, turn: nat, col: nat)
    requires w > 0 && col < w && PlaceOf(w, k) == Place(turn, 0)
    ensures PlaceOf(w, k + col) == Place(turn, col)
  {
    if col > 0 { PlaceInRow(w, k, turn, col - 1); }
  }

  /** The pixel number `turn * w + col` is the one at column `col` of the row drawn as number `turn`. */
  lemma {:induction false} PlaceUnique(w: nat, turn: nat, col: nat)
    requires w > 0 && col < w
    ensures turn * w + col >= 0 && PlaceOf(w, turn * w + col) == Place(turn, col)
  {
    if turn > 0 {
      PlaceUnique(w, turn - 1, w - 1);
      assert turn * w == (turn - 1) * w + (w - 1) + 1;
      assert PlaceOf(w, turn * w) == Place(turn, 0);
    } else {
      assert turn * w == 0;
    }
    PlaceInRow(w, turn * w, turn, col);
  }

  // ---------- the frame and its drawing ----------

  /** A frame of `w` by `h` pixels at (startX, startY) of an image of `gw` by `gh` pixels. */
  datatype Frame = Frame(gw: nat, gh: nat, startX: nat, startY: nat, w: nat, h: nat, interlaced: bool)

  ghost predicate FrameOk(f: Frame) {
    f.startX + f.w <= f.gw && f.startY + f.h <= f.gh
  }

  /** Offset in the image of column `col` of the frame's row `row`. */
  function Offset(f: Frame, row: nat, col: nat): nat {
    (f.startY + row) * f.gw + (f.startX + col)
  }

  lemma OffsetInImage(f: Frame, row: nat, col: nat)
    requires FrameOk(f) && row < f.h && col < f.w
    ensures Offset(f, row, col) < f.gh * f.gw
  {
    RowsApart(f.startY + row, f.gh, f.gw);
  }

  lemma OffsetInjective(f: Frame, row: nat, col: nat, row': nat, col': nat)
    requires FrameOk(f) && col < f.w && col' < f.w && Offset(f, row, col) == Offset(f, row', col')
    ensures row == row' && col == col'
  {
    var y, y' := f.startY + row, f.startY + row';
    if y < y' { RowsApart(y, y', f.gw); }
    if y' < y { RowsApart(y', y, f.gw); }
  }

  lemma RowsApart(y: nat, y': nat, gw: nat)
    requires y < y'
    ensures y * gw + gw <= y' * gw
  {
    assert (y + 1) * gw == y * gw + gw;
    assert (y + 1) * gw <= y' * gw;
  }

  /** Transparent colours leave the pixel as it is. */
  predicate Visible(c: Color) {
    c.alpha > 128
  }

  function Drawn(c: Color): Color {
    Color(c.c2, c.c1, c.c0, c.alpha)
  }

  /** Whether drawing number `k` falls into the frame, and where. */
  predicate InFrame(f: Frame, k: nat) {
    f.w > 0 && PlaceOf(f.w, k).turn < f.h
  }

  function OffsetOf(f: Frame, k: nat): nat
    requires InFrame(f, k)
  {
    Offset(f, RowAt(f.interlaced, f.h, PlaceOf(f.w, k).turn), PlaceOf(f.w, k).col)
  }

  lemma OffsetOfInImage(f: Frame, k: nat)
    requires FrameOk(f) && InFrame(f, k)
    ensures OffsetOf(f, k) < f.gh * f.gw
  {
    TurnOfRow(f.interlaced, f.h, PlaceOf(f.w, k).turn);
    ColumnBelow(f.w, k);
    OffsetInImage(f, RowAt(f.interlaced, f.h, PlaceOf(f.w, k).turn), PlaceOf(f.w, k).col);
  }

  /** The image after drawing the colour indices of `s` in drawing order. */
  function Painted(f: Frame, palette: seq<Color>, image: seq<Color>, s: seq<Byte>): (r: seq<Color>)
    requires |palette| == 256 && FrameOk(f) && |image| == f.gh * f.gw
    ensures |r| == |image|
  {
    if s == [] then image
    else
      var k := |s| - 1;
      var before := Painted(f, palette, image, s[..k]);
      if InFrame(f, k) && Visible(palette[s[k]]) then
        OffsetOfInImage(f, k);
        before[OffsetOf(f, k) := Drawn(palette[s[k]])]
      else before
  }

  lemma {:induction false} ColumnBelow(w: nat, k: nat)
    requires w > 0
    ensures PlaceOf(w, k).col < w
  {
    if k > 0 { ColumnBelow(w, k - 1); }
  }

  lemma {:induction false} PlaceInjective(w: nat, a: nat, b: nat)
    requires w > 0 && a < b
    ensures PlaceOf(w, a).turn < PlaceOf(w, b).turn
      || (PlaceOf(w, a).turn == PlaceOf(w, b).turn && PlaceOf(w, a).col < PlaceOf(w, b).col)
  {
    if a < b - 1 { PlaceInjective(w, a, b - 1); }
  }

  /** Two drawing numbers inside the frame never fall on the same pixel. */
  lemma OffsetsDiffer(f: Frame, a: nat, b: nat)
    requires FrameOk(f) && a < b && InFrame(f, a) && InFrame(f, b)
    ensures OffsetOf(f, a) != OffsetOf(f, b)
  {
    var p, q := PlaceOf(f.w, a), PlaceOf(f.w, b);
    PlaceInjective(f.w, a, b);
    ColumnBelow(f.w, a);
    ColumnBelow(f.w, b);
    TurnOfRow(f.interlaced, f.h, p.turn);
    TurnOfRow(f.interlaced, f.h, q.turn);
    if OffsetOf(f, a) == OffsetOf(f, b) {
      OffsetInjective(f, RowAt(f.interlaced, f.h, p.turn), p.col, RowAt(f.interlaced, f.h, q.turn), q.col);
    }
  }

  /** Each drawn index ends up at its own pixel: nothing drawn later touches it. */
  lemma {:induction false} PaintedAt(f: Frame, palette: seq<Color>, image: seq<Color>, s: seq<Byte>, k: nat)
    requires |palette| == 256 && FrameOk(f) && |image| == f.gh * f.gw && k < |s| && InFrame(f, k)
    ensures OffsetOf(f, k) < |image|
    ensures Painted(f, palette, image, s)[OffsetOf(f, k)]
      == if Visible(palette[s[k]]) then Drawn(palette[s[k]]) else image[OffsetOf(f, k)]
  {
    OffsetOfInImage(f, k);
    var n := |s| - 1;
    if k < n {
      PaintedAt(f, palette, image, s[..n], k);
      if InFrame(f, n) { OffsetsDiffer(f, k, n); }
    } else {
      PaintedBefore(f, palette, image, s[..n], k);
    }
  }

  /** A pixel keeps its old colour until its own drawing number comes. */
  lemma {:induction false} PaintedBefore(f: Frame, palette: seq<Color>, image: seq<Color>, s: seq<Byte>, k: nat)
    requires |palette| == 256 && FrameOk(f) && |image| == f.gh * f.gw && |s| <= k && InFrame(f, k)
    ensures OffsetOf(f, k) < |image| && Painted(f, palette, image, s)[OffsetOf(f, k)] == image[OffsetOf(f, k)]
  {
    OffsetOfInImage(f, k);
    if s != [] {
      PaintedBefore(f, palette, image, s[..|s| - 1], k);
      if InFrame(f, |s| - 1) { OffsetsDiffer(f, |s| - 1, k); }
    }
  }

  /** The pixel at any row and column of the frame shows the index drawn for it: the rows come in drawing order. */
  lemma PaintedFrame(f: Frame, palette: seq<Color>, image: seq<Color>, s: seq<Byte>, row: nat, col: nat, k: nat)
    requires |palette| == 256 && FrameOk(f) && |image| == f.gh * f.gw && row < f.h && col < f.w
    requires k == TurnOf(f.interlaced, f.h, row) * f.w + col && k < |s|
    ensures Offset(f, row, col) < |image|
    ensures var c := palette[s[k]];
      Painted(f, palette, image, s)[Offset(f, row, col)] ==
        if c.alpha > 128 then Color(c.c2, c.c1, c.c0, c.alpha) else image[Offset(f, row, col)]
  {
    RowOfTurn(f.interlaced, f.h, row);
    PlaceUnique(f.w, TurnOf(f.interlaced, f.h, row), col);
    PaintedAt(f, palette, image, s, k);
  }

  // ---------- the cursor ----------

  /** Step and remaining passes of the pass that draws row number `j`. */
  function StepOf(interlaced: bool, parse: nat): nat {
    if !interlaced then 1 else if parse >= 2 then 8 else if parse == 1 then 4 else 2
  }

  /** The distance of `m` steps. */
  function Rows(interlaced: bool, parse: nat, m: nat): nat {
    if !interlaced then m else if parse >= 2 then 8 * m else if parse == 1 then 4 * m else 2 * m
  }

  function FirstRow(interlaced: bool, parse: nat): nat {
    if !interlaced || parse >= 3 then 0 else if parse == 2 then 4 else if parse == 1 then 2 else 1
  }

  /** How many rows are drawn before the pass with `parse` passes remaining. */
  function BaseOf(interlaced: bool, h: nat, parse: nat): nat {
    var n1, n2, n3 := (h + 7) / 8, (h + 3) / 8, (h + 1) / 4;
    if !interlaced || parse >= 3 then 0 else if parse == 2 then n1 else if parse == 1 then n1 + n2 else n1 + n2 + n3
  }

  /** The cursor stands in a pass at the row that has number `j`, which may lie just past the pass. */
  ghost predicate AtTurn(f: Frame, j: nat, y: nat, step: nat, parse: nat) {
    && parse <= (if f.interlaced then 3 else 0)
    && step == StepOf(f.interlaced, parse)
    && BaseOf(f.interlaced, f.h, parse) <= j
    && y == f.startY + FirstRow(f.interlaced, parse) + Rows(f.interlaced, parse, j - BaseOf(f.interlaced, f.h, parse))
  }

  /** How many rows are drawn when the pass is complete. */
  function EndOf(f: Frame, parse: nat): nat {
    if parse > 0 then BaseOf(f.interlaced, f.h, parse - 1) else f.h
  }

  /** The cursor is inside the frame exactly while the pass has rows left, and stands at the right row then. */
  lemma PassEnds(f: Frame, j: nat, y: nat, step: nat, parse: nat)
    requires AtTurn(f, j, y, step, parse)
    ensures y < f.startY + f.h <==> j < EndOf(f, parse)
    ensures j < EndOf(f, parse) ==> y == f.startY + RowAt(f.interlaced, f.h, j)
  {
    PassesFill(f.h);
    if !f.interlaced {} else if parse == 3 {} else if parse == 2 {} else if parse == 1 {} else {}
  }

  lemma EndsInFrame(f: Frame, parse: nat)
    requires parse <= 3
    ensures EndOf(f, parse) <= f.h
  {
    PassesFill(f.h);
  }

  /** Adding the step moves the cursor to the next row number. */
  lemma NextTurn(f: Frame, j: nat, y: nat, step: nat, parse: nat)
    requires AtTurn(f, j, y, step, parse) && y < f.startY + f.h
    ensures AtTurn(f, j + 1, y + step, step, parse) && j + 1 <= EndOf(f, parse)
  {
    PassEnds(f, j, y, step, parse);
  }

  /** A complete pass is followed by the next one. */
  lemma NextPass(f: Frame, j: nat, y: nat, step: nat, parse: nat)
    requires AtTurn(f, j, y, step, parse) && y >= f.startY + f.h && parse > 0 && j <= EndOf(f, parse)
    ensures AtTurn(f, j, f.startY + Shl(1, parse) / 2, Shl(1, parse), parse - 1) && j <= EndOf(f, parse - 1)
  {
    PassEnds(f, j, y, step, parse);
    PassesFill(f.h);
    ShiftsUsed();
    if parse == 3 {} else if parse == 2 {} else { assert parse == 1; }
  }

  /** Where no pass is left to go on to, the cursor is in the frame exactly while the frame has rows left. */
  lemma AfterPasses(f: Frame, j: nat, y: nat, step: nat, parse: nat)
    requires AtTurn(f, j, y, step, parse) && j <= EndOf(f, parse) && (y < f.startY + f.h || parse == 0)
    ensures if j < f.h then j < EndOf(f, parse) else y >= f.startY + f.h
  {
    PassEnds(f, j, y, step, parse);
    EndsInFrame(f, parse);
  }

  lemma ShiftsUsed()
    ensures Shl(1, 1) == 2 && Shl(1, 2) == 4 && Shl(1, 3) == 8
  {}

  /** The part of `stbi__gif` that `stbi__out_gif_code` draws with. */
  class Canvas {
    const f: Frame
    const colorTable: seq<Color>
    const out: array<Color>
    var curX: nat
    var curY: nat
    var step: nat
    var parse: nat
    ghost const image: seq<Color>     // the image before the frame
    ghost var plotted: seq<Byte>      // the colour indices drawn so far

    ghost predicate Cursor()
      reads this
    {
      CursorAt(|plotted|)
    }

    ghost predicate Valid()
      reads this, out
    {
      && FrameOk(f) && |colorTable| == 256 && out.Length == |image| == f.gh * f.gw
      && Cursor()
      && out[..] == Painted(f, colorTable, image, plotted)
    }

    constructor (frame: Frame, table: seq<Color>, pixels: array<Color>)
      requires FrameOk(frame) && |table| == 256 && pixels.Length == frame.gh * frame.gw
      ensures Valid() && plotted == [] && f == frame && out == pixels
      ensures image == pixels[..] && colorTable == table
    {
      f := frame;
      colorTable := table;
      out := pixels;
      curX := frame.startX;
      curY := if frame.w == 0 then frame.startY + frame.h else frame.startY;
      step := if frame.interlaced then 8 else 1;
      parse := if frame.interlaced then 3 else 0;
      PassesFill(frame.h);
      image := pixels[..];
      plotted := [];
    }

    /** Draw one colour index and advance; once the frame is full, nothing happens any more. */
    method Plot(s: Byte)
      requires Valid()
      modifies this, out
      ensures Valid() && plotted == old(plotted) + [s]
    {
      CursorInFrame(|plotted|);
      if curY >= f.startY + f.h {
        SkipPlot(s);
      } else {
        Draw(s);
        Advance();
      }
      plotted := plotted + [s];
    }

    lemma CursorInFrame(k: nat)
      requires CursorAt(k)
      ensures InFrame(f, k) <==> curY < f.startY + f.h
    {
      if InFrame(f, k) { PassEnds(f, PlaceOf(f.w, k).turn, curY, step, parse); }
    }

    /** Beyond the frame a colour index changes nothing. */
    lemma SkipPlot(s: Byte)
      requires Valid() && !InFrame(f, |plotted|)
      ensures CursorAt(|plotted| + 1) && out[..] == Painted(f, colorTable, image, plotted + [s])
    {
      assert (plotted + [s])[..|plotted|] == plotted;
      StaysOutside(f, |plotted|);
    }

    method Draw(s: Byte)
      requires Valid() && InFrame(f, |plotted|)
      modifies out
      ensures out[..] == Painted(f, colorTable, image, plotted + [s])
    {
      ghost var k := |plotted|;
      assert (plotted + [s])[..k] == plotted;
      OffsetOfInImage(f, k);
      PassEnds(f, PlaceOf(f.w, k).turn, curY, step, parse);
      var idx := curY * f.gw + curX;
      assert idx == OffsetOf(f, k);
      var c := colorTable[s];
      if c.alpha > 128 { out[idx] := Color(c.c2, c.c1, c.c0, c.alpha); }
    }

    /** Where the cursor stands before drawing number `k`. */
    ghost predicate CursorAt(k: nat)
      reads this`curX, this`curY, this`step, this`parse
    {
      if InFrame(f, k) then
        var p := PlaceOf(f.w, k);
        curX == f.startX + p.col && RowCursor(p.turn)
      else curY >= f.startY + f.h
    }

    ghost predicate RowCursor(j: nat)
      reads this`curY, this`step, this`parse
    {
      AtTurn(f, j, curY, step, parse) && j < EndOf(f, parse)
    }

    method Advance()
      requires Cursor() && InFrame(f, |plotted|) && curY < f.startY + f.h
      modifies this
      ensures plotted == old(plotted)
      ensures CursorAt(|plotted| + 1)
    {
      ghost var p := PlaceOf(f.w, |plotted|);
      NextPlace(f.w, |plotted|);
      curX := curX + 1;
      if curX >= f.startX + f.w {
        curX := f.startX;
        NextRow(p.turn);
      }
    }

    /** Move to the next row, through the interlacing passes. */
    method NextRow(ghost j: nat)
      requires RowCursor(j) && curY < f.startY + f.h
      modifies this`curY, this`step, this`parse
      ensures if j + 1 < f.h then RowCursor(j + 1) else curY >= f.startY + f.h
    {
      NextTurn(f, j, curY, step, parse);
      curY := curY + step;
      while curY >= f.startY + f.h && parse > 0
        invariant AtTurn(f, j + 1, curY, step, parse) && j + 1 <= EndOf(f, parse)
        decreases parse
      {
        NextPass(f, j + 1, curY, step, parse);
        step := Shl(1, parse);
        curY := f.startY + step / 2;
        parse := parse - 1;
      }
      AfterPasses(f, j + 1, curY, step, parse);
    }
  }

  lemma NextPlace(w: nat, k: nat)
    requires w > 0
    ensures PlaceOf(w, k).col < w
    ensures var p := PlaceOf(w, k);
      PlaceOf(w, k + 1) == if p.col + 1 < w then Place(p.turn, p.col + 1) else Place(p.turn + 1, 0)
  {
    ColumnBelow(w, k);
  }

  /** A frame that is full stays full. */
  lemma StaysOutside(f: Frame, k: nat)
    requires !InFrame(f, k)
    ensures !InFrame(f, k + 1)
  {}
}
