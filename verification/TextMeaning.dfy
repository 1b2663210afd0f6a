/**
 The picture that the walk of the image pointer leaves, in rows and columns: glyph `k` of a line has its
 top left cell `Advance * k` columns from the start, later glyphs lie over earlier ones.
 */
module TextMeaning {
  import opened Arithmetic
  import opened Bytes
  import opened TextRaster

  /** The pixel in row `r` and column `c`; 0 beyond the end of the image. */
  function Pix(image: seq<Byte>, width: nat, r: nat, c: nat): Byte {
    if 0 <= r * width + c < |image| then image[r * width + c] else 0
  }

  function Cell(g: Glyph, z: Size, y: nat, x: nat): Byte
    requires |g| == z.Cells() && y < z.CellHeight() && x < z.CellWidth()
  {
    RowOf(g, z, y)[x]
  }

  lemma RowsApart(width: nat, r: nat, r0: nat, c: nat)
    requires c < width
    ensures r < r0 ==> r * width + c < r0 * width
    ensures r > r0 ==> r * width >= r0 * width + width
  {
    if r < r0 {
      MulMonotone(width, r + 1, r0);
    } else if r > r0 {
      MulMonotone(width, r0 + 1, r);
    }
  }

  // ---- one glyph ----

  /**
   The colour of the pixel in column `c`, `dy` rows below the start of a run of cells at column `c0`: a run
   that passes the right edge goes on at the left edge of the next row.
   */
  function RunColour(cells: seq<Byte>, width: nat, c0: nat, dy: int, c: nat, under: Byte): Byte {
    if dy == 0 && c0 <= c < c0 + |cells| then Ink(cells[c - c0], under)
    else if dy == 1 && c0 <= c + width < c0 + |cells| then Ink(cells[c + width - c0], under)
    else under
  }

  lemma RunPixel(image: seq<Byte>, width: nat, r0: nat, c0: nat, cells: seq<Byte>, r: nat, c: nat)
    requires c0 < width && c0 + |cells| <= 2 * width && c < width && r * width + c < |image|
    ensures Pix(PaintRun(image, r0 * width + c0, cells), width, r, c) ==
            RunColour(cells, width, c0, r - r0, c, Pix(image, width, r, c))
  {
    RowsApart(width, r, r0, c);
    RowsApart(width, r, r0 + 1, c);
    MulMonotone(r, 0, width);
    assert (r0 + 1) * width == r0 * width + width;
  }

  /** Glyph `k` of a line covers the place `d` columns and `y` rows from the line's start. */
  predicate Covers(z: Size, k: nat, y: int, d: int) {
    0 <= y < z.CellHeight() && z.Advance() * k <= d < z.Advance() * k + z.CellWidth()
  }

  /** The colour of a place when glyph `k` is painted on `under`. */
  function Overlay(g: Glyph, z: Size, k: nat, y: int, d: int, under: Byte): Byte
    requires |g| == z.Cells()
  {
    if Covers(z, k, y, d) then Ink(Cell(g, z, y, d - z.Advance() * k), under) else under
  }

  /** The same, with what runs on from the row above: it is painted first, since the rows come in order. */
  function Wrapped(g: Glyph, z: Size, k: nat, width: nat, y: int, d: int, under: Byte): Byte
    requires |g| == z.Cells()
  {
    Overlay(g, z, k, y, d, Overlay(g, z, k, y - 1, d + width, under))
  }

  /** The colour of a pixel when the first `rows` rows of a glyph at column `x0` are painted. */
  function RowsColour(g: Glyph, z: Size, width: nat, x0: nat, rows: nat, y: int, c: nat, under: Byte): Byte
    requires |g| == z.Cells() && rows <= z.CellHeight()
  {
    var above := if 0 <= y - 1 < rows && x0 <= c + width < x0 + z.CellWidth()
                 then Ink(Cell(g, z, y - 1, c + width - x0), under) else under;
    if 0 <= y < rows && x0 <= c < x0 + z.CellWidth() then Ink(Cell(g, z, y, c - x0), above) else above
  }

  lemma RowsColourStep(g: Glyph, z: Size, width: nat, x0: nat, rows: nat, y: int, c: nat, under: Byte)
    requires |g| == z.Cells() && 0 < rows <= z.CellHeight() && x0 < width && c < width
    ensures RowsColour(g, z, width, x0, rows, y, c, under) ==
            RunColour(RowOf(g, z, rows - 1), width, x0, y - (rows - 1), c, RowsColour(g, z, width, x0, rows - 1, y, c, under))
  {
  }

  lemma RowBelow(y0: nat, rows: nat, width: nat)
    requires rows > 0
    ensures y0 * width + (rows - 1) * width == (y0 + (rows - 1)) * width
  {
  }

  /** One more row. */
  lemma RowPixel(before: seq<Byte>, width: nat, at: int, y0: nat, x0: nat, g: Glyph, z: Size, rows: nat, r: nat, c: nat, under: Byte)
    requires |g| == z.Cells() && 0 < rows <= z.CellHeight() && at == (y0 + (rows - 1)) * width + x0
    requires x0 < width && x0 + z.CellWidth() <= 2 * width && c < width && r * width + c < |before|
    requires Pix(before, width, r, c) == RowsColour(g, z, width, x0, rows - 1, r - y0, c, under)
    ensures Pix(PaintRun(before, at, RowOf(g, z, rows - 1)), width, r, c) == RowsColour(g, z, width, x0, rows, r - y0, c, under)
  {
    RowsColourStep(g, z, width, x0, rows, r - y0, c, under);
    RunPixel(before, width, y0 + (rows - 1), x0, RowOf(g, z, rows - 1), r, c);
  }

  lemma {:induction false} RowsPixel(image: seq<Byte>, width: nat, p: int, y0: nat, x0: nat, g: Glyph, z: Size, rows: nat,
                                     r: nat, c: nat)
    requires |g| == z.Cells() && rows <= z.CellHeight() && p == y0 * width + x0
    requires x0 < width && x0 + z.CellWidth() <= 2 * width && c < width && r * width + c < |image|
    ensures Pix(PaintRows(image, p, width, g, z, rows), width, r, c) ==
            RowsColour(g, z, width, x0, rows, r - y0, c, Pix(image, width, r, c))
  {
    if rows > 0 {
      RowsPixel(image, width, p, y0, x0, g, z, rows - 1, r, c);
      RowBelow(y0, rows, width);
      RowAtIs(p, width, rows - 1);
      RowPixel(PaintRows(image, p, width, g, z, rows - 1), width, RowAt(p, width, rows - 1), y0, x0, g, z, rows, r, c,
               Pix(image, width, r, c));
    }
  }

  // ---- a line ----

  /** The colour of a place after `n` glyphs, one painted over the other. */
  function Shade(glyphs: seq<Glyph>, z: Size, n: nat, y: int, d: int, under: Byte): Byte
    requires AllOf(glyphs, z) && n <= |glyphs|
  {
    if n == 0 then under
    else Overlay(glyphs[n - 1], z, n - 1, y, d, Shade(glyphs, z, n - 1, y, d, under))
  }

  /** The same on rows of `width` pixels, where a glyph may run on into the next row. */
  function WrappedShade(glyphs: seq<Glyph>, z: Size, n: nat, width: nat, y: int, d: int, under: Byte): Byte
    requires AllOf(glyphs, z) && n <= |glyphs|
  {
    if n == 0 then under
    else Wrapped(glyphs[n - 1], z, n - 1, width, y, d, WrappedShade(glyphs, z, n - 1, width, y, d, under))
  }

  /** A glyph at column `x0 + a` of the row, where `a` is its distance from the line's start. */
  lemma WholeGlyphWrapped(g: Glyph, z: Size, width: nat, x0: nat, a: nat, k: nat, y: int, c: nat, under: Byte)
    requires |g| == z.Cells() && a == z.Advance() * k
    ensures RowsColour(g, z, width, x0 + a, z.CellHeight(), y, c, under) == Wrapped(g, z, k, width, y, c - x0, under)
  {
  }

  /** A whole glyph, `a` columns from the line's start. */
  lemma PlacedGlyphPixel(image: seq<Byte>, width: nat, at: int, y0: nat, x0: nat, a: nat, g: Glyph, z: Size, k: nat, r: nat, c: nat)
    requires |g| == z.Cells() && a == z.Advance() * k && at == y0 * width + (x0 + a)
    requires x0 + a < width && x0 + a + z.CellWidth() <= 2 * width && c < width && r * width + c < |image|
    ensures Pix(PaintRows(image, at, width, g, z, z.CellHeight()), width, r, c) ==
            Wrapped(g, z, k, width, r - y0, c - x0, Pix(image, width, r, c))
  {
    RowsPixel(image, width, at, y0, x0 + a, g, z, z.CellHeight(), r, c);
    WholeGlyphWrapped(g, z, width, x0, a, k, r - y0, c, Pix(image, width, r, c));
  }

  lemma GlyphPixel(image: seq<Byte>, width: nat, p: int, y0: nat, x0: nat, glyphs: seq<Glyph>, z: Size, k: nat, r: nat, c: nat)
    requires AllOf(glyphs, z) && k < |glyphs| && p == y0 * width + x0
    requires x0 + z.Advance() * k < width && x0 + z.Advance() * k + z.CellWidth() <= 2 * width
    requires c < width && r * width + c < |image|
    ensures Pix(PaintRows(image, Start(p, z, k), width, glyphs[k], z, z.CellHeight()), width, r, c) ==
            Wrapped(glyphs[k], z, k, width, r - y0, c - x0, Pix(image, width, r, c))
  {
    StartIs(p, z, k);
    PlacedGlyphPixel(image, width, Start(p, z, k), y0, x0, z.Advance() * k, glyphs[k], z, k, r, c);
  }

  /** A glyph of a well-clipped line begins in the row and runs on by less than a row. */
  lemma GlyphReach(width: nat, x0: nat, z: Size, n: nat)
    requires n > 0 && x0 + z.Advance() * n < width
    ensures x0 + z.Advance() * (n - 1) < width
    ensures x0 + z.Advance() * (n - 1) + z.CellWidth() == x0 + z.Advance() * n + z.Scale() <= 2 * width
  {
  }

  /** The picture of a line whose glyphs start and end, one advance each, inside the row. */
  lemma {:induction false} TextPixel(image: seq<Byte>, width: nat, p: int, y0: nat, x0: nat, glyphs: seq<Glyph>, z: Size,
                                     n: nat, r: nat, c: nat)
    requires AllOf(glyphs, z) && n <= |glyphs| && p == y0 * width + x0
    requires x0 + z.Advance() * n < width && c < width && r * width + c < |image|
    ensures Pix(PaintText(image, p, width, glyphs, z, n), width, r, c) ==
            WrappedShade(glyphs, z, n, width, r - y0, c - x0, Pix(image, width, r, c))
  {
    if n > 0 {
      GlyphReach(width, x0, z, n);
      TextPixel(image, width, p, y0, x0, glyphs, z, n - 1, r, c);
      PaintTextStep(image, p, width, glyphs, z, n - 1);
      GlyphPixel(PaintText(image, p, width, glyphs, z, n - 1), width, p, y0, x0, glyphs, z, n - 1, r, c);
    }
  }

  /** What no glyph reaches, nothing runs on to. */
  lemma {:induction false} NothingRunsOn(glyphs: seq<Glyph>, z: Size, n: nat, width: nat, y: int, d: int, under: Byte)
    requires AllOf(glyphs, z) && n <= |glyphs|
    requires z.Advance() * n + z.Scale() <= d + width
    ensures WrappedShade(glyphs, z, n, width, y, d, under) == Shade(glyphs, z, n, y, d, under)
  {
    if n > 0 {
      NothingRunsOn(glyphs, z, n - 1, width, y, d, under);
      assert !Covers(z, n - 1, y - 1, d + width);
    }
  }

  /** A line whose cells stay in the row: plain painting, glyph over glyph. */
  lemma StayingPixel(image: seq<Byte>, width: nat, p: int, y0: nat, x0: nat, glyphs: seq<Glyph>, z: Size,
                     n: nat, r: nat, c: nat)
    requires AllOf(glyphs, z) && n <= |glyphs| && p == y0 * width + x0
    requires x0 + z.Advance() * n + z.Scale() <= width && c < width && r * width + c < |image|
    ensures Pix(PaintText(image, p, width, glyphs, z, n), width, r, c) ==
            Shade(glyphs, z, n, r - y0, c - x0, Pix(image, width, r, c))
  {
    TextPixel(image, width, p, y0, x0, glyphs, z, n, r, c);
    NothingRunsOn(glyphs, z, n, width, r - y0, c - x0, Pix(image, width, r, c));
  }

  // ---- without recursion: at most two glyphs meet in a place ----

  /**
   The colour of the place in row `y` of the line and `x` columns into the advance of glyph `k`: that
   glyph's cell, over the last `Scale` columns of the glyph before, over the image.
   */
  function Layers(glyphs: seq<Glyph>, z: Size, n: nat, y: nat, k: nat, x: nat, under: Byte): Byte
    requires AllOf(glyphs, z) && n <= |glyphs| && y < z.CellHeight() && x < z.Advance()
  {
    var left := if 0 < k <= n && x < z.Scale() then Ink(Cell(glyphs[k - 1], z, y, x + z.Advance()), under) else under;
    if k < n then Ink(Cell(glyphs[k], z, y, x), left) else left
  }

  lemma CoversTwo(z: Size, n: nat, y: nat, k: nat, x: nat)
    requires y < z.CellHeight() && x < z.Advance()
    ensures Covers(z, n, y, z.Advance() * k + x) <==> n == k || (n + 1 == k && x < z.Scale())
  {
  }

  lemma {:induction false} ShadeIsLayers(glyphs: seq<Glyph>, z: Size, n: nat, y: nat, k: nat, x: nat, under: Byte)
    requires AllOf(glyphs, z) && n <= |glyphs| && y < z.CellHeight() && x < z.Advance()
    ensures Shade(glyphs, z, n, y, z.Advance() * k + x, under) == Layers(glyphs, z, n, y, k, x, under)
  {
    if n > 0 {
      ShadeIsLayers(glyphs, z, n - 1, y, k, x, under);
      CoversTwo(z, n - 1, y, k, x);
      assert n == k ==> z.Advance() * k - z.Advance() * (n - 1) == z.Advance();
    }
  }

  lemma {:induction false} ShadeOutside(glyphs: seq<Glyph>, z: Size, n: nat, y: int, d: int, under: Byte)
    requires AllOf(glyphs, z) && n <= |glyphs|
    requires !(0 <= y < z.CellHeight() && 0 <= d < z.Advance() * n + z.Scale())
    ensures Shade(glyphs, z, n, y, d, under) == under
  {
    if n > 0 {
      ShadeOutside(glyphs, z, n - 1, y, d, under);
    }
  }

  /**
   The colour of the place `y` rows and `d` columns from the start of a line of `n` glyphs. Outside its
   rows and columns nothing has changed; inside, a place has the colour of the glyph of its advance, over
   the edge of the glyph before, over the image.
   */
  function Colour(glyphs: seq<Glyph>, z: Size, n: nat, y: int, d: int, under: Byte): Byte
    requires AllOf(glyphs, z) && n <= |glyphs|
  {
    if 0 <= y < z.CellHeight() && 0 <= d < z.Advance() * n + z.Scale()
    then Layers(glyphs, z, n, y, d / z.Advance(), d % z.Advance(), under)
    else under
  }

  lemma WholeAdvances(z: Size, d: nat)
    ensures z.Advance() * (d / z.Advance()) + d % z.Advance() == d && d % z.Advance() < z.Advance()
  {
  }

  lemma ShadeIsColour(glyphs: seq<Glyph>, z: Size, n: nat, y: int, d: int, under: Byte)
    requires AllOf(glyphs, z) && n <= |glyphs|
    ensures Shade(glyphs, z, n, y, d, under) == Colour(glyphs, z, n, y, d, under)
  {
    if 0 <= y < z.CellHeight() && 0 <= d < z.Advance() * n + z.Scale() {
      ShadeInside(glyphs, z, n, y, d, under);
    } else {
      ShadeOutside(glyphs, z, n, y, d, under);
    }
  }

  lemma ShadeInside(glyphs: seq<Glyph>, z: Size, n: nat, y: nat, d: nat, under: Byte)
    requires AllOf(glyphs, z) && n <= |glyphs| && y < z.CellHeight()
    ensures d % z.Advance() < z.Advance()
    ensures Shade(glyphs, z, n, y, d, under) == Layers(glyphs, z, n, y, d / z.Advance(), d % z.Advance(), under)
  {
    WholeAdvances(z, d);
    ShadeIsLayers(glyphs, z, n, y, d / z.Advance(), d % z.Advance(), under);
  }

  // ---- a whole call ----

  /** Every pixel after a call that draws `n` glyphs from column `x` on. */
  lemma DrawnPixel(image: seq<Byte>, startx: nat, starty: nat, width: nat, glyphs: seq<Glyph>, z: Size,
                   x: nat, n: nat, r: nat, c: nat)
    requires AllOf(glyphs, z) && Placeable(startx, width, |glyphs|, z)
    requires x == Aligned(startx, width, |glyphs|, z) && n == Clipped(x, width, |glyphs|, z)
    requires c < width && r * width + c < |image|
    ensures n <= |glyphs|
    ensures Pix(Drawn(image, startx, starty, width, glyphs, z), width, r, c) ==
            WrappedShade(glyphs, z, n, width, r - starty, c - x, Pix(image, width, r, c))
  {
    ClippedExactlyWhenPlaceable(startx, width, |glyphs|, z);
    DrawnIs(image, startx, starty, width, glyphs, z, x, n);
    TextPixel(image, width, x + starty * width, starty, x, glyphs, z, n, r, c);
  }

  lemma DrawnIs(image: seq<Byte>, startx: nat, starty: nat, width: nat, glyphs: seq<Glyph>, z: Size, x: nat, n: nat)
    requires AllOf(glyphs, z) && Placeable(startx, width, |glyphs|, z) && n <= |glyphs|
    requires x == Aligned(startx, width, |glyphs|, z) && n == Clipped(x, width, |glyphs|, z)
    ensures Drawn(image, startx, starty, width, glyphs, z) == PaintText(image, x + starty * width, width, glyphs, z, n)
  {
  }

  /** The same in closed form, for a call whose cells stay in the row. */
  lemma StayingColour(image: seq<Byte>, startx: nat, starty: nat, width: nat, glyphs: seq<Glyph>, z: Size,
                      x: nat, n: nat, r: nat, c: nat)
    requires AllOf(glyphs, z) && Placeable(startx, width, |glyphs|, z)
    requires x == Aligned(startx, width, |glyphs|, z) && n == Clipped(x, width, |glyphs|, z)
    requires !RunsOn(x, width, n, z) && c < width && r * width + c < |image|
    ensures n <= |glyphs|
    ensures Pix(Drawn(image, startx, starty, width, glyphs, z), width, r, c) ==
            Colour(glyphs, z, n, r - starty, c - x, Pix(image, width, r, c))
  {
    var under := Pix(image, width, r, c);
    ClippedExactlyWhenPlaceable(startx, width, |glyphs|, z);
    RunsOnExactly(x, width, n, z);
    DrawnPixel(image, startx, starty, width, glyphs, z, x, n, r, c);
    if n > 0 {
      NothingRunsOn(glyphs, z, n, width, r - starty, c - x, under);
    }
    ShadeIsColour(glyphs, z, n, r - starty, c - x, under);
  }

  /** Glyph `k` over its own last column, run on from the row above. */
  function RunOn(g: Glyph, k: nat, y: int, d: int, before: Byte): Byte
    requires |g| == Double.Cells()
  {
    Overlay(g, Double, k, y, d, if 0 <= y - 1 < 16 then Ink(Cell(g, Double, y - 1, 13), before) else before)
  }

  /**
   The other case: double-sized text that ends one pixel short of the edge. Only the first column can
   differ: there the last column of the last glyph has run on, one row down, over the glyphs before it.
   */
  lemma RunOnColour(image: seq<Byte>, startx: nat, starty: nat, width: nat, glyphs: seq<Glyph>,
                    x: nat, n: nat, r: nat, c: nat)
    requires AllOf(glyphs, Double) && Placeable(startx, width, |glyphs|, Double)
    requires x == Aligned(startx, width, |glyphs|, Double) && n == Clipped(x, width, |glyphs|, Double)
    requires RunsOn(x, width, n, Double) && c < width && r * width + c < |image|
    ensures 0 < n <= |glyphs|
    ensures Pix(Drawn(image, startx, starty, width, glyphs, Double), width, r, c) ==
            if c > 0 then Colour(glyphs, Double, n, r - starty, c - x, Pix(image, width, r, c))
            else RunOn(glyphs[n - 1], n - 1, r - starty, c - x,
                       Colour(glyphs, Double, n - 1, r - starty, c - x, Pix(image, width, r, c)))
  {
    var under := Pix(image, width, r, c);
    ClippedExactlyWhenPlaceable(startx, width, |glyphs|, Double);
    RunsOnExactly(x, width, n, Double);
    DrawnPixel(image, startx, starty, width, glyphs, Double, x, n, r, c);
    if c > 0 {
      NothingRunsOn(glyphs, Double, n, width, r - starty, c - x, under);
      ShadeIsColour(glyphs, Double, n, r - starty, c - x, under);
    } else {
      FirstColumn(glyphs, n, width, x, r - starty, under);
    }
  }

  /** The first column, when the line ends one pixel short of the edge. */
  lemma FirstColumn(glyphs: seq<Glyph>, n: nat, width: nat, x: nat, y: int, under: Byte)
    requires AllOf(glyphs, Double) && 0 < n <= |glyphs| && x + 12 * n == width - 1
    ensures WrappedShade(glyphs, Double, n, width, y, 0 - x, under) ==
            RunOn(glyphs[n - 1], n - 1, y, 0 - x, Colour(glyphs, Double, n - 1, y, 0 - x, under))
  {
    NothingRunsOn(glyphs, Double, n - 1, width, y, 0 - x, under);
    ShadeIsColour(glyphs, Double, n - 1, y, 0 - x, under);
    LastColumnRunsOn(glyphs[n - 1], n - 1, width, x, y, Colour(glyphs, Double, n - 1, y, 0 - x, under));
  }

  lemma LastColumnRunsOn(g: Glyph, k: nat, width: nat, x: nat, y: int, before: Byte)
    requires |g| == Double.Cells() && x + 12 * k + 13 == width
    ensures Wrapped(g, Double, k, width, y, 0 - x, before) == RunOn(g, k, y, 0 - x, before)
  {
    assert width - x - Double.Advance() * k == 13;
  }

  /** A doubled glyph of which only the last column is white. */
  function RightEdge(): Glyph {
    seq(224, i requires 0 <= i < 224 => if i % 14 == 13 then 2 else 0)
  }

  /** On rows of 13 pixels one such glyph, drawn at column 0, inks nothing but the first column, from the next row on. */
  lemma OneGlyphRunsOn(image: seq<Byte>)
    requires |image| == 13 * 17 && forall i :: 0 <= i < |image| ==> image[i] == 0
    ensures Placeable(0, 13, 1, Double) && |RightEdge()| == Double.Cells()
    ensures RunsOn(0, 13, 1, Double)
    ensures Pix(Drawn(image, 0, 0, 13, [RightEdge()], Double), 13, 0, 0) == 0
    ensures Pix(Drawn(image, 0, 0, 13, [RightEdge()], Double), 13, 1, 0) == 255
  {
    assert Clipped(0, 13, 1, Double) == 1;
    RunsOnExactly(0, 13, 1, Double);
    RunOnColour(image, 0, 0, 13, [RightEdge()], 0, 1, 0, 0);
    RunOnColour(image, 0, 0, 13, [RightEdge()], 0, 1, 1, 0);
  }

  // ---- a call, cell by cell ----

  /** What one cell leaves of a pixel: 1 is black, 2 is white, anything else is transparent. */
  predicate Inked(cell: Byte, before: Byte, after: Byte) {
    && (cell == 1 ==> after == 0)
    && (cell == 2 ==> after == 255)
    && (cell != 1 && cell != 2 ==> after == before)
  }

  /** What two cells leave, the second over the first. */
  predicate InkedTwice(under: Byte, over: Byte, before: Byte, after: Byte) {
    exists between: Byte :: Inked(under, before, between) && Inked(over, between, after)
  }

  lemma InkInks(cell: Byte, under: Byte)
    ensures Inked(cell, under, Ink(cell, under))
  {
  }

  /** Where a text begins that can be placed, and how many of its characters are drawn: as many as end inside the row. */
  predicate PlacedAt(startx: nat, width: nat, len: nat, z: Size, x: nat, n: nat) {
    var advance := if z.Single? then 6 else 12;
    && x == (if startx <= width / 2 then startx else startx - len * advance)
    && n <= len && x + advance * n < width && (n < len ==> x + advance * (n + 1) >= width)
  }

  lemma PlacedIs(startx: nat, width: nat, len: nat, z: Size, x: nat, n: nat)
    requires Placeable(startx, width, len, z) && PlacedAt(startx, width, len, z, x, n)
    ensures x == Aligned(startx, width, len, z) && n == Clipped(x, width, len, z)
  {
    ClippedExactlyWhenPlaceable(startx, width, len, z);
  }

  /** Every call that can be placed is placed like that. */
  lemma PlaceablePlaced(startx: nat, width: nat, len: nat, z: Size) returns (x: nat, n: nat)
    requires Placeable(startx, width, len, z)
    ensures PlacedAt(startx, width, len, z, x, n)
  {
    ClippedExactlyWhenPlaceable(startx, width, len, z);
    x := Aligned(startx, width, len, z);
    n := Clipped(x, width, len, z);
  }

  lemma CellIs(g: Glyph, z: Size, y: nat, x: nat)
    requires |g| == z.Cells() && y < z.CellHeight() && x < z.CellWidth()
    ensures 0 <= y * z.CellWidth() + x < |g|
    ensures Cell(g, z, y, x) == g[y * z.CellWidth() + x]
  {
  }

  /** The cell in row `y` and column `j` of glyph `k`, from the rows of 7 or 14 cells; 0 if there is no such glyph. */
  function CellOf(glyphs: seq<Glyph>, z: Size, n: nat, k: int, y: nat, j: nat): Byte
    requires AllOf(glyphs, z) && n <= |glyphs| && y < z.CellHeight() && j < z.CellWidth()
  {
    if !(0 <= k < n) then 0 else if z.Single? then glyphs[k][y * 7 + j] else glyphs[k][y * 14 + j]
  }

  /**
   The place `y` rows and `d` columns from the start of a text of `n` characters: every six columns, or twelve, the
   next glyph begins, over the last column, or the last two, of the one before.
   */
  predicate Painted(glyphs: seq<Glyph>, z: Size, n: nat, y: int, d: int, before: Byte, after: Byte)
    requires AllOf(glyphs, z) && n <= |glyphs|
  {
    match z
    case Single =>
      if n > 0 && 0 <= y < 8 && 0 <= d <= 6 * n then
        InkedTwice(if d % 6 == 0 then CellOf(glyphs, z, n, d / 6 - 1, y, 6) else 0, CellOf(glyphs, z, n, d / 6, y, d % 6), before, after)
      else after == before
    case Double =>
      if n > 0 && 0 <= y < 16 && 0 <= d <= 12 * n + 1 then
        InkedTwice(if d % 12 < 2 then CellOf(glyphs, z, n, d / 12 - 1, y, d % 12 + 12) else 0, CellOf(glyphs, z, n, d / 12, y, d % 12),
                   before, after)
      else after == before
  }

  lemma PaintedByTwo(under: Byte, over: Byte, before: Byte)
    ensures InkedTwice(under, over, before, Ink(over, Ink(under, before)))
  {
    InkInks(under, before);
    InkInks(over, Ink(under, before));
  }

  lemma SinglePainted(glyphs: seq<Glyph>, n: nat, y: int, d: int, before: Byte)
    requires AllOf(glyphs, Single) && n <= |glyphs|
    ensures Painted(glyphs, Single, n, y, d, before, Colour(glyphs, Single, n, y, d, before))
  {
    if n > 0 && 0 <= y < 8 && 0 <= d <= 6 * n {
      var k, j := d / 6, d % 6;
      if k > 0 { CellIs(glyphs[k - 1], Single, y, 6); }
      if k < n { CellIs(glyphs[k], Single, y, j); }
      PaintedByTwo(if j == 0 then CellOf(glyphs, Single, n, k - 1, y, 6) else 0, CellOf(glyphs, Single, n, k, y, j), before);
    }
  }

  lemma DoublePainted(glyphs: seq<Glyph>, n: nat, y: int, d: int, before: Byte)
    requires AllOf(glyphs, Double) && n <= |glyphs|
    ensures Painted(glyphs, Double, n, y, d, before, Colour(glyphs, Double, n, y, d, before))
  {
    if n > 0 && 0 <= y < 16 && 0 <= d <= 12 * n + 1 {
      var k, j := d / 12, d % 12;
      if k > 0 && j < 2 { CellIs(glyphs[k - 1], Double, y, j + 12); }
      if k < n { CellIs(glyphs[k], Double, y, j); }
      PaintedByTwo(if j < 2 then CellOf(glyphs, Double, n, k - 1, y, j + 12) else 0, CellOf(glyphs, Double, n, k, y, j), before);
    }
  }

  /**
   The picture after a call that can be placed, cell by cell, with columns counted from where the text was asked to
   begin or to end. No cell passes the right edge, or this is not the first column.
   */
  lemma TextCells(image: seq<Byte>, startx: nat, starty: nat, width: nat, glyphs: seq<Glyph>, z: Size, x: nat, n: nat, r: nat, c: nat)
    requires AllOf(glyphs, z) && Placeable(startx, width, |glyphs|, z) && PlacedAt(startx, width, |glyphs|, z, x, n)
    requires c < width && r * width + c < |image|
    requires c > 0 || n == 0 || z.Single? || x + 12 * n + 2 <= width
    ensures 0 <= r * width
    ensures Painted(glyphs, z, n, r - starty, c - x, image[r * width + c], Drawn(image, startx, starty, width, glyphs, z)[r * width + c])
  {
    CellColour(image, startx, starty, width, glyphs, z, x, n, r, c);
    ColourPainted(glyphs, z, n, r - starty, c - x, image[r * width + c], Drawn(image, startx, starty, width, glyphs, z)[r * width + c]);
  }

  lemma CellColour(image: seq<Byte>, startx: nat, starty: nat, width: nat, glyphs: seq<Glyph>, z: Size, x: nat, n: nat, r: nat, c: nat)
    requires AllOf(glyphs, z) && Placeable(startx, width, |glyphs|, z) && PlacedAt(startx, width, |glyphs|, z, x, n)
    requires c < width && r * width + c < |image|
    requires c > 0 || n == 0 || z.Single? || x + 12 * n + 2 <= width
    ensures 0 <= r * width
    ensures Drawn(image, startx, starty, width, glyphs, z)[r * width + c] == Colour(glyphs, z, n, r - starty, c - x, image[r * width + c])
  {
    MulMonotone(r, 0, width);
    CallColour(image, startx, starty, width, glyphs, z, x, n, r, c);
  }

  lemma CallColour(image: seq<Byte>, startx: nat, starty: nat, width: nat, glyphs: seq<Glyph>, z: Size, x: nat, n: nat, r: nat, c: nat)
    requires AllOf(glyphs, z) && Placeable(startx, width, |glyphs|, z) && PlacedAt(startx, width, |glyphs|, z, x, n)
    requires c < width && r * width + c < |image|
    requires c > 0 || n == 0 || z.Single? || x + 12 * n + 2 <= width
    ensures Pix(Drawn(image, startx, starty, width, glyphs, z), width, r, c)
         == Colour(glyphs, z, n, r - starty, c - x, Pix(image, width, r, c))
  {
    PlacedIs(startx, width, |glyphs|, z, x, n);
    RunsOnExactly(x, width, n, z);
    if RunsOn(x, width, n, z) {
      RunOnColour(image, startx, starty, width, glyphs, x, n, r, c);
    } else {
      StayingColour(image, startx, starty, width, glyphs, z, x, n, r, c);
    }
  }

  lemma ColourPainted(glyphs: seq<Glyph>, z: Size, n: nat, y: int, d: int, before: Byte, after: Byte)
    requires AllOf(glyphs, z) && n <= |glyphs| && after == Colour(glyphs, z, n, y, d, before)
    ensures Painted(glyphs, z, n, y, d, before, after)
  {
    match z
    case Single => SinglePainted(glyphs, n, y, d, before);
    case Double => DoublePainted(glyphs, n, y, d, before);
  }

  /** The first column of rows that double-sized text fills but for one pixel: the last column of the last glyph is there, a row lower. */
  lemma FirstColumnCells(image: seq<Byte>, startx: nat, starty: nat, width: nat, glyphs: seq<Glyph>, x: nat, n: nat, r: nat)
    requires AllOf(glyphs, Double) && Placeable(startx, width, |glyphs|, Double) && PlacedAt(startx, width, |glyphs|, Double, x, n)
    requires n > 0 && x + 12 * n + 1 == width && r * width < |image|
    ensures 0 <= r * width
    ensures var y, before, after := r - starty, image[r * width], Drawn(image, startx, starty, width, glyphs, Double)[r * width];
      var ranOn := if 1 <= y <= 16 then CellOf(glyphs, Double, n, n - 1, y - 1, 13) else 0;
      var first := if x == 0 && 0 <= y < 16 then CellOf(glyphs, Double, n, 0, y, 0) else 0;
      if n == 1 then InkedTwice(ranOn, first, before, after) else InkedTwice(first, ranOn, before, after)
  {
    PlacedIs(startx, width, |glyphs|, Double, x, n);
    RunsOnExactly(x, width, n, Double);
    MulMonotone(r, 0, width);
    RunOnColour(image, startx, starty, width, glyphs, x, n, r, 0);
    FirstColumnInked(glyphs, n, x, r - starty, image[r * width]);
  }

  lemma FirstColumnInked(glyphs: seq<Glyph>, n: nat, x: nat, y: int, before: Byte)
    requires AllOf(glyphs, Double) && 0 < n <= |glyphs|
    ensures var after := RunOn(glyphs[n - 1], n - 1, y, 0 - x, Colour(glyphs, Double, n - 1, y, 0 - x, before));
      var ranOn := if 1 <= y <= 16 then CellOf(glyphs, Double, n, n - 1, y - 1, 13) else 0;
      var first := if x == 0 && 0 <= y < 16 then CellOf(glyphs, Double, n, 0, y, 0) else 0;
      if n == 1 then InkedTwice(ranOn, first, before, after) else InkedTwice(first, ranOn, before, after)
  {
    var ranOn := if 1 <= y <= 16 then CellOf(glyphs, Double, n, n - 1, y - 1, 13) else 0;
    var first := if x == 0 && 0 <= y < 16 then CellOf(glyphs, Double, n, 0, y, 0) else 0;
    if 1 <= y <= 16 { CellIs(glyphs[n - 1], Double, y - 1, 13); }
    if 0 <= y < 16 { CellIs(glyphs[0], Double, y, 0); }
    if n == 1 {
      PaintedByTwo(ranOn, first, before);
    } else {
      PaintedByTwo(first, ranOn, before);
    }
  }

  /** In single size a call never touches a pixel outside its eight rows and the columns of its glyphs. */
  lemma SingleStaysInRows(image: seq<Byte>, startx: nat, starty: nat, width: nat, glyphs: seq<Glyph>,
                          x: nat, n: nat, r: nat, c: nat)
    requires AllOf(glyphs, Single) && Placeable(startx, width, |glyphs|, Single)
    requires x == Aligned(startx, width, |glyphs|, Single) && n == Clipped(x, width, |glyphs|, Single)
    requires c < width && r * width + c < |image|
    requires !(starty <= r < starty + 8 && x <= c <= x + 6 * n)
    ensures Pix(Drawn(image, startx, starty, width, glyphs, Single), width, r, c) == Pix(image, width, r, c)
  {
    ClippedExactlyWhenPlaceable(startx, width, |glyphs|, Single);
    RunsOnExactly(x, width, n, Single);
    StayingColour(image, startx, starty, width, glyphs, Single, x, n, r, c);
  }
}
