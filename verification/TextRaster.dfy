/**
 Drawing a line of text on an 8-bit image: glyphs of cells 0 (transparent), 1 (black), 2 (white),
 laid next to each other with one cell of overlap, in single or double size.
 */
module TextRaster {
  import opened Arithmetic
  import opened Bytes

  /** The size factor of the program: 0 or 1. */
  datatype Size = Single | Double {
    function Scale(): nat { if Single? then 1 else 2 }
    function CellWidth(): nat { if Single? then 7 else 14 }
    function CellHeight(): nat { if Single? then 8 else 16 }
    function Advance(): nat { if Single? then 6 else 12 }
    function Cells(): nat { if Single? then 56 else 224 }
  }

  /** A glyph is rows of cells, all of one length; the next begins one column, or two, before the last ends. */
  lemma GlyphShape(z: Size)
    ensures z.Cells() == z.CellHeight() * z.CellWidth()
    ensures z.CellWidth() == z.Advance() + z.Scale()
    ensures z.Single? ==> z.CellWidth() == 7 && z.CellHeight() == 8 && z.Scale() == 1
    ensures z.Double? ==> z.CellWidth() == 2 * 7 && z.CellHeight() == 2 * 8 && z.Scale() == 2
  {
  }

  /** The cells of a glyph, row by row. */
  type Glyph = seq<Byte>

  predicate AllOf(glyphs: seq<Glyph>, z: Size) {
    forall i :: 0 <= i < |glyphs| ==> |glyphs[i]| == z.Cells()
  }

  function Ink(cell: Byte, under: Byte): Byte {
    if cell == 1 then 0 else if cell == 2 then 255 else under
  }

  // ---- the walk of the image pointer, as a function ----

  /** Ink one run of cells from image position `p` on. */
  function PaintRun(image: seq<Byte>, p: int, cells: seq<Byte>): (r: seq<Byte>)
    ensures |r| == |image|
    ensures forall q :: 0 <= q < |r| ==> r[q] == if p <= q < p + |cells| then Ink(cells[q - p], image[q]) else image[q]
  {
    seq(|image|, q requires 0 <= q < |image| => if p <= q < p + |cells| then Ink(cells[q - p], image[q]) else image[q])
  }

  /** Row `y` of a glyph. */
  function RowOf(g: Glyph, z: Size, y: nat): (cells: seq<Byte>)
    requires |g| == z.Cells() && y < z.CellHeight()
    ensures |cells| == z.CellWidth()
  {
    g[y * z.CellWidth()..(y + 1) * z.CellWidth()]
  }

  /** Where row `rows` of a glyph begins. */
  function RowAt(p: int, width: nat, rows: nat): int {
    if rows == 0 then p else RowAt(p, width, rows - 1) + width
  }

  lemma {:induction false} RowAtIs(p: int, width: nat, rows: nat)
    ensures RowAt(p, width, rows) == p + rows * width
  {
    if rows > 0 {
      RowAtIs(p, width, rows - 1);
      assert rows * width == (rows - 1) * width + width;
    }
  }

  /** The first `rows` rows of a glyph, one image row below the other. */
  function PaintRows(image: seq<Byte>, p: int, width: nat, g: Glyph, z: Size, rows: nat): (r: seq<Byte>)
    requires |g| == z.Cells() && rows <= z.CellHeight()
    ensures |r| == |image|
  {
    if rows == 0 then image
    else PaintRun(PaintRows(image, p, width, g, z, rows - 1), RowAt(p, width, rows - 1), RowOf(g, z, rows - 1))
  }

  lemma PaintRowsStep(image: seq<Byte>, p: int, width: nat, g: Glyph, z: Size, rows: nat)
    requires |g| == z.Cells() && rows < z.CellHeight()
    ensures 0 <= rows * z.CellWidth() && rows * z.CellWidth() + z.CellWidth() <= |g|
    ensures PaintRows(image, p, width, g, z, rows + 1) ==
            PaintRun(PaintRows(image, p, width, g, z, rows), RowAt(p, width, rows),
                     g[rows * z.CellWidth()..rows * z.CellWidth() + z.CellWidth()])
  {
    assert (rows + 1) * z.CellWidth() == rows * z.CellWidth() + z.CellWidth();
  }

  /** Where glyph `k` of a line begins. */
  function Start(p: int, z: Size, k: nat): int {
    if k == 0 then p else Start(p, z, k - 1) + z.Advance()
  }

  lemma {:induction false} StartIs(p: int, z: Size, k: nat)
    ensures Start(p, z, k) == p + z.Advance() * k
  {
    if k > 0 {
      StartIs(p, z, k - 1);
    }
  }

  /** The first `k` glyphs of a line, each one `Advance` to the right of the one before. */
  function PaintText(image: seq<Byte>, p: int, width: nat, glyphs: seq<Glyph>, z: Size, k: nat): (r: seq<Byte>)
    requires AllOf(glyphs, z) && k <= |glyphs|
    ensures |r| == |image|
  {
    if k == 0 then image
    else PaintRows(PaintText(image, p, width, glyphs, z, k - 1),
                   Start(p, z, k - 1), width, glyphs[k - 1], z, z.CellHeight())
  }

  lemma PaintTextStep(image: seq<Byte>, p: int, width: nat, glyphs: seq<Glyph>, z: Size, k: nat)
    requires AllOf(glyphs, z) && k < |glyphs|
    ensures PaintText(image, p, width, glyphs, z, k + 1) ==
            PaintRows(PaintText(image, p, width, glyphs, z, k), Start(p, z, k), width, glyphs[k], z, z.CellHeight())
  {
  }

  // ---- the line's place ----

  /** Text that would start in the right half ends where it would have started. */
  function Aligned(startx: nat, width: nat, len: nat, z: Size): int {
    if startx > width / 2 then (startx - len * z.Advance()) % TWO_32 else startx
  }

  /** The number of glyphs drawn, from the aligned start. */
  function Clipped(x: nat, width: nat, len: nat, z: Size): int {
    if (x + len * z.Advance()) % TWO_32 >= width then (width - x - 1) % TWO_32 / z.Advance() else len
  }

  /** The numbers of a call: unsigned, so that a negative start is a huge one, and text of less than 2^32 pixels. */
  predicate InRange(startx: nat, width: nat, len: nat, z: Size) {
    startx < TWO_32 && width < TWO_32 && len * z.Advance() < TWO_32
  }

  /** The end of a text of `t` pixels wraps to somewhere inside the row. */
  predicate WrapsInto(x: nat, t: nat, width: nat) {
    TWO_32 <= x + t < TWO_32 + width
  }

  /** The start is in the row, and text that is to end there is no longer than the room to its left. */
  predicate Placeable(startx: nat, width: nat, len: nat, z: Size) {
    && InRange(startx, width, len, z)
    && if startx > width / 2 then len * z.Advance() <= startx < width + len * z.Advance()
       else startx < width && !WrapsInto(startx, len * z.Advance(), width)
  }

  /** What clipping is for: every glyph that is drawn starts and ends, one advance each, inside the row, and no more fit. */
  predicate WellClipped(x: nat, width: nat, len: nat, z: Size, n: int) {
    && 0 <= n <= len
    && x + z.Advance() * n < width
    && (n < len ==> x + z.Advance() * (n + 1) >= width)
  }

  lemma Reduced(n: nat)
    requires n < 2 * TWO_32
    ensures n % TWO_32 == if n < TWO_32 then n else n - TWO_32
  {
  }

  lemma ReducedBelow(n: int)
    requires -TWO_32 <= n < TWO_32
    ensures n % TWO_32 == if n < 0 then n + TWO_32 else n
  {
  }

  /** The most glyphs that fit into `room` pixels and leave one. */
  lemma MostThatFit(room: nat, z: Size)
    requires room > 0
    ensures z.Advance() * ((room - 1) / z.Advance()) < room <= z.Advance() * ((room - 1) / z.Advance() + 1)
  {
  }

  /** Clipping from a start inside the row: `t` is the length of the whole text. */
  lemma ClippedInside(x: nat, width: nat, len: nat, z: Size, t: nat)
    requires x < width < TWO_32 && t == len * z.Advance() < TWO_32
    ensures Clipped(x, width, len, z) == if x + t < width || WrapsInto(x, t, width) then len else (width - x - 1) / z.Advance()
  {
    Reduced(x + t);
    Reduced(width - x - 1);
  }

  lemma ClippedExactly(x: nat, width: nat, len: nat, z: Size, t: nat)
    requires x < TWO_32 && width < TWO_32 && t == len * z.Advance() < TWO_32
    ensures WellClipped(x, width, len, z, Clipped(x, width, len, z)) <==> x < width && !WrapsInto(x, t, width)
  {
    if x < width {
      ClippedInside(x, width, len, z, t);
      MostThatFit(width - x, z);
    }
  }

  lemma AlignedExactly(startx: nat, width: nat, len: nat, z: Size, t: nat)
    requires InRange(startx, width, len, z) && t == len * z.Advance()
    ensures var x := Aligned(startx, width, len, z);
      && 0 <= x < TWO_32
      && (x < width && !WrapsInto(x, t, width) <==> Placeable(startx, width, len, z))
      && (Placeable(startx, width, len, z) && startx > width / 2 ==> x == startx - t)
  {
    ReducedBelow(startx - t);
  }

  /**
   Clipping is right exactly for text that can be placed, whatever 32-bit start and width and whatever
   length below 2^32 pixels; otherwise the aligned start is off the row, or something has wrapped.
   */
  lemma ClippedExactlyWhenPlaceable(startx: nat, width: nat, len: nat, z: Size)
    requires InRange(startx, width, len, z)
    ensures 0 <= Aligned(startx, width, len, z)
    ensures var x := Aligned(startx, width, len, z);
      WellClipped(x, width, len, z, Clipped(x, width, len, z)) <==> Placeable(startx, width, len, z)
    ensures Placeable(startx, width, len, z) && startx > width / 2 ==>
              Aligned(startx, width, len, z) == startx - len * z.Advance()
  {
    var t := len * z.Advance();
    AlignedExactly(startx, width, len, z, t);
    ClippedExactly(Aligned(startx, width, len, z), width, len, z, t);
  }

  /** Text of 100 glyphs that is to end at column 400 of 640 begins at a wrapped address and is not clipped at all. */
  lemma TooLongToEndThere()
    ensures InRange(400, 640, 100, Single)
    ensures !WellClipped(Aligned(400, 640, 100, Single), 640, 100, Single, Clipped(Aligned(400, 640, 100, Single), 640, 100, Single))
  {
    ClippedExactlyWhenPlaceable(400, 640, 100, Single);
  }

  /** A start of -1 arrives as 2^32 - 1, and clipping draws more glyphs than the text has. */
  lemma NegativeStart()
    ensures InRange(TWO_32 - 1, 640, 27, Single)
    ensures Clipped(Aligned(TWO_32 - 1, 640, 27, Single), 640, 27, Single) > 27
  {
    assert Aligned(TWO_32 - 1, 640, 27, Single) == TWO_32 - 163;
    ReducedBelow(640 - (TWO_32 - 163) - 1);
  }

  /** Column `d` of glyph `k` is beyond the right edge. */
  predicate Beyond(x: nat, width: nat, z: Size, k: nat, d: nat) {
    x + z.Advance() * k + d >= width
  }

  /** Some cell of the `n` glyphs drawn is beyond the right edge: the image pointer takes it to the next row. */
  predicate RunsOn(x: nat, width: nat, n: nat, z: Size) {
    exists k: nat, d: nat :: k < n && d < z.CellWidth() && Beyond(x, width, z, k, d)
  }

  /** A well-clipped line runs on exactly if it is double-sized text, not empty, that ends one pixel short of the edge. */
  lemma RunsOnExactly(x: nat, width: nat, n: nat, z: Size)
    requires x + z.Advance() * n < width
    ensures RunsOn(x, width, n, z) <==> n > 0 && z.Double? && x + z.Advance() * n == width - 1
  {
    if n > 0 && z.Double? && x + z.Advance() * n == width - 1 {
      assert Beyond(x, width, z, n - 1, z.CellWidth() - 1);
    }
  }

  /** What is on the image after a line is drawn: aligned, clipped, and painted from the left. */
  function Drawn(image: seq<Byte>, startx: nat, starty: nat, width: nat, glyphs: seq<Glyph>, z: Size): (r: seq<Byte>)
    requires AllOf(glyphs, z) && Placeable(startx, width, |glyphs|, z)
    ensures |r| == |image|
  {
    ClippedExactlyWhenPlaceable(startx, width, |glyphs|, z);
    var x := Aligned(startx, width, |glyphs|, z);
    PaintText(image, x + starty * width, width, glyphs, z, Clipped(x, width, |glyphs|, z))
  }

  /** A glyph whose first cell is at `p` ends inside the image. */
  predicate GlyphInside(p: int, width: nat, z: Size, size: nat) {
    p + (z.CellHeight() - 1) * width + z.CellWidth() <= size
  }

  /** The last of `n` glyphs, and with it every one, ends inside the image. */
  predicate LineInside(p: int, width: nat, z: Size, n: int, size: nat) {
    n > 0 ==> GlyphInside(Start(p, z, n - 1), width, z, size)
  }

  lemma EveryGlyphInside(p: int, width: nat, z: Size, k: nat, n: nat, size: nat)
    requires k < n && LineInside(p, width, z, n, size)
    ensures GlyphInside(Start(p, z, k), width, z, size) && p <= Start(p, z, k)
  {
    StartIs(p, z, k);
    StartIs(p, z, n - 1);
  }

  /** The glyphs drawn lie inside the image. */
  predicate OnImage(size: nat, startx: nat, starty: nat, width: nat, len: nat, z: Size)
    requires Placeable(startx, width, len, z)
  {
    ClippedExactlyWhenPlaceable(startx, width, len, z);
    var x := Aligned(startx, width, len, z);
    LineInside(x + starty * width, width, z, Clipped(x, width, len, z), size)
  }

  // ---- the drawing loops ----

  /** The glyphs that the character table gives for a text. */
  function GlyphsOf(font: seq<Glyph>, text: seq<nat>): (gs: seq<Glyph>)
    requires forall i :: 0 <= i < |text| ==> text[i] < |font|
    ensures |gs| == |text| && forall i :: 0 <= i < |text| ==> gs[i] == font[text[i]]
  {
    seq(|text|, i requires 0 <= i < |text| => font[text[i]])
  }

  /** Row `rows` of a glyph that is inside the image is inside it, too. */
  lemma RowInside(p: nat, width: nat, rows: nat, z: Size, size: nat)
    requires rows < z.CellHeight() && GlyphInside(p, width, z, size)
    ensures 0 <= RowAt(p, width, rows) && RowAt(p, width, rows) + z.CellWidth() <= size
    ensures (rows + 1) * z.CellWidth() == rows * z.CellWidth() + z.CellWidth() <= z.Cells()
  {
    RowAtIs(p, width, rows);
    MulMonotone(width, rows, z.CellHeight() - 1);
  }

  lemma GlyphPitch(width: nat, z: Size)
    ensures width * z.CellHeight() == z.CellHeight() * width
  {
  }

  /** Align and clip: where the line starts, and how many of its characters are drawn. */
  method Place(startx: nat, width: nat, len: nat, z: Size) returns (x: nat, n: nat)
    requires Placeable(startx, width, len, z)
    ensures x == Aligned(startx, width, len, z) && n == Clipped(x, width, len, z)
    ensures WellClipped(x, width, len, z, n)
  {
    ClippedExactlyWhenPlaceable(startx, width, len, z);
    x, n := startx, len;
    if x > width / 2 {
      x := (x - len * z.Advance()) % TWO_32;
    }
    if (x + len * z.Advance()) % TWO_32 >= width {
      n := (width - x - 1) % TWO_32 / z.Advance();
    }
  }

  class Canvas {
    const image: array<Byte>

    constructor (image: array<Byte>)
      ensures this.image == image
    {
      this.image := image;
    }

    /** The innermost loop: one row of cells, from `charPtr` of the glyph to `imagePtr` of the image. */
    method DrawRow(imagePtr: nat, g: Glyph, charPtr: nat, cw: nat) returns (imagePtr': nat, charPtr': nat)
      requires charPtr + cw <= |g| && imagePtr + cw <= image.Length
      modifies image
      ensures imagePtr' == imagePtr + cw && charPtr' == charPtr + cw
      ensures image[..] == PaintRun(old(image[..]), imagePtr, g[charPtr..charPtr + cw])
    {
      imagePtr', charPtr' := imagePtr, charPtr;
      var x := cw;
      while x > 0
        invariant 0 <= x <= cw && imagePtr' == imagePtr + (cw - x) && charPtr' == charPtr + (cw - x)
        invariant forall q :: 0 <= q < image.Length ==>
          image[q] == if imagePtr <= q < imagePtr' then Ink(g[charPtr + (q - imagePtr)], old(image[q])) else old(image[q])
      {
        x := x - 1;
        if g[charPtr'] == 1 {
          image[imagePtr'] := 0;
        } else if g[charPtr'] == 2 {
          image[imagePtr'] := 255;
        }
        imagePtr', charPtr' := imagePtr' + 1, charPtr' + 1;
      }
    }

    /** One turn of the row loop: draw a row and step to the next row of the image. */
    method DrawNextRow(ghost before: seq<Byte>, ghost p: nat, ghost rows: nat, ptr: int, charPtr: nat,
                       g: Glyph, width: nat, z: Size) returns (ptr': int, charPtr': nat)
      requires |g| == z.Cells() && rows < z.CellHeight() && GlyphInside(p, width, z, image.Length)
      requires ptr == RowAt(p, width, rows) && charPtr == rows * z.CellWidth()
      requires image[..] == PaintRows(before, p, width, g, z, rows)
      modifies image
      ensures ptr' == RowAt(p, width, rows + 1) && charPtr' == (rows + 1) * z.CellWidth()
      ensures image[..] == PaintRows(before, p, width, g, z, rows + 1)
    {
      RowInside(p, width, rows, z, image.Length);
      PaintRowsStep(before, p, width, g, z, rows);
      var lineOffset: int := width - z.CellWidth();
      ptr', charPtr' := DrawRow(ptr, g, charPtr, z.CellWidth());
      ptr' := ptr' + lineOffset;
    }

    /** The loop over the rows of one glyph; the pointer ends where the next glyph begins. */
    method DrawGlyph(imagePtr: nat, g: Glyph, width: nat, z: Size) returns (imagePtr': nat)
      requires |g| == z.Cells() && GlyphInside(imagePtr, width, z, image.Length)
      modifies image
      ensures image[..] == PaintRows(old(image[..]), imagePtr, width, g, z, z.CellHeight())
      ensures imagePtr' == imagePtr + z.Advance()
    {
      ghost var before := image[..];
      var nextCharOffset := width * z.CellHeight() - z.Advance();
      var ptr: int, charPtr := imagePtr, 0;
      ghost var rows: nat := 0;
      var y := z.CellHeight();
      while y > 0
        invariant 0 <= y && y + rows == z.CellHeight()
        invariant ptr == RowAt(imagePtr, width, rows) && charPtr == rows * z.CellWidth()
        invariant image[..] == PaintRows(before, imagePtr, width, g, z, rows)
      {
        y := y - 1;
        ptr, charPtr := DrawNextRow(before, imagePtr, rows, ptr, charPtr, g, width, z);
        rows := rows + 1;
      }
      GlyphPitch(width, z);
      RowAtIs(imagePtr, width, rows);
      imagePtr' := ptr - nextCharOffset;
    }

    /** One turn of the character loop. */
    method DrawNextGlyph(ghost before: seq<Byte>, ghost p: int, ghost glyphs: seq<Glyph>, ghost n: nat,
                         ghost k: nat, imagePtr: int, g: Glyph, width: nat, z: Size) returns (imagePtr': int)
      requires AllOf(glyphs, z) && k < n <= |glyphs| && g == glyphs[k]
      requires p >= 0 && imagePtr == Start(p, z, k) && LineInside(p, width, z, n, image.Length)
      requires image[..] == PaintText(before, p, width, glyphs, z, k)
      modifies image
      ensures imagePtr' == Start(p, z, k + 1)
      ensures image[..] == PaintText(before, p, width, glyphs, z, k + 1)
    {
      EveryGlyphInside(p, width, z, k, n, image.Length);
      PaintTextStep(before, p, width, glyphs, z, k);
      imagePtr' := DrawGlyph(imagePtr, g, width, z);
    }

    /** The loop over the characters of a line that has its place. */
    method DrawGlyphs(p: nat, width: nat, font: seq<Glyph>, text: seq<nat>, len: nat, z: Size)
      requires AllOf(font, z) && len <= |text| && forall i :: 0 <= i < |text| ==> text[i] < |font|
      requires LineInside(p, width, z, len, image.Length)
      modifies image
      ensures image[..] == PaintText(old(image[..]), p, width, GlyphsOf(font, text), z, len)
    {
      ghost var before, glyphs := image[..], GlyphsOf(font, text);
      var imagePtr: int := p;
      for pos := 0 to len
        invariant imagePtr == Start(p, z, pos)
        invariant image[..] == PaintText(before, p, width, glyphs, z, pos)
      {
        imagePtr := DrawNextGlyph(before, p, glyphs, len, pos, imagePtr, font[text[pos]], width, z);
      }
    }

    /** One line of text. */
    method DrawTextN(startx: nat, starty: nat, width: nat, font: seq<Glyph>, text: seq<nat>, z: Size)
      requires AllOf(font, z) && forall i :: 0 <= i < |text| ==> text[i] < |font|
      requires Placeable(startx, width, |text|, z)
      requires OnImage(image.Length, startx, starty, width, |text|, z)
      modifies image
      ensures image[..] == Drawn(old(image[..]), startx, starty, width, GlyphsOf(font, text), z)
    {
      ClippedExactlyWhenPlaceable(startx, width, |text|, z);
      var x, len := Place(startx, width, |text|, z);
      MulMonotone(starty, 0, width);
      DrawGlyphs(x + starty * width, width, font, text, len, z);
    }
  }
}
