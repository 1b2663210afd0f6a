/**
 The doubled font, and what it is for: text drawn in double size is the single-size picture magnified.
 */
module TextScaling {
  import opened Arithmetic
  import opened Bytes
  import opened TextRaster
  import opened TextMeaning

  // ---- the character tables ----

  const ASCII_MAX := 127

  /** Cell `i` of a doubled glyph, 14 cells a row, comes from the cell at half its row and half its column. */
  function Doubled(g: Glyph): (b: Glyph)
    requires |g| == Single.Cells()
    ensures |b| == Double.Cells()
  {
    seq(224, i requires 0 <= i < 224 => g[i / 28 * 7 + i % 14 / 2])
  }

  lemma DoubledAt(g: Glyph, y: nat, x: nat)
    requires |g| == Single.Cells() && y < 16 && x < 14
    ensures 0 <= y * 14 + x < 224 && 0 <= y / 2 * 7 + x / 2 < 56
    ensures Doubled(g)[y * 14 + x] == g[y / 2 * 7 + x / 2]
  {
    assert (y * 14 + x) / 28 == y / 2 && (y * 14 + x) % 14 == x;
  }

  lemma DoubledCell(g: Glyph, y: nat, x: nat)
    requires |g| == Single.Cells() && y < Double.CellHeight() && x < Double.CellWidth()
    ensures Cell(Doubled(g), Double, y, x) == Cell(g, Single, y / 2, x / 2)
  {
    DoubledAt(g, y, x);
  }

  /** A character and its cells. */
  datatype Char = Char(ascii: nat, pix: Glyph)

  predicate WellFormed(table: seq<Char>) {
    && |table| > 0
    && forall i :: 0 <= i < |table| ==> table[i].ascii < ASCII_MAX && |table[i].pix| == Single.Cells()
  }

  /** The entry that stands for a code: the last of the first `n` that has it, else the first of all. */
  function Entry(table: seq<Char>, n: nat, code: nat): (e: nat)
    requires n <= |table|
    ensures |table| > 0 ==> e < |table|
    ensures n > 0 ==> table[e].ascii == code || e == 0
    ensures forall i :: e < i < n ==> table[i].ascii != code
  {
    if n == 0 then 0 else if table[n - 1].ascii == code then n - 1 else Entry(table, n - 1, code)
  }

  /** The font that a table gives: one glyph for every code. */
  function FontOf(table: seq<Char>, n: nat): (f: seq<Glyph>)
    requires WellFormed(table) && n <= |table|
    ensures |f| == ASCII_MAX && AllOf(f, Single)
  {
    seq(ASCII_MAX, code requires 0 <= code < ASCII_MAX => table[Entry(table, n, code)].pix)
  }

  function DoubledAll(font: seq<Glyph>): (f: seq<Glyph>)
    requires AllOf(font, Single)
    ensures |f| == |font| && AllOf(f, Double)
    ensures forall i :: 0 <= i < |f| ==> f[i] == Doubled(font[i])
  {
    seq(|font|, i requires 0 <= i < |font| => Doubled(font[i]))
  }

  /** The two inner loops that fill one doubled glyph, column by column. */
  method DoubleGlyph(g: Glyph) returns (b: Glyph)
    requires |g| == Single.Cells()
    ensures b == Doubled(g)
  {
    var pix := new Byte[224];
    for x := 0 to 14
      invariant forall i :: 0 <= i < 224 && i % 14 < x ==> pix[i] == Doubled(g)[i]
    {
      for y := 0 to 16
        invariant forall i :: 0 <= i < 224 && (i % 14 < x || (i % 14 == x && i / 14 < y)) ==> pix[i] == Doubled(g)[i]
      {
        DoubledAt(g, y, x);
        pix[y * 14 + x] := g[y / 2 * 7 + x / 2];
      }
    }
    b := pix[..];
  }

  /** The loop that fills the table of doubled characters. */
  method DoubleTable(table: seq<Char>) returns (bigTable: array<Glyph>)
    requires WellFormed(table)
    ensures fresh(bigTable) && bigTable.Length == |table|
    ensures forall j :: 0 <= j < |table| ==> bigTable[j] == Doubled(table[j].pix)
  {
    bigTable := new Glyph[|table|];
    for i := 0 to |table|
      invariant forall j :: 0 <= j < i ==> bigTable[j] == Doubled(table[j].pix)
    {
      var b := DoubleGlyph(table[i].pix);
      bigTable[i] := b;
    }
  }

  /** The loops that point every code to the first entry, and then every code that has one to its own. */
  method PointToEntries(table: seq<Char>, bigTable: seq<Glyph>) returns (small: array<Glyph>, big: array<Glyph>)
    requires WellFormed(table) && |bigTable| == |table|
    ensures small.Length == big.Length == ASCII_MAX
    ensures forall code :: 0 <= code < ASCII_MAX ==>
      small[code] == table[Entry(table, |table|, code)].pix && big[code] == bigTable[Entry(table, |table|, code)]
  {
    small := new Glyph[ASCII_MAX];
    big := new Glyph[ASCII_MAX];
    for i := 0 to ASCII_MAX
      invariant forall code :: 0 <= code < i ==> small[code] == table[0].pix && big[code] == bigTable[0]
    {
      small[i], big[i] := table[0].pix, bigTable[0];
    }
    for i := 0 to |table|
      invariant forall code :: 0 <= code < ASCII_MAX ==>
        small[code] == table[Entry(table, i, code)].pix && big[code] == bigTable[Entry(table, i, code)]
    {
      small[table[i].ascii], big[table[i].ascii] := table[i].pix, bigTable[i];
    }
  }

  /** Fill the tables that map a code to its glyph, single and doubled. */
  method InitializeChars(table: seq<Char>) returns (small: array<Glyph>, big: array<Glyph>)
    requires WellFormed(table)
    ensures small[..] == FontOf(table, |table|)
    ensures big[..] == DoubledAll(FontOf(table, |table|))
  {
    var bigTable := DoubleTable(table);
    small, big := PointToEntries(table, bigTable[..]);
  }

  /** The fonts, code by code: the last entry that has the code, or else the first; doubled cell by cell. */
  lemma FontByEntry(table: seq<Char>, code: nat, e: nat)
    requires WellFormed(table) && code < 127 && e < |table|
    requires table[e].ascii == code || (e == 0 && forall i :: 0 <= i < |table| ==> table[i].ascii != code)
    requires forall i :: e < i < |table| ==> table[i].ascii != code
    ensures FontOf(table, |table|)[code] == table[e].pix
    ensures forall y: nat, x: nat :: y < 16 && x < 14 ==>
      0 <= y / 2 * 7 + x / 2 < 56 && DoubledAll(FontOf(table, |table|))[code][y * 14 + x] == table[e].pix[y / 2 * 7 + x / 2]
  {
    assert Entry(table, |table|, code) == e;
    forall y: nat, x: nat | y < 16 && x < 14
      ensures 0 <= y / 2 * 7 + x / 2 < 56 && DoubledAll(FontOf(table, |table|))[code][y * 14 + x] == table[e].pix[y / 2 * 7 + x / 2]
    {
      DoubledAt(table[e].pix, y, x);
    }
  }

  // ---- magnification ----

  /** The image with every pixel drawn as a two by two square. */
  function Magnified(image: seq<Byte>, width: nat): (b: seq<Byte>)
    requires width > 0
    ensures |b| == 4 * |image|
  {
    seq(4 * |image|, q requires 0 <= q < 4 * |image| => Pix(image, width, q / (2 * width) / 2, q % (2 * width) / 2))
  }

  lemma MagnifiedPixel(image: seq<Byte>, width: nat, r: nat, c: nat)
    requires c < 2 * width && r * (2 * width) + c < 4 * |image|
    ensures Pix(Magnified(image, width), 2 * width, r, c) == Pix(image, width, r / 2, c / 2)
  {
    DivUnique(r * (2 * width) + c, 2 * width, r, c);
    MulMonotone(r, 0, 2 * width);
  }

  lemma ClippedScales(x: nat, width: nat, len: nat)
    requires x < width && 2 * width < TWO_32 && 2 * x + len * 12 < TWO_32
    ensures Clipped(2 * x, 2 * width, len, Double) == Clipped(x, width, len, Single)
  {
    ClippedInside(x, width, len, Single, len * 6);
    ClippedInside(2 * x, 2 * width, len, Double, len * 12);
    assert (2 * (width - x) - 1) / 12 == (width - x - 1) / 6;
  }

  /** Alignment and clipping do not see the magnification. */
  lemma PlaceScales(startx: nat, width: nat, len: nat)
    requires Placeable(startx, width, len, Single) && 2 * width < TWO_32 && 2 * startx + len * 12 < TWO_32
    ensures Placeable(2 * startx, 2 * width, len, Double)
    ensures var x := Aligned(startx, width, len, Single);
            && Aligned(2 * startx, 2 * width, len, Double) == 2 * x
            && Clipped(2 * x, 2 * width, len, Double) == Clipped(x, width, len, Single)
  {
    AlignedExactly(startx, width, len, Single, len * 6);
    AlignedExactly(2 * startx, 2 * width, len, Double, len * 12);
    ClippedScales(Aligned(startx, width, len, Single), width, len);
  }

  lemma CoversScales(k: nat, y: int, d: int)
    ensures Covers(Double, k, y, d) <==> Covers(Single, k, y / 2, d / 2)
    ensures (d - 12 * k) / 2 == d / 2 - 6 * k
  {
  }

  lemma {:induction false} ShadeScales(glyphs: seq<Glyph>, n: nat, y: int, d: int, under: Byte)
    requires AllOf(glyphs, Single) && n <= |glyphs|
    ensures Shade(DoubledAll(glyphs), Double, n, y, d, under) == Shade(glyphs, Single, n, y / 2, d / 2, under)
  {
    if n > 0 {
      ShadeScales(glyphs, n - 1, y, d, under);
      CoversScales(n - 1, y, d);
      if Covers(Double, n - 1, y, d) {
        DoubledCell(glyphs[n - 1], y, d - 12 * (n - 1));
      }
    }
  }

  lemma HalfDistance(a: int, b: int)
    ensures (a - 2 * b) / 2 == a / 2 - b
  {
  }

  lemma BigPixel(image: seq<Byte>, width: nat, p2: int, y0: nat, x0: nat, glyphs: seq<Glyph>, n: nat, r: nat, c: nat)
    requires AllOf(glyphs, Single) && n <= |glyphs| && x0 + 6 * n < width && p2 == 2 * y0 * (2 * width) + 2 * x0
    requires c < 2 * width && r * (2 * width) + c < 4 * |image|
    ensures Pix(PaintText(Magnified(image, width), p2, 2 * width, DoubledAll(glyphs), Double, n), 2 * width, r, c) ==
            Shade(glyphs, Single, n, r / 2 - y0, c / 2 - x0, Pix(image, width, r / 2, c / 2))
  {
    StayingPixel(Magnified(image, width), 2 * width, p2, 2 * y0, 2 * x0, DoubledAll(glyphs), Double, n, r, c);
    MagnifiedPixel(image, width, r, c);
    HalfDistance(r, y0);
    HalfDistance(c, x0);
    ShadeScales(glyphs, n, r - 2 * y0, c - 2 * x0, Pix(image, width, r / 2, c / 2));
  }

  lemma TextScales(image: seq<Byte>, width: nat, p: int, p2: int, y0: nat, x0: nat, glyphs: seq<Glyph>, n: nat, r: nat, c: nat)
    requires AllOf(glyphs, Single) && n <= |glyphs| && x0 + 6 * n < width
    requires p == y0 * width + x0 && p2 == 2 * y0 * (2 * width) + 2 * x0
    requires c < 2 * width && r / 2 * width + c / 2 < |image| && r * (2 * width) + c < 4 * |image|
    ensures Pix(PaintText(Magnified(image, width), p2, 2 * width, DoubledAll(glyphs), Double, n), 2 * width, r, c) ==
            Pix(PaintText(image, p, width, glyphs, Single, n), width, r / 2, c / 2)
  {
    BigPixel(image, width, p2, y0, x0, glyphs, n, r, c);
    StayingPixel(image, width, p, y0, x0, glyphs, Single, n, r / 2, c / 2);
  }

  lemma HalfInside(width: nat, height: nat, r: nat, c: nat)
    requires c < 2 * width && r * (2 * width) + c < 4 * (height * width)
    ensures r / 2 * width + c / 2 < height * width
  {
    assert 2 * width * (2 * height) == 4 * (height * width);
    if r / 2 >= height {
      MulMonotone(2 * width, 2 * height, r);
    } else {
      MulMonotone(width, r / 2 + 1, height);
    }
  }

  /** Images are equal if they agree in every row and column. */
  lemma PixelsDecide(a: seq<Byte>, b: seq<Byte>, width: nat)
    requires |a| == |b| && width > 0
    requires forall r: nat, c: nat :: c < width && r * width + c < |a| ==> Pix(a, width, r, c) == Pix(b, width, r, c)
    ensures a == b
  {
    forall q | 0 <= q < |a|
      ensures a[q] == b[q]
    {
      var r, c := q / width, q % width;
      assert r * width + c == q;
      assert Pix(a, width, r, c) == Pix(b, width, r, c);
    }
  }

  lemma TextMagnifies(image: seq<Byte>, width: nat, height: nat, p: int, p2: int, y0: nat, x0: nat,
                      glyphs: seq<Glyph>, n: nat)
    requires |image| == height * width && AllOf(glyphs, Single) && n <= |glyphs| && x0 + 6 * n < width
    requires p == y0 * width + x0 && p2 == 2 * y0 * (2 * width) + 2 * x0
    ensures PaintText(Magnified(image, width), p2, 2 * width, DoubledAll(glyphs), Double, n) ==
            Magnified(PaintText(image, p, width, glyphs, Single, n), width)
  {
    var single := PaintText(image, p, width, glyphs, Single, n);
    var double := PaintText(Magnified(image, width), p2, 2 * width, DoubledAll(glyphs), Double, n);
    forall r: nat, c: nat | c < 2 * width && r * (2 * width) + c < |double|
      ensures Pix(double, 2 * width, r, c) == Pix(Magnified(single, width), 2 * width, r, c)
    {
      HalfInside(width, height, r, c);
      TextScales(image, width, p, p2, y0, x0, glyphs, n, r, c);
      MagnifiedPixel(single, width, r, c);
    }
    PixelsDecide(double, Magnified(single, width), 2 * width);
  }

  /**
   Drawing in double size on the magnified image, at the doubled place, in the doubled font, is magnifying
   what drawing in single size gives.
   */
  lemma DrawingScales(image: seq<Byte>, width: nat, height: nat, startx: nat, starty: nat, font: seq<Glyph>, text: seq<nat>)
    requires width > 0 && |image| == height * width && AllOf(font, Single)
    requires forall i :: 0 <= i < |text| ==> text[i] < |font|
    requires Placeable(startx, width, |text|, Single) && 2 * width < TWO_32 && 2 * startx + |text| * 12 < TWO_32
    ensures Placeable(2 * startx, 2 * width, |text|, Double)
    ensures Drawn(Magnified(image, width), 2 * startx, 2 * starty, 2 * width, GlyphsOf(DoubledAll(font), text), Double) ==
            Magnified(Drawn(image, startx, starty, width, GlyphsOf(font, text), Single), width)
  {
    PlaceScales(startx, width, |text|);
    ClippedExactlyWhenPlaceable(startx, width, |text|, Single);
    var x: nat := Aligned(startx, width, |text|, Single);
    var glyphs := GlyphsOf(font, text);
    assert GlyphsOf(DoubledAll(font), text) == DoubledAll(glyphs);
    TextMagnifies(image, width, height, x + starty * width, 2 * x + 2 * starty * (2 * width), starty, x, glyphs,
                  Clipped(x, width, |text|, Single));
  }
}
