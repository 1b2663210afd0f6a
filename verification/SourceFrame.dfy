/** The size checks between the source picture and the frame buffer allocated for it. */
module SourceFrame {
  import opened Arithmetic

  function Align16(n: nat): (a: nat)
    ensures a % 16 == 0 && n <= a < n + 16
  {
    (n + 15) / 16 * 16
  }

  /** The bytes asked for one frame buffer: luma, then two chroma planes of a quarter each. */
  function BufferSize(stride: nat, height: nat): nat {
    stride * height + stride / 2 * height / 2 * 2
  }

  /** What the encoder is opened with. */
  datatype Picture = Picture(srcWidth: nat, srcHeight: nat, encWidth: nat, encHeight: nat)

  /** Opening succeeds when the source width is its own stride and the encoded part fits the source. */
  predicate Prepared(p: Picture) {
    p.srcWidth == Align16(p.srcWidth) && p.encWidth <= p.srcWidth && p.encHeight <= p.srcHeight
  }

  function ImageSize(p: Picture): nat {
    p.srcWidth * p.srcHeight * 3 / 2
  }

  /** Copying a frame of `len` bytes goes ahead, and does not abort, when both size checks pass. */
  predicate FillAccepts(p: Picture, len: nat) {
    ImageSize(p) == BufferSize(Align16(p.srcWidth), Align16(p.srcHeight)) && len >= ImageSize(p)
  }

  /** For a width of `16 * a`, both sizes in terms of the product of `a` and the height. */
  lemma ImageInBlocks(a: nat, h: nat)
    ensures 16 * a * h * 3 / 2 == 24 * (a * h)
  {
    assert 16 * a * h == 16 * (a * h);
  }

  lemma BufferInBlocks(a: nat, h: nat)
    ensures BufferSize(16 * a, h) == 24 * (a * h)
  {
    var t := a * h;
    DivUnique(16 * a, 2, 8 * a, 0);
    DivUnique(8 * t, 2, 4 * t, 0);
    assert 16 * a * h == 16 * t && 8 * a * h == 8 * t;
  }

  lemma MoreBlocks(a: nat, x: nat, y: nat)
    requires a > 0 && x < y
    ensures a * x < a * y
  {
    assert a * y == a * x + a * (y - x);
  }

  /**
   An encoder that opened can be fed exactly when its source height is a multiple of 16, too: the
   buffer is sized by the aligned height, the picture by its own, and unequal sizes abort.
   */
  lemma FeedableExactlyWhenAligned(p: Picture, len: nat)
    requires Prepared(p) && p.srcWidth > 0
    ensures FillAccepts(p, len) <==> p.srcHeight % 16 == 0 && 2 * len >= 3 * (p.srcWidth * p.srcHeight)
  {
    SizesAgreeWhenAligned(p.srcWidth / 16, p.srcHeight);
    assert p.srcWidth == 16 * (p.srcWidth / 16);
    ImageInBlocks(p.srcWidth / 16, p.srcHeight);
    assert 16 * (p.srcWidth / 16) * p.srcHeight == 16 * (p.srcWidth / 16 * p.srcHeight);
  }

  /** Opening asks for a width that is a multiple of 16 and for an encoded part inside the source, and for nothing else. */
  lemma PreparedExactly(p: Picture)
    ensures Prepared(p) <==> p.srcWidth % 16 == 0 && p.encWidth <= p.srcWidth && p.encHeight <= p.srcHeight
  {
    var a := p.srcWidth / 16;
    assert p.srcWidth == 16 * a + p.srcWidth % 16;
  }

  /** A full-HD source: the encoder opens, and then aborts on every frame, since 1080 is not a multiple of 16. */
  lemma FullHdOpensAndAborts(len: nat)
    ensures Prepared(Picture(1920, 1080, 1920, 1080))
    ensures !FillAccepts(Picture(1920, 1080, 1920, 1080), len)
  {
    FeedableExactlyWhenAligned(Picture(1920, 1080, 1920, 1080), len);
  }

  lemma SizesAgreeWhenAligned(a: nat, h: nat)
    requires a > 0
    ensures 16 * a * h * 3 / 2 == BufferSize(16 * a, Align16(h)) <==> h % 16 == 0
  {
    ImageInBlocks(a, h);
    BufferInBlocks(a, Align16(h));
    if h < Align16(h) {
      MoreBlocks(a, h, Align16(h));
    }
  }
}
