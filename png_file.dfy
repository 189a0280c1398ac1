/** png_file.cpp: a page holding one PNG, given as raw pixel bytes. */
module PngFile {
  import opened Common
  import opened Matrix
  import opened AdjustSize

  /** libpng's colour types and the alpha bit among them. */
  const ColorTypeGray: bv8 := 0
  const ColorTypeRgb: bv8 := 2
  const ColorTypePalette: bv8 := 3
  const ColorTypeGrayAlpha: bv8 := 4
  const ColorTypeRgbAlpha: bv8 := 6
  const ColorMaskAlpha: bv8 := 4

  /** libpng's unit code for a resolution in dots per metre. */
  const ResolutionMeter: int := 1

  /** What png_page reads from the PNG header: the pixel size, the sample
      depth, the number of samples per pixel, the colour type and the pHYs
      resolution with its unit. */
  datatype PngHeader = PngHeader(xSize: nat, ySize: nat, bitDepth: bv8, channels: nat,
                                 colorType: bv8, resX: nat, resY: nat, unitType: int)

  // --- The alpha split ---------------------------------------------------

  /** The position of sample k of pixel o in a buffer of width samples per
      pixel. */
  function Sample(width: nat, o: nat, k: nat): nat
  {
    Stride(width, o) + k
  }

  /** The first position of pixel o: o strides of width samples, counted one
      stride at a time so that the product only appears where a proof asks
      for it (SampleIsProduct). */
  function Stride(width: nat, o: nat): nat
  {
    if o == 0 then 0 else Stride(width, o - 1) + width
  }

  /** The position of a sample is width * o + k. */
  lemma {:induction false} SampleIsProduct(width: nat, o: nat, k: nat)
    ensures Sample(width, o, k) == width * o + k
  {
    if o > 0 {
      SampleIsProduct(width, o - 1, k);
      assert width * (o - 1) + width == width * o;
    }
  }

  /** The samples of the first n pixels lie in the first width * n positions. */
  lemma SampleBelow(width: nat, o: nat, k: nat, n: nat)
    requires o < n && k < width
    ensures Sample(width, o, k) < width * n
  {
    SampleIsProduct(width, o, k);
    MulLe(width, o + 1, n);
    assert width * o + width == width * (o + 1);
  }

  /** Pixel and sample can be read back from a position. */
  lemma SampleDivMod(width: nat, o: nat, k: nat)
    requires k < width
    ensures Sample(width, o, k) / width == o && Sample(width, o, k) % width == k
  {
    SampleIsProduct(width, o, k);
    var j := width * o + k;
    var q, r := j / width, j % width;
    assert width * q + r == j && 0 <= r < width;
    DivModUnique(width, q, o, r, k);
  }

  /** Two ways of writing a number as w*q + r with 0 <= r < w agree. */
  lemma DivModUnique(w: int, q1: int, q2: int, r1: int, r2: int)
    requires w > 0 && 0 <= r1 < w && 0 <= r2 < w
    requires w * q1 + r1 == w * q2 + r2
    ensures q1 == q2 && r1 == r2
  {
    assert w * (q1 - q2) == r2 - r1;
    if q1 > q2 {
      MulAtLeast(w, q1 - q2);
    } else if q1 < q2 {
      MulAtLeast(w, q2 - q1);
    }
  }

  lemma MulAtLeast(w: int, d: int)
    requires w > 0 && d >= 1
    ensures w * d >= w
  {
    assert w * d - w == w * (d - 1);
  }

  lemma MulLe(w: nat, a: nat, b: nat)
    requires a <= b
    ensures w * a <= w * b
  {
    assert w * b - w * a == w * (b - a);
  }

  /** Where colour sample k of pixel o goes in the colour buffer, which has
      one sample per pixel fewer than the interleaved one. */
  function ColourIndex(channels: nat, o: nat, k: nat): nat
    requires channels >= 1
  {
    Sample(channels - 1, o, k)
  }

  /** Where the alpha sample of pixel offset is in the interleaved buffer: the
      last of its samples. */
  function MaskIndex(channels: nat, offset: nat): (i: nat)
    requires channels >= 1
    ensures i / channels == offset && i % channels == channels - 1
  {
    SampleDivMod(channels, offset, channels - 1);
    Sample(channels, offset, channels - 1)
  }

  /** The colour samples and the alpha samples of the first n pixels of an
      interleaved buffer with channels samples per pixel, the alpha sample
      last: plain holds the colour samples of each pixel in turn, mask the
      alpha sample of each pixel. */
  predicate SplitOf(image: seq<bv8>, n: nat, channels: nat, plain: seq<bv8>, mask: seq<bv8>)
    requires channels >= 1
  {
    |plain| == (channels - 1) * n && |mask| == n && channels * n <= |image| &&
    (forall o: nat, k: nat :: o < n && k < channels - 1 ==>
       ColourIndex(channels, o, k) < |plain| && Sample(channels, o, k) < |image| &&
       plain[ColourIndex(channels, o, k)] == image[Sample(channels, o, k)]) &&
    (forall o: nat :: o < n ==>
       MaskIndex(channels, o) < |image| && mask[o] == image[MaskIndex(channels, o)])
  }

  /** The pixel and the sample that a position of an interleaved buffer with
      width samples per pixel belongs to. */
  lemma PixelOfPosition(width: nat, n: nat, i: nat)
    requires width > 0 && i < width * n
    ensures i / width < n && i % width < width
    ensures i == Sample(width, i / width, i % width)
  {
    var o := i / width;
    SampleIsProduct(width, o, i % width);
    assert i == width * o + i % width;
    if o >= n {
      MulLe(width, n, o);
    }
  }

  /** Sample i of the interleaved buffer rebuilt from plain and mask. */
  function Rebuilt(plain: seq<bv8>, mask: seq<bv8>, channels: nat, n: nat, i: nat): bv8
    requires channels >= 1 && |plain| == (channels - 1) * n && |mask| == n && i < channels * n
  {
    PixelOfPosition(channels, n, i);
    var o, k := i / channels, i % channels;
    if k < channels - 1 then
      SampleBelow(channels - 1, o, k, n);
      plain[ColourIndex(channels, o, k)]
    else
      mask[o]
  }

  /** The inverse of the split: the pixels rebuilt from their colour samples
      and their alpha sample. */
  function Interleave(plain: seq<bv8>, mask: seq<bv8>, channels: nat, n: nat): (image: seq<bv8>)
    requires channels >= 1 && |plain| == (channels - 1) * n && |mask| == n
    ensures |image| == channels * n
  {
    seq(channels * n, i requires 0 <= i < channels * n => Rebuilt(plain, mask, channels, n, i))
  }

  /** Nothing is lost in the split: interleaving the two buffers again gives
      back the pixel bytes. */
  lemma SplitRoundTrip(image: seq<bv8>, n: nat, channels: nat, plain: seq<bv8>, mask: seq<bv8>)
    requires channels >= 1 && SplitOf(image, n, channels, plain, mask)
    ensures Interleave(plain, mask, channels, n) == image[..channels * n]
  {
    var rebuilt := Interleave(plain, mask, channels, n);
    forall i | 0 <= i < channels * n
      ensures rebuilt[i] == image[i]
    {
      PixelOfPosition(channels, n, i);
      var o, k := i / channels, i % channels;
      if k == channels - 1 {
        SampleDivMod(channels, o, k);
        assert MaskIndex(channels, o) == i;
      }
    }
  }

  /** The colour samples of the first pixels pixels, and the first comp colour
      samples of the pixel after them, are in place in plain. */
  ghost predicate PlainDone(image: seq<bv8>, channels: nat, plain: seq<bv8>, pixels: nat, comp: nat)
    requires channels >= 1
  {
    forall o: nat, k: nat :: k < channels - 1 && (o < pixels || (o == pixels && k < comp)) ==>
      ColourIndex(channels, o, k) < |plain| && Sample(channels, o, k) < |image| &&
      plain[ColourIndex(channels, o, k)] == image[Sample(channels, o, k)]
  }

  /** The alpha samples of the first pixels pixels are in place in mask. */
  ghost predicate MaskDone(image: seq<bv8>, channels: nat, mask: seq<bv8>, pixels: nat)
    requires channels >= 1
  {
    pixels <= |mask| &&
    forall o: nat :: o < pixels ==> MaskIndex(channels, o) < |image| && mask[o] == image[MaskIndex(channels, o)]
  }

  /** Once every pixel is in place the buffers are the split. */
  lemma DoneIsSplit(image: seq<bv8>, n: nat, channels: nat, plain: seq<bv8>, mask: seq<bv8>)
    requires channels >= 2 && channels * n <= |image|
    requires |plain| == (channels - 1) * n && |mask| == n
    requires PlainDone(image, channels, plain, n, 0)
    requires MaskDone(image, channels, mask, n)
    ensures SplitOf(image, n, channels, plain, mask)
  {
  }

  /** Writing colour sample comp of pixel offset keeps the colour buffer in
      place one sample further. */
  lemma PlainStep(image: seq<bv8>, channels: nat, before: seq<bv8>, offset: nat, comp: nat)
    requires channels >= 1 && PlainDone(image, channels, before, offset, comp)
    requires comp < channels - 1 && ColourIndex(channels, offset, comp) < |before|
    requires Sample(channels, offset, comp) < |image|
    ensures PlainDone(image, channels,
                      before[ColourIndex(channels, offset, comp) := image[Sample(channels, offset, comp)]],
                      offset, comp + 1)
  {
    var index := ColourIndex(channels, offset, comp);
    var after := before[index := image[Sample(channels, offset, comp)]];
    forall o: nat, k: nat | k < channels - 1 && (o < offset || (o == offset && k < comp + 1))
      ensures ColourIndex(channels, o, k) < |after| && Sample(channels, o, k) < |image|
      ensures after[ColourIndex(channels, o, k)] == image[Sample(channels, o, k)]
    {
      if o != offset || k != comp {
        if ColourIndex(channels, o, k) == index {
          SampleIsProduct(channels - 1, o, k);
          SampleIsProduct(channels - 1, offset, comp);
          DivModUnique(channels - 1, o, offset, k, comp);
        }
      }
    }
  }

  /** All colour samples of pixel offset in place is the pixel done. */
  lemma PlainNextPixel(image: seq<bv8>, channels: nat, plain: seq<bv8>, offset: nat)
    requires channels >= 1 && PlainDone(image, channels, plain, offset, channels - 1)
    ensures PlainDone(image, channels, plain, offset + 1, 0)
  {
  }

  /** Writing the alpha sample of pixel offset keeps the mask in place one
      pixel further. */
  lemma MaskStep(image: seq<bv8>, channels: nat, before: seq<bv8>, offset: nat)
    requires channels >= 1 && MaskDone(image, channels, before, offset) && offset < |before|
    requires MaskIndex(channels, offset) < |image|
    ensures MaskDone(image, channels, before[offset := image[MaskIndex(channels, offset)]], offset + 1)
  {
    var after := before[offset := image[MaskIndex(channels, offset)]];
    forall o: nat | o < offset + 1
      ensures MaskIndex(channels, o) < |image| && after[o] == image[MaskIndex(channels, o)]
    {
      if o < offset {
        assert after[o] == before[o];
      }
    }
  }

  /** The innermost loop and the alpha copy of the column loop: the colour
      samples of pixel offset go to plain, its alpha sample to mask. */
  method CopyPixel(image: seq<bv8>, channels: nat, n: nat, offset: nat,
                   plain: array<bv8>, mask: array<bv8>)
    requires channels >= 2 && channels * n <= |image| && offset < n
    requires plain != mask
    requires plain.Length == (channels - 1) * n && mask.Length == n
    requires PlainDone(image, channels, plain[..], offset, 0)
    requires MaskDone(image, channels, mask[..], offset)
    modifies plain, mask
    ensures PlainDone(image, channels, plain[..], offset + 1, 0)
    ensures MaskDone(image, channels, mask[..], offset + 1)
  {
    var colorChannels := channels - 1;
    var comp := 0;
    while comp < colorChannels
      invariant 0 <= comp <= colorChannels
      invariant PlainDone(image, channels, plain[..], offset, comp)
      invariant MaskDone(image, channels, mask[..], offset)
    {
      SampleBelow(colorChannels, offset, comp, n);
      SampleBelow(channels, offset, comp, n);
      SampleIsProduct(colorChannels, offset, comp);
      SampleIsProduct(channels, offset, comp);
      ghost var before := plain[..];
      plain[colorChannels * offset + comp] := image[channels * offset + comp];
      assert plain[..] == before[ColourIndex(channels, offset, comp) := image[Sample(channels, offset, comp)]];
      PlainStep(image, channels, before, offset, comp);
      comp := comp + 1;
    }
    SampleBelow(channels, offset, colorChannels, n);
    SampleIsProduct(channels, offset, colorChannels);
    ghost var colours, before := plain[..], mask[..];
    mask[offset] := image[channels * offset + colorChannels];
    assert mask[..] == before[offset := image[MaskIndex(channels, offset)]];
    assert plain[..] == colours;
    PlainNextPixel(image, channels, colours, offset);
    MaskStep(image, channels, before, offset);
  }

  /** The column loop: the xSize pixels of a row in turn, from pixel start,
      the first pixel of the row. */
  method CopyRow(image: seq<bv8>, channels: nat, n: nat, start: nat, xSize: nat,
                 plain: array<bv8>, mask: array<bv8>)
    requires channels >= 2 && channels * n <= |image| && start + xSize <= n
    requires plain != mask
    requires plain.Length == (channels - 1) * n && mask.Length == n
    requires PlainDone(image, channels, plain[..], start, 0)
    requires MaskDone(image, channels, mask[..], start)
    modifies plain, mask
    ensures PlainDone(image, channels, plain[..], start + xSize, 0)
    ensures MaskDone(image, channels, mask[..], start + xSize)
  {
    var col := 0;
    while col < xSize
      invariant 0 <= col <= xSize
      invariant PlainDone(image, channels, plain[..], start + col, 0)
      invariant MaskDone(image, channels, mask[..], start + col)
    {
      CopyPixel(image, channels, n, start + col, plain, mask);
      col := col + 1;
    }
  }

  /** The de-interleave loop of png_page: for every pixel, row by row, its
      colour samples go to plain and its alpha sample to mask. The source
      reads the alpha sample at position channels * offset + 3, which is the
      last sample only for RGB with alpha; this loop reads the last sample,
      channels * offset + (channels - 1) (see AsWrittenMaskIndex). */
  method SplitAlpha(image: seq<bv8>, xSize: nat, ySize: nat, channels: nat)
    returns (plain: array<bv8>, mask: array<bv8>)
    requires channels >= 2 && channels * (ySize * xSize) <= |image|
    ensures fresh(plain) && fresh(mask)
    ensures SplitOf(image, ySize * xSize, channels, plain[..], mask[..])
  {
    var n := ySize * xSize;
    plain := new bv8[(channels - 1) * n];
    mask := new bv8[n];
    SampleIsProduct(xSize, ySize, 0);
    CopyRows(image, channels, n, xSize, ySize, plain, mask);
    DoneIsSplit(image, n, channels, plain[..], mask[..]);
  }

  /** The outer loop of the de-interleave: row after row, each row's pixels
      are put in place. */
  method CopyRows(image: seq<bv8>, channels: nat, n: nat, xSize: nat, ySize: nat,
                  plain: array<bv8>, mask: array<bv8>)
    requires channels >= 2 && channels * n <= |image| && n == Stride(xSize, ySize)
    requires plain != mask
    requires plain.Length == (channels - 1) * n && mask.Length == n
    modifies plain, mask
    ensures PlainDone(image, channels, plain[..], n, 0)
    ensures MaskDone(image, channels, mask[..], n)
  {
    var row, start := 0, 0;
    while row < ySize
      invariant 0 <= row <= ySize && start == Stride(xSize, row)
      invariant PlainDone(image, channels, plain[..], start, 0)
      invariant MaskDone(image, channels, mask[..], start)
    {
      RowEnd(row, xSize, ySize);
      CopyRow(image, channels, n, start, xSize, plain, mask);
      row, start := row + 1, start + xSize;
    }
  }

  /** The row after row starts xSize pixels later, within the image. */
  lemma RowEnd(row: nat, xSize: nat, ySize: nat)
    requires row < ySize
    ensures Stride(xSize, row) + xSize == Stride(xSize, row + 1) <= Stride(xSize, ySize)
  {
    SampleIsProduct(xSize, row + 1, 0);
    SampleIsProduct(xSize, ySize, 0);
    MulLe(xSize, row + 1, ySize);
  }

  /** Where the source reads a pixel's alpha sample. */
  function AsWrittenMaskIndex(channels: nat, offset: nat): nat
  {
    channels * offset + 3
  }

  /** For RGB with alpha (four samples per pixel) the source's index is the
      alpha sample. For gray with alpha (two samples per pixel) it is the
      alpha sample of the next pixel, and for the last pixel of the image it
      lies past the pixel data. */
  lemma AsWrittenMaskIndexWrongForGrayAlpha(n: nat, offset: nat)
    requires offset < n
    ensures AsWrittenMaskIndex(4, offset) == MaskIndex(4, offset)
    ensures AsWrittenMaskIndex(2, offset) == MaskIndex(2, offset + 1)
    ensures AsWrittenMaskIndex(2, offset) != MaskIndex(2, offset)
    ensures offset == n - 1 ==> AsWrittenMaskIndex(2, offset) >= 2 * n
  {
    SampleIsProduct(4, offset, 3);
    SampleIsProduct(2, offset, 1);
    SampleIsProduct(2, offset + 1, 1);
  }

  // --- The page ----------------------------------------------------------

  /** The arguments of the document library's add_image_bytes: the pixel
      bytes, the optional alpha mask, the sample depth, the samples per pixel,
      the pixel size, the lower left corner and the size on the page (points),
      and the colour space. */
  datatype ImageBytes = ImageBytes(pixels: seq<bv8>, mask: Option<seq<bv8>>,
                                   bitDepth: bv8, channels: nat, xSize: nat, ySize: nat,
                                   x: real, y: real, w: real, h: real,
                                   colorSpace: ColorSpace)

  /** What png_page hands to the document library: the media box (points) and
      the image placed on it. */
  datatype ImagePage = ImagePage(mediaBox: (real, real), image: ImageBytes)

  /** The dot densities (dots per millimetre) png_page derives from the pHYs
      chunk: a resolution in dots per metre is divided by a thousand, and any
      other unit falls back to 300 dots per inch on both axes. */
  function Density(unitType: int, resX: nat, resY: nat): (d: (real, real))
    ensures unitType == ResolutionMeter ==> d.0 * 1000.0 == resX as real && d.1 * 1000.0 == resY as real
    ensures unitType != ResolutionMeter ==> d == (PerMillimetre(300), PerMillimetre(300))
    ensures d.0 >= 0.0 && d.1 >= 0.0
  {
    if unitType == ResolutionMeter then
      (resX as real / 1000.0, resY as real / 1000.0)
    else
      (300.0 / 25.4, 300.0 / 25.4)
  }

  /** The header and the request leave png_page no division by zero when it
      completes the size: the densities it divides by are positive, and so is
      the pixel size it derives a missing side from. */
  predicate SizeDefined(header: PngHeader, imgX: real, imgY: real)
  {
    (imgX == Unspecified && imgY == Unspecified && header.unitType == ResolutionMeter ==>
       header.resX > 0 && header.resY > 0) &&
    (imgX == Unspecified && imgY != Unspecified ==> header.ySize > 0) &&
    (imgX != Unspecified ==> header.xSize > 0)
  }

  /** The size (millimetres) png_page computes before shrinking: the
      requested size completed from the pixel size and the pHYs densities. */
  function ResolvedPngSize(header: PngHeader, imgX: real, imgY: real): (real, real)
    requires SizeDefined(header, imgX, imgY)
  {
    var d := Density(header.unitType, header.resX, header.resY);
    ResolveSize(header.xSize, header.ySize, d.0, d.1, imgX, imgY)
  }

  /** The optional shrink of png_page: scaled down by shrink_factor when
      shrinking is asked for, unchanged otherwise. */
  function ShrinkIf(x: real, y: real, pageX: real, pageY: real, shrink: bool): (real, real)
    requires shrink ==> pageX > 0.0 && pageY > 0.0
  {
    if shrink then
      var f := ShrinkFactor(x, y, pageX, pageY);
      (x * f, y * f)
    else
      (x, y)
  }

  /** The size (millimetres) png_page gives the image. */
  function PngSize(header: PngHeader, pageX: real, pageY: real, imgX: real, imgY: real,
                   shrink: bool): (real, real)
    requires SizeDefined(header, imgX, imgY)
    requires shrink ==> pageX > 0.0 && pageY > 0.0
  {
    var s := ResolvedPngSize(header, imgX, imgY);
    ShrinkIf(s.0, s.1, pageX, pageY, shrink)
  }

  /** The shrink block of png_page, which repeats the steps of shrink. */
  method ShrinkStep(x0: real, y0: real, pageX: real, pageY: real, shrink: bool)
    returns (x: real, y: real)
    requires shrink ==> pageX > 0.0 && pageY > 0.0
    ensures (x, y) == ShrinkIf(x0, y0, pageX, pageY, shrink)
    ensures shrink ==> x <= pageX && y <= pageY
  {
    x, y := x0, y0;
    if shrink {
      x, y := Shrink(x, y, pageX, pageY);
    }
  }

  /** The size computation of png_page: the densities from the pHYs chunk,
      the missing sides completed from the pixel size, and the optional
      shrink. With shrink the result fits the page. */
  method PngImageSize(header: PngHeader, pageX: real, pageY: real, imgX: real, imgY: real,
                      shrink: bool)
    returns (x: real, y: real)
    requires SizeDefined(header, imgX, imgY)
    requires shrink ==> pageX > 0.0 && pageY > 0.0
    ensures (x, y) == PngSize(header, pageX, pageY, imgX, imgY, shrink)
    ensures shrink ==> x <= pageX && y <= pageY
  {
    var density := Density(header.unitType, header.resX, header.resY);
    x, y := imgX, imgY;
    if x == Unspecified && y == Unspecified {
      x := header.xSize as real / density.0;
      y := header.ySize as real / density.1;
    } else if x == Unspecified {
      x := header.xSize as real * y / header.ySize as real;
    } else {
      y := header.ySize as real * x / header.xSize as real;
    }
    assert x == ResolvedPngSize(header, imgX, imgY).0 && y == ResolvedPngSize(header, imgX, imgY).1;
    x, y := ShrinkStep(x, y, pageX, pageY, shrink);
  }

  /** The pixel side of png_page: a palette image is expanded to 8-bit RGB,
      and an image with an alpha channel is split into its colour samples and
      an alpha mask, losing the alpha bit of its colour type and one sample per
      pixel. The colour space is decided on the colour type after that, so it
      is gray for gray images with or without alpha. */
  method PixelLayout(header: PngHeader, image: seq<bv8>)
    returns (pixels: seq<bv8>, mask: Option<seq<bv8>>, bitDepth: bv8, channels: nat,
             colorSpace: ColorSpace)
    requires header.colorType & ColorMaskAlpha != 0 ==>
               header.channels >= 2 &&
               header.channels * (header.ySize * header.xSize) <= |image|
    ensures colorSpace == DeviceGray <==>
              header.colorType == ColorTypeGray || header.colorType == ColorTypeGrayAlpha
    ensures header.colorType == ColorTypePalette ==>
              channels == 3 && bitDepth == 8 && pixels == image && mask == None
    ensures header.colorType & ColorMaskAlpha != 0 ==>
              channels == header.channels - 1 && bitDepth == header.bitDepth &&
              mask.Some? &&
              SplitOf(image, header.ySize * header.xSize, header.channels, pixels, mask.value)
    ensures header.colorType != ColorTypePalette && header.colorType & ColorMaskAlpha == 0 ==>
              channels == header.channels && bitDepth == header.bitDepth &&
              pixels == image && mask == None
  {
    var colorType := header.colorType;
    channels, bitDepth := header.channels, header.bitDepth;
    if colorType == ColorTypePalette {
      colorType := ColorTypeRgb;
      channels := 3;
      bitDepth := 8;
    }

    pixels, mask := image, None;
    if colorType & ColorMaskAlpha != 0 {
      pixels, mask := StripAlpha(image, header.xSize, header.ySize, channels);
      colorType := colorType - ColorMaskAlpha;
      channels := channels - 1;
    }
    GrayAfterStrip(header.colorType);

    colorSpace := if colorType == ColorTypeGray || colorType == ColorTypeGrayAlpha
                  then DeviceGray else DeviceRgb;
  }

  /** The alpha block of png_page: the pixel bytes are split, and the colour
      buffer takes the place of the pixel data. */
  method StripAlpha(image: seq<bv8>, xSize: nat, ySize: nat, channels: nat)
    returns (pixels: seq<bv8>, mask: Option<seq<bv8>>)
    requires channels >= 2 && channels * (ySize * xSize) <= |image|
    ensures mask.Some? && SplitOf(image, ySize * xSize, channels, pixels, mask.value)
  {
    var plain, alpha := SplitAlpha(image, xSize, ySize, channels);
    pixels, mask := plain[..], Some(alpha[..]);
  }

  /** The colour type the colour space is decided on: palette images have
      become RGB, and images with alpha have lost the alpha bit. Either way it
      is gray or gray-with-alpha exactly when the original type is. */
  lemma GrayAfterStrip(colorType: bv8)
    ensures colorType == ColorTypePalette ==>
              ColorTypeRgb & ColorMaskAlpha == 0 &&
              ColorTypeRgb != ColorTypeGray && ColorTypeRgb != ColorTypeGrayAlpha &&
              colorType != ColorTypeGray && colorType != ColorTypeGrayAlpha
    ensures colorType & ColorMaskAlpha != 0 ==>
              (colorType - ColorMaskAlpha == ColorTypeGray ||
               colorType - ColorMaskAlpha == ColorTypeGrayAlpha <==>
               colorType == ColorTypeGray || colorType == ColorTypeGrayAlpha)
  {
  }

  /** empdfer::png_page, after libpng has read the header and the pixel rows
      (both are parameters). The requested size is completed from the pHYs
      resolution and optionally shrunk to the page, the image is centered, and
      its samples are laid out as PixelLayout describes. */
  method PngPage(header: PngHeader, image: seq<bv8>,
                 pageX: real, pageY: real, imgX: real, imgY: real, shrink: bool)
    returns (page: ImagePage)
    requires SizeDefined(header, imgX, imgY)
    requires shrink ==> pageX > 0.0 && pageY > 0.0
    requires header.colorType & ColorMaskAlpha != 0 ==>
               header.channels >= 2 &&
               header.channels * (header.ySize * header.xSize) <= |image|
    ensures var size := PngSize(header, pageX, pageY, imgX, imgY, shrink);
            page.image.w == Milimeters(size.0) && page.image.h == Milimeters(size.1)
    ensures page.mediaBox == (Milimeters(pageX), Milimeters(pageY))
    ensures 2.0 * page.image.x + page.image.w == page.mediaBox.0
    ensures 2.0 * page.image.y + page.image.h == page.mediaBox.1
    ensures shrink ==> page.image.x >= 0.0 && page.image.y >= 0.0
    ensures page.image.xSize == header.xSize && page.image.ySize == header.ySize
    ensures page.image.colorSpace == DeviceGray <==>
              header.colorType == ColorTypeGray || header.colorType == ColorTypeGrayAlpha
    ensures header.colorType == ColorTypePalette ==>
              page.image.channels == 3 && page.image.bitDepth == 8 &&
              page.image.pixels == image && page.image.mask == None
    ensures header.colorType & ColorMaskAlpha != 0 ==>
              page.image.channels == header.channels - 1 && page.image.bitDepth == header.bitDepth &&
              page.image.mask.Some? &&
              SplitOf(image, header.ySize * header.xSize, header.channels,
                      page.image.pixels, page.image.mask.value)
    ensures header.colorType != ColorTypePalette && header.colorType & ColorMaskAlpha == 0 ==>
              page.image.channels == header.channels && page.image.bitDepth == header.bitDepth &&
              page.image.pixels == image && page.image.mask == None
  {
    var x, y := PngImageSize(header, pageX, pageY, imgX, imgY, shrink);

    var marginX := (pageX - x) / 2.0;
    var marginY := (pageY - y) / 2.0;

    var pixels, mask, bitDepth, channels, colorSpace := PixelLayout(header, image);
    page := ImagePage((Milimeters(pageX), Milimeters(pageY)),
                      ImageBytes(pixels, mask, bitDepth, channels, header.xSize, header.ySize,
                                 Milimeters(marginX), Milimeters(marginY),
                                 Milimeters(x), Milimeters(y), colorSpace));
  }
}
