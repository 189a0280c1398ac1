/** create_page.cpp: a page holding one JPEG, centered and not rotated. */
module CreatePage {
  import opened Common

  /** The arguments of the document library's add_jpeg_image in its
      position-and-size form: the file to embed, its pixel size, the lower
      left corner and the size on the page (points), and the colour space. */
  datatype PlacedJpeg = PlacedJpeg(file: string, widthPx: nat, heightPx: nat,
                                   x: real, y: real, w: real, h: real,
                                   colorSpace: ColorSpace)

  /** What create_page hands to the document library: the media box (points)
      and the image placed on it. */
  datatype JpegPage = JpegPage(mediaBox: (real, real), image: PlacedJpeg)

  /** The file create_page embeds: the input itself, or the recompressed copy
      written beside it when a quality was given. */
  function EmbeddedFile(inputFile: string, quality: int): (file: string)
    ensures quality == -1 ==> file == inputFile
    ensures quality != -1 ==> file == CompressedName(inputFile, quality) && file != inputFile
  {
    CompressedNameDistinct(inputFile, quality, quality);
    if quality == -1 then inputFile else CompressedName(inputFile, quality)
  }

  /** Two different qualities never share a recompressed copy. */
  lemma EmbeddedFileDistinct(inputFile: string, q1: int, q2: int)
    requires q1 != -1 && q2 != -1
    ensures EmbeddedFile(inputFile, q1) == EmbeddedFile(inputFile, q2) <==> q1 == q2
  {
    CompressedNameDistinct(inputFile, q1, q2);
  }

  /** empdfer::create_page, after libjpeg has read the header. The requested
      size is completed from the header (a given width always decides the
      height), the image is centered on the page, and either the input or its
      recompressed copy is embedded. Reading the header and writing the copy
      are not modelled: the header is a parameter. */
  method CreatePage(header: JpegHeader, inputFile: string,
                    pageX: real, pageY: real, imgX: real, imgY: real, quality: int)
    returns (page: JpegPage)
    requires imgX == Unspecified && imgY == Unspecified ==> header.xDensity > 0 && header.yDensity > 0
    requires imgX == Unspecified && imgY != Unspecified ==> header.imageHeight > 0
    requires imgX != Unspecified ==> header.imageWidth > 0
    ensures var size := ResolveSize(header.imageWidth, header.imageHeight,
                                    PerMillimetre(header.xDensity), PerMillimetre(header.yDensity),
                                    imgX, imgY);
            page.image.w == Milimeters(size.0) && page.image.h == Milimeters(size.1)
    ensures page.mediaBox == (Milimeters(pageX), Milimeters(pageY))
    ensures 2.0 * page.image.x + page.image.w == page.mediaBox.0
    ensures 2.0 * page.image.y + page.image.h == page.mediaBox.1
    ensures page.image.widthPx == header.imageWidth && page.image.heightPx == header.imageHeight
    ensures page.image.file == EmbeddedFile(inputFile, quality)
    ensures page.image.colorSpace == DeviceGray <==> header.jpegColorSpace == JcsGrayscale
  {
    var x, y := imgX, imgY;
    if x == Unspecified && y == Unspecified {
      var xDensity := PerMillimetre(header.xDensity);
      var yDensity := PerMillimetre(header.yDensity);
      x := header.imageWidth as real / xDensity;
      y := header.imageHeight as real / yDensity;
    } else if x == Unspecified {
      x := header.imageWidth as real * y / header.imageHeight as real;
    } else {
      y := header.imageHeight as real * x / header.imageWidth as real;
    }

    var marginX := (pageX - x) / 2.0;
    var marginY := (pageY - y) / 2.0;

    var file;
    if quality == -1 {
      file := inputFile;
    } else {
      file := CompressedName(inputFile, quality);
    }
    page := JpegPage((Milimeters(pageX), Milimeters(pageY)),
                     PlacedJpeg(file, header.imageWidth, header.imageHeight,
                                Milimeters(marginX), Milimeters(marginY),
                                Milimeters(x), Milimeters(y),
                                JpegColorSpace(header.jpegColorSpace)));
  }
}
