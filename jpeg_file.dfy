/** jpeg_file.cpp: a page holding one JPEG, placed by the rotation matrix. */
module JpegFile {
  import opened Common
  import opened Matrix

  /** The arguments of the document library's add_jpeg_image in its matrix
      form: the file to embed, its pixel size, the six entries of the affine
      map from the unit square to the page, and the colour space. */
  datatype MatrixJpeg = MatrixJpeg(file: string, widthPx: nat, heightPx: nat,
                                   matrix: seq<real>, colorSpace: ColorSpace)

  /** What jpeg_page hands to the document library: the media box (points)
      and the image placed on it. */
  datatype RotatedPage = RotatedPage(mediaBox: (real, real), image: MatrixJpeg)

  /** The file jpeg_page embeds: the input itself, or the recompressed copy,
      whose name begins with temp_dir + "/". */
  function EmbeddedFile(tempDir: string, inputFile: string, quality: int): (file: string)
    ensures quality == -1 ==> file == inputFile
    ensures quality != -1 ==> file == CompressedName(tempDir + "/" + inputFile, quality)
    ensures quality != -1 ==> |file| > |tempDir| && file[..|tempDir| + 1] == tempDir + "/"
  {
    if quality == -1 then
      inputFile
    else
      var base := tempDir + "/" + inputFile;
      var file := CompressedName(base, quality);
      assert file[..|tempDir| + 1] == base[..|tempDir| + 1];
      file
  }

  /** Two different qualities never share a recompressed copy. */
  lemma EmbeddedFileDistinct(tempDir: string, inputFile: string, q1: int, q2: int)
    requires q1 != -1 && q2 != -1
    ensures EmbeddedFile(tempDir, inputFile, q1) == EmbeddedFile(tempDir, inputFile, q2) <==> q1 == q2
  {
    CompressedNameDistinct(tempDir + "/" + inputFile, q1, q2);
  }

  /** The physical size jpeg_page uses, from the header and the request. */
  function JpegSize(header: JpegHeader, imgX: real, imgY: real): (real, real)
    requires imgX == Unspecified && imgY == Unspecified ==> header.xDensity > 0 && header.yDensity > 0
    requires imgX == Unspecified && imgY != Unspecified ==> header.imageHeight > 0
    requires imgX != Unspecified ==> header.imageWidth > 0
  {
    ResolveSize(header.imageWidth, header.imageHeight,
                PerMillimetre(header.xDensity), PerMillimetre(header.yDensity), imgX, imgY)
  }

  /** empdfer::jpeg_page, after libjpeg has read the header. The requested size
      is completed from the header (a given width always decides the height),
      fill_matrix turns it into the matrix that rotates, optionally shrinks and
      centers the image, and either the input or its recompressed copy is
      embedded. The header, the temporary directory and the cosine and sine of
      the rotation are parameters. */
  method JpegPage(header: JpegHeader, inputFile: string, tempDir: string,
                  pageX: real, pageY: real, imgX: real, imgY: real, quality: int,
                  rotation: real, cosR: real, sinR: real, shrink: bool)
    returns (page: RotatedPage)
    requires imgX == Unspecified && imgY == Unspecified ==> header.xDensity > 0 && header.yDensity > 0
    requires imgX == Unspecified && imgY != Unspecified ==> header.imageHeight > 0
    requires imgX != Unspecified ==> header.imageWidth > 0
    requires shrink ==> pageX > 0.0 && pageY > 0.0
    ensures var size := JpegSize(header, imgX, imgY);
            page.image.matrix == Place(size.0, size.1, pageX, pageY, rotation, cosR, sinR, shrink).Entries()
    ensures page.mediaBox == (Milimeters(pageX), Milimeters(pageY))
    ensures page.image.widthPx == header.imageWidth && page.image.heightPx == header.imageHeight
    ensures page.image.file == EmbeddedFile(tempDir, inputFile, quality)
    ensures page.image.colorSpace == DeviceGray <==> header.jpegColorSpace == JcsGrayscale
  {
    var x, y := imgX, imgY;
    if x == Unspecified && y == Unspecified {
      var xDensity := PerMillimetre(header.xDensity);
      var yDensity := PerMillimetre(header.yDensity);
      x := header.imageWidth as real / xDensity;
      y := header.imageHeight as real / yDensity;
    } else if x == Unspecified {
      x := header.imageWidth as real * y / header.imageHeight as real;
    } else {
      y := header.imageHeight as real * x / header.imageWidth as real;
    }
    assert x == JpegSize(header, imgX, imgY).0 && y == JpegSize(header, imgX, imgY).1;

    var mediaBox := (Milimeters(pageX), Milimeters(pageY));

    var matrix23 := new real[6];
    FillMatrix(matrix23, x, y, pageX, pageY, rotation, cosR, sinR, shrink);

    var file;
    if quality == -1 {
      file := inputFile;
    } else {
      file := CompressedName(tempDir + "/" + inputFile, quality);
    }
    page := RotatedPage(mediaBox, MatrixJpeg(file, header.imageWidth, header.imageHeight,
                                             matrix23[..], JpegColorSpace(header.jpegColorSpace)));
  }

  /** The rotated JPEG is centered on the page: when the cosine and sine have
      the signs of the quadrant of the normalised rotation, the image's
      bounding box has equal margins on each axis. */
  lemma JpegPageCentered(header: JpegHeader, pageX: real, pageY: real, imgX: real, imgY: real,
                         rotation: real, cosR: real, sinR: real, shrink: bool)
    requires imgX == Unspecified && imgY == Unspecified ==> header.xDensity > 0 && header.yDensity > 0
    requires imgX == Unspecified && imgY != Unspecified ==> header.imageHeight > 0 && imgY >= 0.0
    requires imgX != Unspecified ==> header.imageWidth > 0 && imgX >= 0.0
    requires shrink ==> pageX > 0.0 && pageY > 0.0
    requires SignsMatch(QuadrantOf(NormalizeAngle(rotation)), cosR, sinR)
    ensures var size := JpegSize(header, imgX, imgY);
            var m := Place(size.0, size.1, pageX, pageY, rotation, cosR, sinR, shrink);
            var box := FitRotated(size.0, size.1, pageX, pageY, cosR, sinR, shrink).proj;
            m.MinX() == Milimeters(pageX) - m.MaxX() &&
            m.MinY() == Milimeters(pageY) - m.MaxY() &&
            m.MaxX() - m.MinX() == Milimeters(box.Width()) &&
            m.MaxY() - m.MinY() == Milimeters(box.Height())
  {
    var size := JpegSize(header, imgX, imgY);
    ResolveNonNegative(header.imageWidth, header.imageHeight,
                       PerMillimetre(header.xDensity), PerMillimetre(header.yDensity), imgX, imgY);
    PlaceCentered(size.0, size.1, pageX, pageY, rotation, cosR, sinR, shrink);
  }
}
