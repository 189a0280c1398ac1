# empdfer placement geometry in Dafny

empdfer turns JPEG and PNG files into the pages of a PDF, one image per page.
This project models the part of it that decides where an image goes on its
page and how it is embedded:

- **Angle normalisation.** `fill_matrix` brings the rotation into [0, 360).
- **Bounding box and shrink.** It projects the image onto the axes and can
  shrink the whole box by one factor, `shrink_factor`, so that it fits the
  page.
- **Centring.** It centres the box and writes the six entries of the affine
  map that places the image.
- **`shrink`.** The in-place two-step clamp of a width and a height.
- **The three page builders.** `create_page`, `jpeg_page` and `png_page` each:
  - complete the requested size from the pixel size and the image's density;
  - centre the image;
  - choose the colour space.

  `create_page` and `jpeg_page` also choose the file to embed: the input or
  its recompressed copy. `png_page` embeds no file; it hands the decoded
  pixel bytes, and an alpha mask when there is one, to the library.
- **The PNG pixel layout.** `png_page` promotes palette images to RGB. It
  splits an image with alpha into a colour buffer and an alpha mask, one
  pixel at a time.
- **`file_type`.** Tells the two formats apart by a case-insensitive
  extension.

There is one module per source file, plus two shared modules. `Common` holds
the millimetre-to-point conversion, the `-1` "unspecified" sentinel, the size
resolution the three builders share, and `std::to_string`. `RealFacts` holds
small facts about real multiplication and division.

The code is imperative, and the model keeps that shape:

- `shrink`, `fill_matrix`, the size chains of the builders and the
  de-interleave loop are methods.
- `fill_matrix` writes a caller's six-entry array.
- The de-interleave writes two freshly allocated arrays in nested row,
  column and sample loops.

Each method is proved against a function that specifies it (`ShrinkFactor`,
`Place`, `ResolveSize`, `PngSize`, `SplitOf`). The properties the source and
its comments promise are lemmas about those functions. For example:

- the rotated image is centred on the page;
- the shrink factor is the largest that fits;
- shrinking keeps the aspect ratio and never enlarges;
- the alpha split loses nothing;
- the extension test ignores case.

All lengths are `real`. The source computes in `double`; the properties
here are stated for exact arithmetic, and rounding is listed under
"## Left out".

## Model

| member | source | states |
|---|---|---|
| Matrix.WidthFactor | matrix.cpp:29-32 | the first factor is in (0, 1], makes the width fit, and is 1 when the width already fits |
| Matrix.HeightStep | matrix.cpp:34-35 | when the height still overflows, page_y / img_y is positive, below the first factor, makes the height fit and keeps the width fitting |
| Matrix.ShrinkFactor | matrix.cpp:26-38 | the factor is in (0, 1], is exactly 1 when the box fits, and the scaled box fits the page |
| Matrix.ShrinkFactorIsMin | matrix.cpp:26-38 | for a box of positive size the factor equals min(1, page_x / img_x, page_y / img_y) |
| Matrix.ShrinkFactorIsLargest | matrix.cpp:26-38 | every factor g <= 1 that makes the box fit is at most the returned factor |
| Matrix.ShrinkFactorIdempotent | matrix.cpp:26-38 | the factor of the already-shrunk box is 1, so shrinking twice changes nothing |
| Matrix.Trunc | matrix.cpp:47 | C's truncation toward zero: the integer part lies within one of x, on x's side of zero |
| Matrix.FMod | matrix.cpp:47 | C fmod by a positive divisor: the remainder has x's sign, is smaller than the divisor in size, and x minus it is a truncated multiple of the divisor |
| Matrix.NormalizeAngle | matrix.cpp:47-49 | r_normalized lies in [0, 360) and differs from the rotation by a whole number of turns |
| Matrix.NormalizeAngleUnique | matrix.cpp:47-49 | the normalised angle is the only angle of [0, 360) that differs from the rotation by whole turns |
| Matrix.NormalizeAnglePeriodic | matrix.cpp:47-49 | adding k full turns to the rotation leaves r_normalized unchanged |
| Matrix.ProjectScale | matrix.cpp:56-70 | scaling the image by f >= 0 scales each of the four projected lengths by f |
| Matrix.Project | matrix.cpp:56-59 | the four projected lengths lxx, lyx, lxy, lyy are absolute values of the products of cos and sin with the sides, so none is negative |
| Matrix.ScaleOf | matrix.cpp:63-70 | proof helper: scaling projections given by their four lengths scales each length |
| Matrix.ShrunkOf | matrix.cpp:63-70 | proof helper: the shrunk fit of projections given by their four lengths, written out |
| Matrix.ScaleDown | matrix.cpp:61-71 | proof helper: a factor in (0, 1] never enlarges a non-negative length and keeps it non-negative |
| Matrix.FitRotated | matrix.cpp:56-71 | definition, without a contract of its own: the image's projections, and with shrink the image and its projections scaled by shrink_factor of the bounding box; FitRotatedKeeps and ShrunkBoxFits state its properties |
| Matrix.Shrunk | matrix.cpp:65-70 | definition, without a contract of its own: the six `*= factor` of the shrink branch, the image size and the four lengths scaled by one factor; ScaledKeeps and ShrunkBoxFits state its properties |
| Matrix.ShrunkIs | matrix.cpp:63-70 | proof helper: unfolds the shrunk fit into the scaled size and scaled projections |
| Matrix.ScaleBox | matrix.cpp:63-70 | proof helper: scaling the projections scales the bounding box's width and height by the same factor |
| Matrix.FitRotatedShrunk | matrix.cpp:61-71 | proof helper: with shrink, FitRotated is the shrunk fit for the image's projections and their shrink factor |
| Matrix.FitRotatedKeeps | matrix.cpp:56-71 | after the optional shrink: the lengths are the projections of the kept size; with shrink the box fits the page; without it, or when the box already fits, the size is unchanged; the size never grows |
| Matrix.ShrunkKeeps | matrix.cpp:61-71 | the shrink branch of FitRotatedKeeps |
| Matrix.ScaledKeeps | matrix.cpp:61-71 | the image and its four lengths scaled by shrink_factor keep the lengths consistent, fit the page and never grow |
| Matrix.ShrunkBoxFits | matrix.cpp:63-68 | with shrink, lxx + lyx <= page_x and lxy + lyy <= page_y after scaling |
| Matrix.QuadrantUpperClosed | matrix.cpp:77-94 | 0 and 90 take the first branch, 180 the second, 270 the third, and all of (270, 360) the last |
| Matrix.QuadrantOf | matrix.cpp:77-94 | definition, without a contract of its own: the branch of the quadrant chain an angle takes, each upper bound inclusive; QuadrantUpperClosed states its boundary cases |
| Matrix.Margins | matrix.cpp:73-94 | definition, without a contract of its own: the margins (page - box) / 2 that centre the unrotated box, plus the offset of the pivot corner for the quadrant; PivotMargins and CenteredCore state its properties |
| Matrix.MatrixFor | matrix.cpp:96-101 | definition, without a contract of its own: the six entries built from the size, cos, sin and the margins; MatrixForProducts restates them as millimetre products |
| Matrix.MatrixForProducts | matrix.cpp:96-101 | proof helper: each entry of MatrixFor is MILIMETERS of a product, since MILIMETERS is a multiplication |
| Matrix.CornerExtents | matrix.cpp:96-101 | proof helper: the extreme x and y of the four corners of the placed unit square, from the translation and the signs of the column vectors |
| Matrix.CenteredCore | matrix.cpp:73-101 | when the entries have the signs of the quadrant, the corners span exactly from (page - box) / 2 to (page + box) / 2 on each axis |
| Matrix.CenteredFit | matrix.cpp:73-101 | the centring argument for the matrix built from a fit with non-negative size and consistent lengths |
| Matrix.FitSignsAndLengths | matrix.cpp:56-59 | the four products of a non-negative size with cos and sin have the quadrant's signs, and their absolute values are the lengths |
| Matrix.FitEntries | matrix.cpp:96-101 | proof helper: the six matrix entries written as millimetre products of the size, cos, sin and the margins |
| Matrix.Place | matrix.cpp:41-101 | definition, without a contract of its own: the matrix fill_matrix writes, MatrixFor of the fit and of the quadrant margins of the normalised angle; FillMatrix, PlaceCentered, PlaceUnrotated and NormalizedRotation state its properties |
| Matrix.PlaceUnfolded | matrix.cpp:41-101 | proof helper: Place unfolded into MatrixFor of the fit and the margins |
| Matrix.PlaceCentered | matrix.cpp:45-101 | the image is centred, as the comment at lines 45-46 claims: when cos and sin have the signs of the quadrant, its corners span the (possibly shrunk) box with equal margins on both sides of each axis |
| Matrix.PlaceUnrotated | matrix.cpp:77-101 | with cos 1, sin 0 and a whole number of turns, the matrix is [K w, 0, 0, K h, K (page_x - w) / 2, K (page_y - h) / 2], with (w, h) the optionally shrunk size |
| Matrix.UnrotatedFit | matrix.cpp:56-71 | without rotation the bounding box is the image, so the fit is the image scaled by its own shrink factor |
| Matrix.PlaceFor | matrix.cpp:96-101 | proof helper: the placement matrix is MatrixFor of the fit and the margins |
| Matrix.NormalizedRotation | matrix.cpp:47-49 | the method's result is NormalizeAngle of the rotation |
| Matrix.ProjectAndShrink | matrix.cpp:56-71 | the four lengths and the size after the optional in-place shrink are the image's fit (FitRotated) |
| Matrix.PivotMargins | matrix.cpp:74-94 | the margins after the quadrant adjustment are Margins of the lengths for the quadrant of r_normalized |
| Matrix.FillMatrix | matrix.cpp:41-104 | the six entries written into matrix23 are those of Place |
| AdjustSize.Shrink | adjust_size.cpp:20-36 | the width and height after the two clamps are the old ones times shrink_factor(old_x, old_y, page_x, page_y) |
| AdjustSize.WidthClamp | adjust_size.cpp:23-27 | the width clamp scales both sides by the width factor |
| AdjustSize.HeightClamp | adjust_size.cpp:29-33 | the height clamp, applied after the width clamp, leaves the box scaled by shrink_factor |
| AdjustSize.RatioCancel | adjust_size.cpp:31 | proof helper: the height step's factor on the already-scaled box yields the unscaled box times page_y / img_y |
| AdjustSize.ShrunkSize | adjust_size.cpp:23-33 | the shrunk size: fits the page; keeps the aspect ratio (new_x * old_y == new_y * old_x); does not grow; is unchanged when it already fitted; shrinking it again is the identity |
| Common.JpegColorSpace | create_page.cpp:92-93 | the colour space is DeviceGray exactly when the JPEG colour space is JCS_GRAYSCALE |
| Common.Milimeters | matrix.cpp:96-101 | definition, without a contract of its own: the MILIMETERS macro, millimetres times 72 / 25.4 points; MilimetersProduct and the matrix lemmas use it |
| Common.PerMillimetre | jpeg_file.cpp:143-144 | definition, without a contract of its own: a density in dots per inch divided by 25.4, as X_density / 25.4 at jpeg_file.cpp:143-144 and create_page.cpp:60-61 and 300. / 25.4 at png_file.cpp:128 |
| Common.ResolveKeepsRequested | png_file.cpp:132-143 | a given width is kept; a given height is kept when no width was given |
| Common.ResolveIgnoresHeightWhenWidthGiven | png_file.cpp:142-143 | when a width is given the result does not depend on the height the caller gave |
| Common.ResolveKeepsAspect | png_file.cpp:132-143 | the resolved size has the pixel aspect ratio whenever a side was given, or when both come from equal densities |
| Common.ResolvePositive | png_file.cpp:132-143 | positive requests, pixel sizes and densities give a positive size |
| Common.ResolveNonNegative | png_file.cpp:132-143 | non-negative requests and positive densities give a non-negative size |
| Common.ResolveSize | png_file.cpp:132-143 | definition, without a contract of its own: the size chain png_page, jpeg_page (jpeg_file.cpp:139-154) and create_page (create_page.cpp:57-71) share: both sides from the densities when neither is given, the width from the height when only the height is given, otherwise the height from the width; the Resolve lemmas state its properties |
| Common.DigitChar | create_page.cpp:97 | a digit below ten is written as a character between '0' and '9' |
| Common.NatToString | create_page.cpp:97 | std::to_string of a natural number is a non-empty run of digits without a leading zero |
| Common.NatToStringRoundTrip | create_page.cpp:97 | the digits std::to_string writes read back as the number |
| Common.IntToStringDigits | create_page.cpp:97 | std::to_string of an int is an optional minus sign followed by digits |
| Common.IntToString | create_page.cpp:97 | definition, without a contract of its own: std::to_string of an int, a minus sign before the digits of a negative value; IntToStringDigits and IntToStringRoundTrip state its properties |
| Common.IntToStringRoundTrip | create_page.cpp:97 | parsing std::to_string of an int gives back the int |
| Common.CompressedNameDistinct | create_page.cpp:97 | the recompressed copy's name differs from its base and determines the quality |
| Common.CompressedName | create_page.cpp:97 | definition, without a contract of its own: base + "_compressed_" + std::to_string(quality); CompressedNameDistinct states its properties |
| CreatePage.EmbeddedFile | create_page.cpp:84-97 | quality -1 embeds the input file; any other quality embeds input + "_compressed_" + quality, which is never the input's name |
| CreatePage.EmbeddedFileDistinct | create_page.cpp:97 | two qualities give the same copy name exactly when they are equal |
| CreatePage.CreatePage | create_page.cpp:28-112 | the page: media box is the page size in points; image size is ResolveSize with densities of X_density / 25.4 (height from width whenever the width is given); 2 margin + size == page on each axis; pixel size is the header's; embedded file and colour space as above |
| JpegFile.EmbeddedFile | jpeg_file.cpp:164-187 | quality -1 embeds the input file; any other quality embeds temp_dir + "/" + input + "_compressed_" + quality, whose name begins with temp_dir + "/" |
| JpegFile.EmbeddedFileDistinct | jpeg_file.cpp:176-178 | two qualities give the same copy name exactly when they are equal |
| JpegFile.JpegPage | jpeg_file.cpp:110-190 | the page: the matrix is fill_matrix's (Place) for the resolved size, page, rotation and shrink; media box, pixel size, embedded file and colour space (gray iff JCS_GRAYSCALE) as the source sets them |
| JpegFile.JpegSize | jpeg_file.cpp:139-154 | definition, without a contract of its own: ResolveSize with the header's pixel size and X_density / 25.4, Y_density / 25.4 dots per mm; JpegPage and JpegPageCentered use it |
| JpegFile.JpegPageCentered | jpeg_file.cpp:140-162 | for a non-negative request and cos, sin with the quadrant's signs, the rotated JPEG has equal margins on each axis and spans its bounding box |
| FileTypes.SizeSub | file_type.cpp:27 | size_t subtraction: the difference when it is non-negative, otherwise wrapped around 2^64 |
| FileTypes.Find | file_type.cpp:27 | std::string::find: npos, or the first position at or after pos where t occurs; nothing occurs before it |
| FileTypes.EndsIn | file_type.cpp:25-28 | ends_in(s, t) holds exactly when t is a suffix of s, including false when t is longer than s |
| FileTypes.LowerChar | file_type.cpp:37-38 | tolower in the C locale: A-Z move up by 32, everything else is kept, and no upper-case letter remains |
| FileTypes.Lower | file_type.cpp:37-38 | tolower applied to every character: the result has the same length and no upper-case letter |
| FileTypes.ClassifyBySuffix | file_type.cpp:40-44 | JPEG exactly for names ending in .jpg or .jpeg, PNG exactly for .png, UNKNOWN for everything else |
| FileTypes.Classify | file_type.cpp:40-44 | definition, without a contract of its own: the ending tests in the source's order, .jpg or .jpeg first, then .png; ClassifyBySuffix states what it means |
| FileTypes.LowerAppend | file_type.cpp:37-38 | lower-casing commutes with concatenation |
| FileTypes.LowerIdempotent | file_type.cpp:37-38 | lower-casing twice is lower-casing once |
| FileTypes.FileTypeOf | file_type.cpp:31-45 | the corrected file_type of the file_type.cpp:37-38 finding below, equal to the source when the path has no folder: the type is the classification of the lower-cased final path component, lower-cased in place in its own buffer |
| FileTypes.FinalComponent | file_type.cpp:34 | definition, without a contract of its own: what `path::filename()` is taken to give, a suffix of the path without '/' that is the whole path or follows its last '/' |
| FileTypes.ExtensionIgnoresCase | file_type.cpp:37-44 | an extension that lower-cases to .jpg, .jpeg or .png gives its type, whatever its case and whatever the stem |
| FileTypes.TransformedName | file_type.cpp:37-38 | the name's characters after the transform as written are the first name-length characters of the lower-cased full path |
| FileTypes.FileTypeAsWritten | file_type.cpp:31-45 | definition, without a contract of its own: file_type as written, the classification of the written-over name TransformedName gives; FolderPathMisclassified shows where it goes wrong |
| FileTypes.FolderPathMisclassified | file_type.cpp:34-44 | as written, d/x.png is classified UNKNOWN, while its lower-cased file name x.png is a PNG |
| PngFile.MaskIndex | png_file.cpp:195 | the alpha sample of pixel offset is the last of its samples: index / channels == offset and index % channels == channels - 1 |
| PngFile.ColourIndex | png_file.cpp:192-193 | definition, without a contract of its own: color_channels * offset + comp, where colour sample comp of pixel offset goes in the colour buffer; SplitOf and PlainStep use it |
| PngFile.AsWrittenMaskIndex | png_file.cpp:195 | definition, without a contract of its own: the source's alpha index channels * offset + 3; AsWrittenMaskIndexWrongForGrayAlpha shows where it goes wrong |
| PngFile.SplitOf | png_file.cpp:188-196 | reference, a predicate: plain holds the colour samples of each of the first n pixels in turn and mask the alpha sample of each, with the lengths (channels - 1) n and n |
| PngFile.Interleave | png_file.cpp:188-196 | reference for the inverse: the channels * n pixel bytes rebuilt from a colour buffer and a mask |
| PngFile.SplitRoundTrip | png_file.cpp:188-196 | interleaving the colour buffer and the mask again gives back the first channels * n pixel bytes |
| PngFile.DoneIsSplit | png_file.cpp:188-196 | once every pixel's colour and alpha samples are in place, the buffers are the split |
| PngFile.PlainStep | png_file.cpp:192-194 | copying colour sample comp of pixel offset keeps every earlier sample in place |
| PngFile.PlainNextPixel | png_file.cpp:192-194 | once all colour samples of a pixel are in place, the next pixel starts |
| PngFile.MaskStep | png_file.cpp:195 | copying the alpha sample of pixel offset keeps every earlier alpha sample in place |
| PngFile.CopyPixel | png_file.cpp:191-195 | the comp loop and the alpha copy put pixel offset in place in both buffers |
| PngFile.CopyRow | png_file.cpp:189-196 | the column loop puts the row's x_size pixels in place |
| PngFile.CopyRows | png_file.cpp:188-196 | the row loop puts all y_size rows in place |
| PngFile.RowEnd | png_file.cpp:191 | row * x_size + x_size is where the next row starts, and it stays within the image |
| PngFile.SplitAlpha | png_file.cpp:178-205 | the fresh buffers are the split: plain[(channels-1) o + k] == image[channels o + k] for every pixel o and colour sample k; mask[o] is pixel o's alpha sample. The split uses the corrected alpha index of the png_file.cpp:195 finding below: the last sample of each pixel, which is the source's index for RGB with alpha and differs from it for gray with alpha |
| PngFile.AsWrittenMaskIndexWrongForGrayAlpha | png_file.cpp:195 | the source's index channels * offset + 3 is the alpha sample for RGB with alpha. For gray with alpha it is the next pixel's alpha, and for the last pixel it lies past the data |
| PngFile.Density | png_file.cpp:119-129 | with the metre unit the densities are res / 1000 dots per mm; for any other unit both are 300 / 25.4 |
| PngFile.ShrinkStep | png_file.cpp:146-159 | with shrink the size is scaled by shrink_factor and fits the page; without it the size is untouched |
| PngFile.ResolvedPngSize | png_file.cpp:119-143 | definition, without a contract of its own: ResolveSize with the densities Density computes from pHYs; the Resolve lemmas state its properties |
| PngFile.ShrinkIf | png_file.cpp:146-159 | definition, without a contract of its own: the size scaled by shrink_factor when shrinking is asked for, unchanged otherwise; ShrinkStep ties it to the inline clamps |
| PngFile.PngSize | png_file.cpp:119-159 | definition, without a contract of its own: ShrinkIf of ResolvedPngSize; PngImageSize computes it and states that it fits the page under shrink |
| PngFile.PngImageSize | png_file.cpp:119-159 | the size is PngSize: ResolveSize with the pHYs densities, then the optional shrink; with shrink it fits the page |
| PngFile.StripAlpha | png_file.cpp:178-205 | the alpha block yields a mask and a colour buffer that are the split of the pixel bytes. The split uses the corrected alpha index of the png_file.cpp:195 finding below: the last sample of each pixel, which is the source's index for RGB with alpha and differs from it for gray with alpha |
| PngFile.GrayAfterStrip | png_file.cpp:203 | after the alpha bit is removed, the colour type is GRAY or GRAY_ALPHA exactly when it was before; a palette image, promoted to RGB, is neither |
| PngFile.PixelLayout | png_file.cpp:84-234 | a palette image is promoted to 3 channels of depth 8. An alpha image loses one channel, keeps its depth and gets the split of its pixels as colour samples and mask. Any other image is passed on unchanged. The colour space is gray exactly for GRAY and GRAY_ALPHA. The split uses the corrected alpha index of the png_file.cpp:195 finding below: the last sample of each pixel, which is the source's index for RGB with alpha and differs from it for gray with alpha |
| PngFile.PngPage | png_file.cpp:31-238 | the page: size in points is PngSize; media box is the page; 2 margin + size == page on each axis, with non-negative margins under shrink; pixel size and layout as PixelLayout states. The split uses the corrected alpha index of the png_file.cpp:195 finding below: the last sample of each pixel, which is the source's index for RGB with alpha and differs from it for gray with alpha |

## Left out

- File and library I/O:
  - opening files, libjpeg header reading and recompression, libpng decoding, and every call into the PDF library are not modelled;
  - the headers and pixel bytes they produce are parameters;
  - the record of what is handed to the library is a returned datatype.
- The debug line `create_page` writes to `std::cerr` (create_page.cpp:81-82) is not modelled. Neither is any other message to the standard streams.
- Writing the recompressed copy (`recompress_jpeg`, `create_jpeg`) is not modelled. Only the copy's name is.
- `MILIMETERS` belongs to the PDF library. It is taken as multiplication by 72 / 25.4, a positive constant.
- `std::cos`, `std::sin` and `std::acos(-1)` are not computed:
  - the cosine and sine of the rotation are parameters;
  - the centring lemmas require their signs to match the quadrant of the normalised angle.
- Floating-point rounding is not modelled. All arithmetic is exact over `real`. In `double` the results can differ: a rotation of -1e-14 normalises to 360.0, outside the [0, 360) that `Matrix.NormalizeAngle` proves for exact arithmetic.
- `std::filesystem::temp_directory_path` and `path::filename` are not modelled. Their results are given strings: `FileTypeOf` receives the path and its final component.
- empdfer.cpp (command-line parsing, output), jpeg.cpp, version.cpp and the headers are not part of this model.
- Division by zero is excluded by preconditions, because the source never checks for it:
  - zero pixel sizes;
  - zero densities (`SizeDefined` for PNG);
  - negative page sizes when shrinking, since a divisor in `shrink_factor` and `shrink` is an image side larger than a page side, which can be zero only when that page side is negative.
- Zero page sizes when shrinking are excluded by the same preconditions, though they divide by nothing. The source's factor would be 0 (`0 / img_x`), outside the (0, 1] that `Matrix.ShrinkFactor` states.
- The JPEG density is taken to be in dots per inch, as the source assumes. The density unit stored in the JPEG header is not read.
- PNG buffers:
  - allocation sizes (with their `sizeof(png_bytep)` factors), 16-bit samples and the `unsigned` index arithmetic are not modelled;
  - samples are bytes and the pixel data is a sequence of at least channels * x_size * y_size bytes;
  - the de-interleave loop reads the pixel data as a read-only sequence;
  - the swap of the `plain` and `image` buffers is modelled by returning the colour buffer as the page's pixels.
- The samples per pixel (`png_byte channels`) are a natural number. The source subtracts one only from an image with alpha, which has at least two samples per pixel, so the byte never wraps.
- The `pHYs` resolution is taken as read. The source leaves it uninitialised when the chunk is absent.
- `png_page`'s `quality` parameter is unused by the source and is not a parameter here.
- `AdjustSize.Shrink`: the two sizes the source passes by address are an in-out pair of values. The case where both addresses name the same variable is not modelled.
- `PngFile.PngImageSize` and `PngFile.ShrinkStep`: `png_page` repeats the two clamps of `shrink` inline. The model calls `AdjustSize.Shrink` for them, which is the same sequence of steps.
- `PngFile.PixelLayout` collects the palette promotion (lines 85-91), the alpha split (178-205) and the colour-space test (232-234). The source interleaves them with the size computation, which neither reads nor writes them.
- `FileTypes.TransformedName`, `FileTypes.FileTypeAsWritten`: strings are sequences of characters, not of bytes. The transform as written at file_type.cpp:37-38 writes all `path.size()` bytes of the lower-cased path from the start of `name`'s buffer. `name` keeps the first `name.size()` of them, and the model counts them in characters, which is exact only for ASCII paths. The bytes written past the end of `name`'s buffer are undefined behaviour, which the model does not capture. With a multi-byte character in the folder part the written name is cut at a different place.
- Size resolution follows the code: a given width always recomputes the height, even when a height was given too, so a `-y` given together with `-x` (empdfer.cpp:74-82) has no effect (`Common.ResolveIgnoresHeightWhenWidthGiven`).

## Findings

| source | as written | input that shows it | evidently intended | confidence | as-written member | corrected member |
|---|---|---|---|---|---|---|
| png_file.cpp:195 | the alpha sample of pixel offset is read at channels * offset + 3 | a gray image with alpha (channels 2): pixel 0's mask byte is read at index 3, which is pixel 1's alpha; for the last pixel the read lies past the pixel data | the last sample of the pixel, channels * offset + (channels - 1) | not executed | PngFile.AsWrittenMaskIndexWrongForGrayAlpha | PngFile.SplitAlpha |
| file_type.cpp:37-38 | the whole lower-cased path is written over the buffer of the file name (running past its end) | path d/x.png, file name x.png: the name becomes d/x.p and the file is UNKNOWN | lower-case the file name itself, so that d/x.png is a PNG | not executed | FileTypes.FolderPathMisclassified | FileTypes.FileTypeOf |
