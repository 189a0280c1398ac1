/** Units, sentinels and small helpers shared by the three page builders
    (png_file.cpp, jpeg_file.cpp and create_page.cpp). */
module Common {

  /** MILIMETERS(mm): a length in millimetres expressed in points. The macro
      belongs to the document library; it multiplies by the conventional
      72/25.4 points per millimetre. */
  function Milimeters(mm: real): real
  {
    mm * 72.0 / 25.4
  }

  /** The value the command line stores for a size the user did not give. */
  const Unspecified: real := -1.0

  datatype Option<T> = None | Some(value: T)

  /** The colour space tag handed to the document library. */
  datatype ColorSpace = DeviceGray | DeviceRgb

  /** The fields of libjpeg's decompression header that the two JPEG page
      builders read: the pixel size, the densities (taken to be dots per inch)
      and the colour space code. */
  datatype JpegHeader = JpegHeader(imageWidth: nat, imageHeight: nat,
                                   xDensity: nat, yDensity: nat, jpegColorSpace: int)

  /** libjpeg's JCS_GRAYSCALE. */
  const JcsGrayscale: int := 1

  /** The colour space both JPEG page builders announce: gray for a grayscale
      JPEG, RGB for anything else. */
  function JpegColorSpace(jpegColorSpace: int): (cs: ColorSpace)
    ensures cs == DeviceGray <==> jpegColorSpace == JcsGrayscale
  {
    if jpegColorSpace == JcsGrayscale then DeviceGray else DeviceRgb
  }

  /** Dots per millimetre for a density given in dots per inch. */
  function PerMillimetre(dotsPerInch: nat): real
  {
    dotsPerInch as real / 25.4
  }

  /** The physical size (millimetres) that the three page builders compute from
      the pixel size, the dot densities (dots per millimetre) and the requested
      size. A width that was given always wins: the height is then recomputed
      from it, even when the caller gave a height as well. */
  function ResolveSize(xPx: nat, yPx: nat, xDensity: real, yDensity: real,
                       imgX: real, imgY: real): (real, real)
    requires imgX == Unspecified && imgY == Unspecified ==> xDensity != 0.0 && yDensity != 0.0
    requires imgX == Unspecified && imgY != Unspecified ==> yPx > 0
    requires imgX != Unspecified ==> xPx > 0
  {
    if imgX == Unspecified && imgY == Unspecified then
      (xPx as real / xDensity, yPx as real / yDensity)
    else if imgX == Unspecified then
      (xPx as real * imgY / yPx as real, imgY)
    else
      (imgX, yPx as real * imgX / xPx as real)
  }

  /** What the caller asked for is honoured on the axis that decides: a given
      width is kept as it is, and a given height is kept when no width was given. */
  lemma ResolveKeepsRequested(xPx: nat, yPx: nat, xDensity: real, yDensity: real,
                              imgX: real, imgY: real)
    requires xPx > 0 && yPx > 0
    ensures imgX != Unspecified ==> ResolveSize(xPx, yPx, xDensity, yDensity, imgX, imgY).0 == imgX
    ensures imgX == Unspecified && imgY != Unspecified ==>
              ResolveSize(xPx, yPx, xDensity, yDensity, imgX, imgY).1 == imgY
  {
  }

  /** A given height is discarded whenever a width is given: the result does not
      depend on it. */
  lemma ResolveIgnoresHeightWhenWidthGiven(xPx: nat, yPx: nat, xDensity: real, yDensity: real,
                                           imgX: real, imgY: real, otherY: real)
    requires xPx > 0 && imgX != Unspecified
    ensures ResolveSize(xPx, yPx, xDensity, yDensity, imgX, imgY)
         == ResolveSize(xPx, yPx, xDensity, yDensity, imgX, otherY)
  {
  }

  /** The resolved size has the pixel aspect ratio, unless both sizes were
      derived from two different densities. */
  lemma ResolveKeepsAspect(xPx: nat, yPx: nat, xDensity: real, yDensity: real,
                           imgX: real, imgY: real)
    requires xPx > 0 && yPx > 0
    requires imgX == Unspecified && imgY == Unspecified ==> xDensity != 0.0 && xDensity == yDensity
    ensures var r := ResolveSize(xPx, yPx, xDensity, yDensity, imgX, imgY);
            r.0 * yPx as real == r.1 * xPx as real
  {
    var x, y := xPx as real, yPx as real;
    if imgX == Unspecified && imgY == Unspecified {
      assert (x / xDensity) * y == (y / xDensity) * x;
    } else if imgX == Unspecified {
      assert (x * imgY / y) * y == x * imgY;
    } else {
      assert (y * imgX / x) * x == y * imgX;
    }
  }

  /** Positive requests and densities give a positive size. */
  lemma ResolvePositive(xPx: nat, yPx: nat, xDensity: real, yDensity: real,
                        imgX: real, imgY: real)
    requires xPx > 0 && yPx > 0 && xDensity > 0.0 && yDensity > 0.0
    requires imgX == Unspecified || imgX > 0.0
    requires imgX == Unspecified ==> imgY == Unspecified || imgY > 0.0
    ensures var r := ResolveSize(xPx, yPx, xDensity, yDensity, imgX, imgY);
            r.0 > 0.0 && r.1 > 0.0
  {
    var x, y := xPx as real, yPx as real;
    if imgX == Unspecified && imgY == Unspecified {
    } else if imgX == Unspecified {
      assert x * imgY > 0.0;
    } else {
      assert y * imgX > 0.0;
    }
  }

  /** Non-negative requests and positive densities give a non-negative size. */
  lemma ResolveNonNegative(xPx: nat, yPx: nat, xDensity: real, yDensity: real,
                           imgX: real, imgY: real)
    requires imgX == Unspecified && imgY == Unspecified ==> xDensity > 0.0 && yDensity > 0.0
    requires imgX == Unspecified && imgY != Unspecified ==> yPx > 0 && imgY >= 0.0
    requires imgX != Unspecified ==> xPx > 0 && imgX >= 0.0
    ensures var r := ResolveSize(xPx, yPx, xDensity, yDensity, imgX, imgY);
            r.0 >= 0.0 && r.1 >= 0.0
  {
    var x, y := xPx as real, yPx as real;
    if imgX == Unspecified && imgY == Unspecified {
    } else if imgX == Unspecified {
      assert x * imgY >= 0.0;
    } else {
      assert y * imgX >= 0.0;
    }
  }

  /** A decimal digit. */
  function DigitChar(d: nat): (c: char)
    requires d < 10
    ensures '0' <= c <= '9'
  {
    "0123456789"[d]
  }

  /** std::to_string of a non-negative number: its decimal digits. */
  function NatToString(n: nat): (s: string)
    ensures |s| > 0
    ensures forall i :: 0 <= i < |s| ==> '0' <= s[i] <= '9'
    ensures |s| > 1 ==> s[0] != '0'
  {
    if n < 10 then [DigitChar(n)] else NatToString(n / 10) + [DigitChar(n % 10)]
  }

  /** std::to_string of an int: a minus sign for negative numbers, then the digits. */
  function IntToString(i: int): string
  {
    if i < 0 then "-" + NatToString(-i) else NatToString(i)
  }

  /** The value of a sequence of decimal digits. */
  function DecimalValue(s: string): nat
    requires forall i :: 0 <= i < |s| ==> '0' <= s[i] <= '9'
  {
    if s == [] then 0 else 10 * DecimalValue(s[..|s| - 1]) + ((s[|s| - 1] as int - '0' as int) as nat)
  }

  /** What std::to_string of an int looks like: an optional minus sign, then
      at least one digit. */
  predicate IntDigits(s: string)
  {
    |s| > 0 && (s[0] == '-' || '0' <= s[0] <= '9') &&
    forall i :: 0 < i < |s| ==> '0' <= s[i] <= '9'
  }

  /** The inverse of IntToString. */
  function ParseInt(s: string): int
    requires IntDigits(s)
  {
    if s[0] == '-' then -(DecimalValue(s[1..]) as int) else DecimalValue(s)
  }

  lemma {:induction false} NatToStringRoundTrip(n: nat)
    ensures DecimalValue(NatToString(n)) == n
  {
    if n >= 10 {
      var s := NatToString(n);
      assert s[..|s| - 1] == NatToString(n / 10);
      NatToStringRoundTrip(n / 10);
    }
  }

  /** std::to_string of an int has the shape IntDigits describes. */
  lemma IntToStringDigits(i: int)
    ensures IntDigits(IntToString(i))
  {
    if i < 0 {
      var digits := NatToString(-i);
      var s := "-" + digits;
      forall k | 0 < k < |s|
        ensures '0' <= s[k] <= '9'
      {
        assert s[k] == digits[k - 1];
      }
    }
  }

  /** Reading back what std::to_string wrote gives the number: different
      qualities give different strings. */
  lemma IntToStringRoundTrip(i: int)
    ensures IntDigits(IntToString(i)) && ParseInt(IntToString(i)) == i
  {
    IntToStringDigits(i);
    if i < 0 {
      SignedRoundTrip(-i);
    } else {
      NatToStringRoundTrip(i);
    }
  }

  lemma SignedRoundTrip(n: nat)
    requires n > 0
    ensures IntDigits("-" + NatToString(n)) && ParseInt("-" + NatToString(n)) == -(n as int)
  {
    IntToStringDigits(-(n as int));
    var s := "-" + NatToString(n);
    assert s[1..] == NatToString(n);
    NatToStringRoundTrip(n);
  }

  /** The name under which a recompressed copy is written: the base name, then
      "_compressed_" and the quality in decimal. */
  function CompressedName(base: string, quality: int): string
  {
    base + "_compressed_" + IntToString(quality)
  }

  /** Different qualities give different copies, and a copy never has the name
      of its base. */
  lemma CompressedNameDistinct(base: string, q1: int, q2: int)
    ensures CompressedName(base, q1) != base
    ensures CompressedName(base, q1) == CompressedName(base, q2) <==> q1 == q2
  {
    var prefix := base + "_compressed_";
    if CompressedName(base, q1) == CompressedName(base, q2) {
      var n1, n2 := CompressedName(base, q1), CompressedName(base, q2);
      assert n1[|prefix|..] == IntToString(q1);
      assert n2[|prefix|..] == IntToString(q2);
      IntToStringRoundTrip(q1);
      IntToStringRoundTrip(q2);
    }
  }
}
