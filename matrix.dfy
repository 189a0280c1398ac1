/** matrix.cpp: the shrink factor and the rotation/centering transform. */
module Matrix {
  import opened Common
  import opened RealFacts

  function Abs(x: real): real { if x < 0.0 then -x else x }
  function Min(x: real, y: real): real { if x <= y then x else y }
  function Max(x: real, y: real): real { if x <= y then y else x }

  /** The first step of shrink_factor: the factor that makes the width fit. */
  function WidthFactor(imgX: real, pageX: real): (f1: real)
    requires pageX > 0.0
    ensures 0.0 < f1 <= 1.0 && imgX * f1 <= pageX
    ensures imgX <= pageX ==> f1 == 1.0
  {
    if imgX > pageX then
      QuotientPositive(pageX, imgX);
      QuotientAtMost(pageX, imgX, 1.0);
      Quotient(pageX, imgX);
      pageX / imgX
    else
      1.0
  }

  /** The second step of shrink_factor, taken when the height still overflows
      after the first: the factor makes the height fit, is smaller than the
      first one and so keeps the width fitting. */
  lemma HeightStep(imgX: real, imgY: real, pageX: real, pageY: real, f1: real)
    requires pageX > 0.0 && pageY > 0.0
    requires 0.0 < f1 <= 1.0 && imgX * f1 <= pageX
    requires imgY * f1 > pageY
    ensures imgY > 0.0
    ensures 0.0 < pageY / imgY < f1
    ensures imgY * (pageY / imgY) == pageY && imgX * (pageY / imgY) <= pageX
  {
    assert imgY > 0.0 by { MulSigns(imgY, f1); }
    var g := pageY / imgY;
    QuotientPositive(pageY, imgY);
    QuotientBelow(pageY, imgY, f1);
    Quotient(pageY, imgY);
    if imgX >= 0.0 {
      MulMono(imgX, g, f1);
    } else {
      MulSigns(imgX, g);
    }
  }

  /** shrink_factor: the single factor, never above 1, by which a box of
      imgX x imgY must be scaled to fit a pageX x pageY page. */
  function ShrinkFactor(imgX: real, imgY: real, pageX: real, pageY: real): (f: real)
    requires pageX > 0.0 && pageY > 0.0
    ensures 0.0 < f <= 1.0
    ensures imgX <= pageX && imgY <= pageY ==> f == 1.0
    ensures imgX * f <= pageX && imgY * f <= pageY
  {
    var f1 := WidthFactor(imgX, pageX);
    if imgY * f1 > pageY then
      HeightStep(imgX, imgY, pageX, pageY, f1);
      pageY / imgY
    else
      f1
  }

  /** For a box of positive size the factor is min(1, pageX/imgX, pageY/imgY). */
  lemma ShrinkFactorIsMin(imgX: real, imgY: real, pageX: real, pageY: real)
    requires imgX > 0.0 && imgY > 0.0 && pageX > 0.0 && pageY > 0.0
    ensures ShrinkFactor(imgX, imgY, pageX, pageY) == Min(1.0, Min(pageX / imgX, pageY / imgY))
  {
    var f1 := WidthFactor(imgX, pageX);
    QuotientBelow(pageX, imgX, 1.0);
    assert f1 == Min(1.0, pageX / imgX);
    QuotientBelow(pageY, imgY, f1);
    assert imgY * f1 > pageY <==> pageY / imgY < f1;
  }

  /** No larger factor fits: every factor g <= 1 that makes the box fit is at
      most the one shrink_factor returns. */
  lemma ShrinkFactorIsLargest(imgX: real, imgY: real, pageX: real, pageY: real, g: real)
    requires imgX > 0.0 && imgY > 0.0 && pageX > 0.0 && pageY > 0.0
    requires g <= 1.0 && imgX * g <= pageX && imgY * g <= pageY
    ensures g <= ShrinkFactor(imgX, imgY, pageX, pageY)
  {
    ShrinkFactorIsMin(imgX, imgY, pageX, pageY);
    QuotientBelow(pageX, imgX, g);
    QuotientBelow(pageY, imgY, g);
  }

  /** A box that was scaled by its factor fits, so shrinking it again is the
      identity: the factor of the shrunk box is 1. */
  lemma ShrinkFactorIdempotent(imgX: real, imgY: real, pageX: real, pageY: real)
    requires pageX > 0.0 && pageY > 0.0
    ensures var f := ShrinkFactor(imgX, imgY, pageX, pageY);
            ShrinkFactor(imgX * f, imgY * f, pageX, pageY) == 1.0
  {
  }

  /** C's truncation toward zero. */
  function Trunc(x: real): (n: int)
    ensures 0.0 <= x ==> n as real <= x < n as real + 1.0
    ensures x < 0.0 ==> n as real - 1.0 < x <= n as real
  {
    if x >= 0.0 then x.Floor else -((-x).Floor)
  }

  /** C's fmod for a positive divisor: the remainder of the truncating division,
      with the sign of x. */
  function FMod(x: real, y: real): (r: real)
    requires y > 0.0
    ensures x >= 0.0 ==> 0.0 <= r < y
    ensures x < 0.0 ==> -y < r <= 0.0
    ensures (x - r) / y == Trunc(x / y) as real
  {
    var n := Trunc(x / y) as real;
    QuotientBelow(x, y, n);
    QuotientBelow(x, y, n + 1.0);
    QuotientAtMost(x, y, n - 1.0);
    QuotientAtMost(x, y, n);
    MulQuotient(n, y);
    x - n * y
  }

  /** d is a whole number of turns of 360 degrees. */
  predicate WholeTurns(d: real)
  {
    (d / 360.0).Floor as real == d / 360.0
  }

  lemma WholeTurnsOf(d: real, k: int)
    requires d / 360.0 == k as real
    ensures WholeTurns(d)
  {
  }

  /** r_normalized: the rotation brought into [0, 360). */
  function NormalizeAngle(rotation: real): (r: real)
    ensures 0.0 <= r < 360.0
    ensures WholeTurns(rotation - r)
  {
    var m := FMod(rotation, 360.0);
    var k := Trunc(rotation / 360.0);
    if m < 0.0 then
      WholeTurnsOf(rotation - (m + 360.0), k - 1);
      m + 360.0
    else
      WholeTurnsOf(rotation - m, k);
      m
  }

  /** The normalised angle is the only angle of [0, 360) that differs from the
      rotation by whole turns. */
  lemma NormalizeAngleUnique(rotation: real, r: real)
    requires 0.0 <= r < 360.0 && WholeTurns(rotation - r)
    ensures r == NormalizeAngle(rotation)
  {
    var n := NormalizeAngle(rotation);
    var a := ((rotation - r) / 360.0).Floor;
    var b := ((rotation - n) / 360.0).Floor;
    assert (n - r) / 360.0 == (a - b) as real;
    assert -1 < a - b < 1;
  }

  /** Adding whole turns to the rotation does not change the placement angle. */
  lemma NormalizeAnglePeriodic(rotation: real, k: int)
    ensures NormalizeAngle(rotation + (k as real) * 360.0) == NormalizeAngle(rotation)
  {
    var n := NormalizeAngle(rotation);
    var shifted := rotation + (k as real) * 360.0;
    var a := ((rotation - n) / 360.0).Floor;
    assert (shifted - n) / 360.0 == (a + k) as real;
    assert ((shifted - n) / 360.0).Floor == a + k;
    NormalizeAngleUnique(shifted, n);
  }

  /** The four lengths lab: the length along axis a projected onto axis b
      after rotation. Width() and Height() are the rotated bounding box. */
  datatype Projections = Projections(lxx: real, lyx: real, lxy: real, lyy: real)
  {
    function Width(): real { lxx + lyx }
    function Height(): real { lxy + lyy }
    function Scale(f: real): Projections
    {
      Projections(lxx * f, lyx * f, lxy * f, lyy * f)
    }
  }

  /** The four projected lengths of matrix.cpp:56-59; none is negative, so
      the bounding box they make is never negative either. */
  function Project(w: real, h: real, cosR: real, sinR: real): (p: Projections)
    ensures p.lxx >= 0.0 && p.lyx >= 0.0 && p.lxy >= 0.0 && p.lyy >= 0.0
  {
    Projections(Abs(cosR * w), Abs(sinR * h), Abs(sinR * w), Abs(cosR * h))
  }

  /** Scaling the image scales its projections by the same non-negative factor. */
  lemma ProjectScale(w: real, h: real, cosR: real, sinR: real, f: real)
    requires f >= 0.0
    ensures Project(w * f, h * f, cosR, sinR) == Project(w, h, cosR, sinR).Scale(f)
  {
    ProjectedScale(cosR, w, f);
    ProjectedScale(sinR, h, f);
    ProjectedScale(sinR, w, f);
    ProjectedScale(cosR, h, f);
    ScaleOf(Project(w, h, cosR, sinR), f,
            Abs(cosR * w), Abs(sinR * h), Abs(sinR * w), Abs(cosR * h));
  }

  lemma ScaleOf(p: Projections, f: real, lxx: real, lyx: real, lxy: real, lyy: real)
    requires p == Projections(lxx, lyx, lxy, lyy)
    ensures p.Scale(f) == Projections(lxx * f, lyx * f, lxy * f, lyy * f)
  {
  }

  /** Shrunk for projections given by their four lengths. */
  lemma ShrunkOf(imgX: real, imgY: real, p: Projections, f: real,
                 lxx: real, lyx: real, lxy: real, lyy: real)
    requires p == Projections(lxx, lyx, lxy, lyy)
    ensures Shrunk(imgX, imgY, p, f)
         == Fit(imgX * f, imgY * f, Projections(lxx * f, lyx * f, lxy * f, lyy * f))
  {
  }

  lemma ProjectedScale(c: real, x: real, f: real)
    requires f >= 0.0
    ensures Abs(c * (x * f)) == Abs(c * x) * f
  {
    assert c * (x * f) == (c * x) * f;
    AbsScale(c * x, f);
  }

  lemma AbsScale(x: real, f: real)
    requires f >= 0.0
    ensures Abs(x * f) == Abs(x) * f
  {
    if x < 0.0 { assert x * f <= 0.0; } else { assert x * f >= 0.0; }
  }

  /** A factor in (0, 1] never enlarges a non-negative length. */
  lemma ScaleDown(x: real, f: real)
    requires 0.0 < f <= 1.0
    ensures x >= 0.0 ==> 0.0 <= x * f <= x
  {
    if x >= 0.0 {
      MulMono(x, f, 1.0);
      MulSigns(x, f);
    }
  }

  /** The image size and its projections after the optional shrink. */
  datatype Fit = Fit(w: real, h: real, proj: Projections)

  /** Steps 2 and 3 of fill_matrix: project the image, then, with shrink,
      scale the image and all four lengths by the factor that makes the
      bounding box fit the page. */
  function FitRotated(imgX: real, imgY: real, pageX: real, pageY: real,
                      cosR: real, sinR: real, shrink: bool): Fit
    requires shrink ==> pageX > 0.0 && pageY > 0.0
  {
    var p := Project(imgX, imgY, cosR, sinR);
    if shrink then
      var f := ShrinkFactor(p.Width(), p.Height(), pageX, pageY);
      Shrunk(imgX, imgY, p, f)
    else
      Fit(imgX, imgY, p)
  }

  /** The image size and the four lengths, all multiplied by the factor f. */
  function Shrunk(imgX: real, imgY: real, p: Projections, f: real): Fit
  {
    Fit(imgX * f, imgY * f, p.Scale(f))
  }

  /** What fill_matrix keeps after the shrink: the lengths are still the
      projections of the kept image size, with shrink the box fits the page,
      the image is never enlarged, and it is left alone when shrink is off or
      its box already fits. */
  predicate FitKeeps(r: Fit, imgX: real, imgY: real, pageX: real, pageY: real,
                     cosR: real, sinR: real, shrink: bool)
  {
    && r.proj == Project(r.w, r.h, cosR, sinR)
    && (shrink ==> r.proj.Width() <= pageX && r.proj.Height() <= pageY)
    && (!shrink ==> r.w == imgX && r.h == imgY)
    && (imgX >= 0.0 ==> 0.0 <= r.w <= imgX)
    && (imgY >= 0.0 ==> 0.0 <= r.h <= imgY)
    && (shrink && Project(imgX, imgY, cosR, sinR).Width() <= pageX
               && Project(imgX, imgY, cosR, sinR).Height() <= pageY
        ==> r.w == imgX && r.h == imgY)
  }

  lemma FitRotatedKeeps(imgX: real, imgY: real, pageX: real, pageY: real,
                        cosR: real, sinR: real, shrink: bool)
    requires shrink ==> pageX > 0.0 && pageY > 0.0
    ensures FitKeeps(FitRotated(imgX, imgY, pageX, pageY, cosR, sinR, shrink),
                     imgX, imgY, pageX, pageY, cosR, sinR, shrink)
  {
    var p := Project(imgX, imgY, cosR, sinR);
    if shrink {
      var f := ShrinkFactor(p.Width(), p.Height(), pageX, pageY);
      FitRotatedShrunk(imgX, imgY, pageX, pageY, cosR, sinR, p, f);
      ShrunkKeeps(imgX, imgY, pageX, pageY, cosR, sinR, p, f);
    }
  }

  lemma ShrunkKeeps(imgX: real, imgY: real, pageX: real, pageY: real,
                    cosR: real, sinR: real, p: Projections, f: real)
    requires pageX > 0.0 && pageY > 0.0
    requires p == Project(imgX, imgY, cosR, sinR)
    requires f == ShrinkFactor(p.Width(), p.Height(), pageX, pageY)
    ensures FitKeeps(Shrunk(imgX, imgY, p, f), imgX, imgY, pageX, pageY, cosR, sinR, true)
  {
    var r := Shrunk(imgX, imgY, p, f);
    ShrunkIs(imgX, imgY, p, f, r);
    ScaledKeeps(imgX, imgY, pageX, pageY, cosR, sinR, p, f, r);
  }

  lemma ShrunkIs(imgX: real, imgY: real, p: Projections, f: real, r: Fit)
    requires r == Shrunk(imgX, imgY, p, f)
    ensures r == Fit(imgX * f, imgY * f, p.Scale(f))
  {
  }

  lemma ScaledKeeps(imgX: real, imgY: real, pageX: real, pageY: real,
                    cosR: real, sinR: real, p: Projections, f: real, r: Fit)
    requires pageX > 0.0 && pageY > 0.0
    requires p == Project(imgX, imgY, cosR, sinR)
    requires f == ShrinkFactor(p.Width(), p.Height(), pageX, pageY)
    requires r == Fit(imgX * f, imgY * f, p.Scale(f))
    ensures FitKeeps(r, imgX, imgY, pageX, pageY, cosR, sinR, true)
  {
    ProjectScale(imgX, imgY, cosR, sinR, f);
    ShrunkBoxFits(p, pageX, pageY, f);
    ScaleDown(imgX, f);
    ScaleDown(imgY, f);
  }

  /** With shrink, the scaled bounding box fits the page. */
  lemma ShrunkBoxFits(p: Projections, pageX: real, pageY: real, f: real)
    requires pageX > 0.0 && pageY > 0.0
    requires f == ShrinkFactor(p.Width(), p.Height(), pageX, pageY)
    ensures p.Scale(f).Width() <= pageX && p.Scale(f).Height() <= pageY
  {
    ScaleBox(p, f);
  }

  lemma ScaleBox(p: Projections, f: real)
    ensures p.Scale(f).Width() == p.Width() * f && p.Scale(f).Height() == p.Height() * f
  {
  }

  /** FitRotated with shrink, spelled out for a given projection and factor. */
  lemma FitRotatedShrunk(imgX: real, imgY: real, pageX: real, pageY: real,
                         cosR: real, sinR: real, p: Projections, f: real)
    requires pageX > 0.0 && pageY > 0.0
    requires p == Project(imgX, imgY, cosR, sinR)
    requires f == ShrinkFactor(p.Width(), p.Height(), pageX, pageY)
    ensures FitRotated(imgX, imgY, pageX, pageY, cosR, sinR, true) == Shrunk(imgX, imgY, p, f)
  {
  }

  /** The four branches of fill_matrix, each closed at its upper end. */
  datatype Quadrant = First | Second | Third | Fourth

  function QuadrantOf(r: real): Quadrant
  {
    if r <= 90.0 then First
    else if r <= 180.0 then Second
    else if r <= 270.0 then Third
    else Fourth
  }

  /** Exactly 90, 180 and 270 degrees belong to the branch below them. */
  lemma QuadrantUpperClosed()
    ensures QuadrantOf(0.0) == First && QuadrantOf(90.0) == First
    ensures QuadrantOf(180.0) == Second && QuadrantOf(270.0) == Third
    ensures forall r :: 270.0 < r < 360.0 ==> QuadrantOf(r) == Fourth
  {
  }

  /** Steps 4 and 5: margins that centre the bounding box, then the shift that
      brings the image's own lower-left corner (the rotation pivot) to the
      corner of the box on which it lands. */
  function Margins(p: Projections, pageX: real, pageY: real, q: Quadrant): (real, real)
  {
    var mx := (pageX - p.Width()) / 2.0;
    var my := (pageY - p.Height()) / 2.0;
    match q
    case First => (mx + p.lyx, my)
    case Second => (mx + (p.lxx + p.lyx), my + p.lyy)
    case Third => (mx + p.lxx, my + (p.lxy + p.lyy))
    case Fourth => (mx, my + p.lxy)
  }

  /** The 2x3 affine matrix [a b c d e f] of the document format: it maps
      (x, y) of the unit image square to (a*x + c*y + e, b*x + d*y + f). */
  datatype Affine = Affine(a: real, b: real, c: real, d: real, e: real, f: real)
  {
    function Entries(): seq<real> { [a, b, c, d, e, f] }

    /** The extreme coordinates of the four corners (0,0), (1,0), (0,1), (1,1). */
    function MinX(): real { Min(Min(e, e + a), Min(e + c, e + a + c)) }
    function MaxX(): real { Max(Max(e, e + a), Max(e + c, e + a + c)) }
    function MinY(): real { Min(Min(f, f + b), Min(f + d, f + b + d)) }
    function MaxY(): real { Max(Max(f, f + b), Max(f + d, f + b + d)) }
  }

  /** The matrix fill_matrix writes for the final image size w x h and the
      final margins: the rotation scaled to the image, then the translation. */
  function MatrixFor(w: real, h: real, marginX: real, marginY: real,
                     cosR: real, sinR: real): Affine
  {
    Affine(Milimeters(w) * cosR, Milimeters(w) * sinR,
           -Milimeters(h) * sinR, Milimeters(h) * cosR,
           Milimeters(marginX), Milimeters(marginY))
  }

  /** The matrix that fill_matrix writes, for given cosine and sine of the
      rotation. */
  function Place(imgX: real, imgY: real, pageX: real, pageY: real, rotation: real,
                 cosR: real, sinR: real, shrink: bool): Affine
    requires shrink ==> pageX > 0.0 && pageY > 0.0
  {
    var fit := FitRotated(imgX, imgY, pageX, pageY, cosR, sinR, shrink);
    var margins := Margins(fit.proj, pageX, pageY, QuadrantOf(NormalizeAngle(rotation)));
    MatrixFor(fit.w, fit.h, margins.0, margins.1, cosR, sinR)
  }

  /** The signs that cos and sin of an angle in quadrant q have. */
  predicate SignsMatch(q: Quadrant, cosR: real, sinR: real)
  {
    match q
    case First => cosR >= 0.0 && sinR >= 0.0
    case Second => cosR <= 0.0 && sinR >= 0.0
    case Third => cosR <= 0.0 && sinR <= 0.0
    case Fourth => cosR >= 0.0 && sinR <= 0.0
  }

  /** The corners of the unit square spread from the translation by the
      negative and positive parts of the two column vectors. */
  lemma CornerExtents(m: Affine)
    ensures m.MinX() == m.e + Min(m.a, 0.0) + Min(m.c, 0.0)
    ensures m.MaxX() == m.e + Max(m.a, 0.0) + Max(m.c, 0.0)
    ensures m.MinY() == m.f + Min(m.b, 0.0) + Min(m.d, 0.0)
    ensures m.MaxY() == m.f + Max(m.b, 0.0) + Max(m.d, 0.0)
  {
  }

  /** The centring argument for a matrix whose linear part is made of the four
      products xx = w*cos, xy = w*sin, yx = h*sin and yy = h*cos, whose signs
      follow those of cos and sin. */
  lemma CenteredCore(m: Affine, p: Projections, xx: real, xy: real, yx: real, yy: real,
                     pageX: real, pageY: real, q: Quadrant)
    requires SignsMatch(q, xx, xy) && SignsMatch(q, yy, yx)
    requires p.lxx == Abs(xx) && p.lyx == Abs(yx) && p.lxy == Abs(xy) && p.lyy == Abs(yy)
    requires m.a == Milimeters(xx) && m.b == Milimeters(xy)
    requires m.c == -Milimeters(yx) && m.d == Milimeters(yy)
    requires m.e == Milimeters(Margins(p, pageX, pageY, q).0)
    requires m.f == Milimeters(Margins(p, pageX, pageY, q).1)
    ensures m.MinX() == Milimeters((pageX - p.Width()) / 2.0)
    ensures m.MaxX() == Milimeters((pageX + p.Width()) / 2.0)
    ensures m.MinY() == Milimeters((pageY - p.Height()) / 2.0)
    ensures m.MaxY() == Milimeters((pageY + p.Height()) / 2.0)
  {
    CornerExtents(m);
  }

  /** The bounding box written with the four products w*cos, w*sin, h*sin
      and h*cos of the final image size. */
  lemma ProjectAsProducts(w: real, h: real, cosR: real, sinR: real)
    ensures var p := Project(w, h, cosR, sinR);
            && p.lxx == Abs(w * cosR) && p.lyx == Abs(h * sinR)
            && p.lxy == Abs(w * sinR) && p.lyy == Abs(h * cosR)
  {
    assert cosR * w == w * cosR && sinR * h == h * sinR;
    assert sinR * w == w * sinR && cosR * h == h * cosR;
  }

  /** Place is MatrixFor of its own fit and margins. */
  lemma PlaceUnfolded(imgX: real, imgY: real, pageX: real, pageY: real, rotation: real,
                      cosR: real, sinR: real, shrink: bool)
    requires shrink ==> pageX > 0.0 && pageY > 0.0
    ensures var fit := FitRotated(imgX, imgY, pageX, pageY, cosR, sinR, shrink);
            var mm := Margins(fit.proj, pageX, pageY, QuadrantOf(NormalizeAngle(rotation)));
            Place(imgX, imgY, pageX, pageY, rotation, cosR, sinR, shrink)
            == MatrixFor(fit.w, fit.h, mm.0, mm.1, cosR, sinR)
  {
  }

  /** MatrixFor written with the four products w*cos, w*sin, h*sin and h*cos. */
  lemma MatrixForProducts(w: real, h: real, marginX: real, marginY: real,
                          cosR: real, sinR: real)
    ensures var m := MatrixFor(w, h, marginX, marginY, cosR, sinR);
            && m.a == Milimeters(w * cosR) && m.b == Milimeters(w * sinR)
            && m.c == -Milimeters(h * sinR) && m.d == Milimeters(h * cosR)
            && m.e == Milimeters(marginX) && m.f == Milimeters(marginY)
  {
    MilimetersProduct(w, cosR);
    MilimetersProduct(w, sinR);
    MilimetersProduct(h, sinR);
    MilimetersProduct(h, cosR);
  }

  lemma MilimetersProduct(x: real, c: real)
    ensures Milimeters(x) * c == Milimeters(x * c) && -Milimeters(x) * c == -Milimeters(x * c)
  {
  }

  /** For a non-negative image the four products have the signs of cos and sin. */
  lemma ProductSigns(w: real, h: real, cosR: real, sinR: real, q: Quadrant)
    requires w >= 0.0 && h >= 0.0 && SignsMatch(q, cosR, sinR)
    ensures SignsMatch(q, w * cosR, w * sinR) && SignsMatch(q, h * cosR, h * sinR)
  {
    MulSigns(w, cosR);
    MulSigns(w, sinR);
    MulSigns(h, sinR);
    MulSigns(h, cosR);
  }

  /** The rotated image is centred on the page: its corners span exactly the
      (possibly shrunk) bounding box, and the box has equal margins on both
      sides of each axis. */
  lemma PlaceCentered(imgX: real, imgY: real, pageX: real, pageY: real, rotation: real,
                      cosR: real, sinR: real, shrink: bool)
    requires imgX >= 0.0 && imgY >= 0.0
    requires shrink ==> pageX > 0.0 && pageY > 0.0
    requires SignsMatch(QuadrantOf(NormalizeAngle(rotation)), cosR, sinR)
    ensures var p := FitRotated(imgX, imgY, pageX, pageY, cosR, sinR, shrink).proj;
            var m := Place(imgX, imgY, pageX, pageY, rotation, cosR, sinR, shrink);
            && m.MinX() == Milimeters((pageX - p.Width()) / 2.0)
            && m.MaxX() == Milimeters((pageX + p.Width()) / 2.0)
            && m.MinY() == Milimeters((pageY - p.Height()) / 2.0)
            && m.MaxY() == Milimeters((pageY + p.Height()) / 2.0)
  {
    var fit := FitRotated(imgX, imgY, pageX, pageY, cosR, sinR, shrink);
    var q := QuadrantOf(NormalizeAngle(rotation));
    FitRotatedKeeps(imgX, imgY, pageX, pageY, cosR, sinR, shrink);
    PlaceUnfolded(imgX, imgY, pageX, pageY, rotation, cosR, sinR, shrink);
    CenteredFit(Place(imgX, imgY, pageX, pageY, rotation, cosR, sinR, shrink), fit,
                cosR, sinR, pageX, pageY, q);
  }

  /** The centring argument for a given fit: its size is non-negative, its
      lengths are the projections of its size, and the matrix is built from it
      as fill_matrix builds it. */
  lemma CenteredFit(m: Affine, fit: Fit, cosR: real, sinR: real,
                    pageX: real, pageY: real, q: Quadrant)
    requires fit.w >= 0.0 && fit.h >= 0.0 && SignsMatch(q, cosR, sinR)
    requires fit.proj == Project(fit.w, fit.h, cosR, sinR)
    requires m == MatrixFor(fit.w, fit.h, Margins(fit.proj, pageX, pageY, q).0,
                            Margins(fit.proj, pageX, pageY, q).1, cosR, sinR)
    ensures m.MinX() == Milimeters((pageX - fit.proj.Width()) / 2.0)
    ensures m.MaxX() == Milimeters((pageX + fit.proj.Width()) / 2.0)
    ensures m.MinY() == Milimeters((pageY - fit.proj.Height()) / 2.0)
    ensures m.MaxY() == Milimeters((pageY + fit.proj.Height()) / 2.0)
  {
    FitSignsAndLengths(fit, cosR, sinR, q);
    FitEntries(m, fit, cosR, sinR, pageX, pageY, q);
    CenteredCore(m, fit.proj, fit.w * cosR, fit.w * sinR, fit.h * sinR, fit.h * cosR,
                 pageX, pageY, q);
  }

  /** The sign and length conditions of CenteredCore for the products of a
      fit. */
  lemma FitSignsAndLengths(fit: Fit, cosR: real, sinR: real, q: Quadrant)
    requires fit.w >= 0.0 && fit.h >= 0.0 && SignsMatch(q, cosR, sinR)
    requires fit.proj == Project(fit.w, fit.h, cosR, sinR)
    ensures SignsMatch(q, fit.w * cosR, fit.w * sinR) && SignsMatch(q, fit.h * cosR, fit.h * sinR)
    ensures fit.proj.lxx == Abs(fit.w * cosR) && fit.proj.lyx == Abs(fit.h * sinR)
    ensures fit.proj.lxy == Abs(fit.w * sinR) && fit.proj.lyy == Abs(fit.h * cosR)
  {
    ProjectAsProducts(fit.w, fit.h, cosR, sinR);
    ProductSigns(fit.w, fit.h, cosR, sinR, q);
  }

  /** The entry conditions of CenteredCore for the matrix of a fit. */
  lemma FitEntries(m: Affine, fit: Fit, cosR: real, sinR: real,
                   pageX: real, pageY: real, q: Quadrant)
    requires m == MatrixFor(fit.w, fit.h, Margins(fit.proj, pageX, pageY, q).0,
                            Margins(fit.proj, pageX, pageY, q).1, cosR, sinR)
    ensures m.a == Milimeters(fit.w * cosR) && m.b == Milimeters(fit.w * sinR)
    ensures m.c == -Milimeters(fit.h * sinR) && m.d == Milimeters(fit.h * cosR)
    ensures m.e == Milimeters(Margins(fit.proj, pageX, pageY, q).0)
    ensures m.f == Milimeters(Margins(fit.proj, pageX, pageY, q).1)
  {
    MatrixForProducts(fit.w, fit.h, Margins(fit.proj, pageX, pageY, q).0,
                      Margins(fit.proj, pageX, pageY, q).1, cosR, sinR);
  }

  /** Without rotation (cos 1, sin 0, a whole number of turns) the matrix is a
      pure scale-and-translate that centres the image, whose size is the
      requested one scaled by shrink_factor when shrink is set. */
  lemma PlaceUnrotated(imgX: real, imgY: real, pageX: real, pageY: real, rotation: real,
                       shrink: bool)
    requires imgX >= 0.0 && imgY >= 0.0
    requires shrink ==> pageX > 0.0 && pageY > 0.0
    requires WholeTurns(rotation)
    ensures var f := if shrink then ShrinkFactor(imgX, imgY, pageX, pageY) else 1.0;
            var w, h := imgX * f, imgY * f;
            Place(imgX, imgY, pageX, pageY, rotation, 1.0, 0.0, shrink)
            == Affine(Milimeters(w), 0.0, 0.0, Milimeters(h),
                      Milimeters((pageX - w) / 2.0), Milimeters((pageY - h) / 2.0))
  {
    assert rotation - 0.0 == rotation;
    NormalizeAngleUnique(rotation, 0.0);
    assert QuadrantOf(NormalizeAngle(rotation)) == First;
    var f := if shrink then ShrinkFactor(imgX, imgY, pageX, pageY) else 1.0;
    var w, h := imgX * f, imgY * f;
    UnrotatedFit(imgX, imgY, pageX, pageY, shrink, f);
    var mx, my := (pageX - w) / 2.0, (pageY - h) / 2.0;
    assert Margins(Projections(w, 0.0, 0.0, h), pageX, pageY, First) == (mx, my);
    PlaceFor(imgX, imgY, pageX, pageY, rotation, 1.0, 0.0, shrink,
             w, h, Projections(w, 0.0, 0.0, h), mx, my);
  }

  /** Without rotation the bounding box is the image itself, so the fit is the
      image scaled by its own shrink factor. */
  lemma UnrotatedFit(imgX: real, imgY: real, pageX: real, pageY: real, shrink: bool, f: real)
    requires imgX >= 0.0 && imgY >= 0.0
    requires shrink ==> pageX > 0.0 && pageY > 0.0
    requires f == if shrink then ShrinkFactor(imgX, imgY, pageX, pageY) else 1.0
    ensures FitRotated(imgX, imgY, pageX, pageY, 1.0, 0.0, shrink)
         == Fit(imgX * f, imgY * f, Projections(imgX * f, 0.0, 0.0, imgY * f))
  {
    var p := Project(imgX, imgY, 1.0, 0.0);
    assert p == Projections(imgX, 0.0, 0.0, imgY);
    if shrink {
      FitRotatedShrunk(imgX, imgY, pageX, pageY, 1.0, 0.0, p, f);
      ShrunkOf(imgX, imgY, p, f, imgX, 0.0, 0.0, imgY);
    }
  }

  /** Place for a given fit and given margins. */
  lemma PlaceFor(imgX: real, imgY: real, pageX: real, pageY: real, rotation: real,
                 cosR: real, sinR: real, shrink: bool,
                 w: real, h: real, p: Projections, marginX: real, marginY: real)
    requires shrink ==> pageX > 0.0 && pageY > 0.0
    requires Fit(w, h, p) == FitRotated(imgX, imgY, pageX, pageY, cosR, sinR, shrink)
    requires (marginX, marginY) == Margins(p, pageX, pageY, QuadrantOf(NormalizeAngle(rotation)))
    ensures Place(imgX, imgY, pageX, pageY, rotation, cosR, sinR, shrink)
         == MatrixFor(w, h, marginX, marginY, cosR, sinR)
  {
  }

  /** Step 1 of fill_matrix: fmod by 360, then a negative remainder is moved
      up by one turn. */
  method NormalizedRotation(rotation: real) returns (rNormalized: real)
    ensures rNormalized == NormalizeAngle(rotation)
    ensures 0.0 <= rNormalized < 360.0
  {
    rNormalized := FMod(rotation, 360.0);
    if rNormalized < 0.0 {
      rNormalized := rNormalized + 360.0;
    }
  }

  /** Steps 2 and 3 of fill_matrix: the four projected lengths, then, with
      shrink, the image size and the lengths multiplied by shrink_factor of the
      bounding box. */
  method ProjectAndShrink(imgX: real, imgY: real, pageX: real, pageY: real,
                          cosR: real, sinR: real, shrink: bool)
    returns (w: real, h: real, lxx: real, lyx: real, lxy: real, lyy: real)
    requires shrink ==> pageX > 0.0 && pageY > 0.0
    ensures Fit(w, h, Projections(lxx, lyx, lxy, lyy))
         == FitRotated(imgX, imgY, pageX, pageY, cosR, sinR, shrink)
  {
    lxx := Abs(cosR * imgX);
    lyx := Abs(sinR * imgY);
    lxy := Abs(sinR * imgX);
    lyy := Abs(cosR * imgY);
    w, h := imgX, imgY;
    ghost var projected := Projections(lxx, lyx, lxy, lyy);
    assert projected == Project(imgX, imgY, cosR, sinR);

    if shrink {
      assert lxx + lyx == projected.Width() && lxy + lyy == projected.Height();
      var factor := ShrinkFactor(lxx + lyx, lxy + lyy, pageX, pageY);
      FitRotatedShrunk(imgX, imgY, pageX, pageY, cosR, sinR, projected, factor);
      ShrunkOf(imgX, imgY, projected, factor, lxx, lyx, lxy, lyy);
      lxx := lxx * factor;
      lyx := lyx * factor;
      lxy := lxy * factor;
      lyy := lyy * factor;
      w := imgX * factor;
      h := imgY * factor;
    } else {
      assert FitRotated(imgX, imgY, pageX, pageY, cosR, sinR, false) == Fit(w, h, projected);
    }
  }

  /** Steps 4 and 5 of fill_matrix: the centring margins and the shift to the
      pivot corner, chosen by the quadrant of the normalised angle. */
  method PivotMargins(lxx: real, lyx: real, lxy: real, lyy: real,
                      pageX: real, pageY: real, rNormalized: real)
    returns (marginX: real, marginY: real)
    ensures (marginX, marginY)
         == Margins(Projections(lxx, lyx, lxy, lyy), pageX, pageY, QuadrantOf(rNormalized))
  {
    marginX := (pageX - (lxx + lyx)) / 2.0;
    marginY := (pageY - (lxy + lyy)) / 2.0;

    if rNormalized <= 90.0 {
      marginX := marginX + lyx;
    } else if rNormalized <= 180.0 {
      marginX := marginX + (lxx + lyx);
      marginY := marginY + lyy;
    } else if rNormalized <= 270.0 {
      marginX := marginX + lxx;
      marginY := marginY + (lxy + lyy);
    } else {
      marginY := marginY + lxy;
    }
  }

  /** empdfer::fill_matrix: writes the placement matrix of the image into
      matrix23. cosR and sinR are the cosine and sine of the rotation. */
  method FillMatrix(matrix23: array<real>, imgX: real, imgY: real,
                    pageX: real, pageY: real, rotation: real,
                    cosR: real, sinR: real, shrink: bool)
    requires matrix23.Length == 6
    requires shrink ==> pageX > 0.0 && pageY > 0.0
    modifies matrix23
    ensures matrix23[..] == Place(imgX, imgY, pageX, pageY, rotation, cosR, sinR, shrink).Entries()
  {
    var rNormalized := NormalizedRotation(rotation);
    var w, h, lxx, lyx, lxy, lyy := ProjectAndShrink(imgX, imgY, pageX, pageY, cosR, sinR, shrink);
    var marginX, marginY := PivotMargins(lxx, lyx, lxy, lyy, pageX, pageY, rNormalized);
    PlaceFor(imgX, imgY, pageX, pageY, rotation, cosR, sinR, shrink,
             w, h, Projections(lxx, lyx, lxy, lyy), marginX, marginY);

    matrix23[0] := Milimeters(w) * cosR;
    matrix23[1] := Milimeters(w) * sinR;
    matrix23[2] := -Milimeters(h) * sinR;
    matrix23[3] := Milimeters(h) * cosR;
    matrix23[4] := Milimeters(marginX);
    matrix23[5] := Milimeters(marginY);
    assert matrix23[..] == [Milimeters(w) * cosR, Milimeters(w) * sinR,
                            -Milimeters(h) * sinR, Milimeters(h) * cosR,
                            Milimeters(marginX), Milimeters(marginY)];
  }
}
