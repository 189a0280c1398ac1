/** adjust_size.cpp: the two-step clamp of an image size to a page. */
module AdjustSize {
  import opened RealFacts
  import opened Matrix

  /** Scaling the width factor out of a quotient: after the width step has
      multiplied both sides by f1, the height step's factor is the one it
      would have been on the unscaled size. */
  lemma RatioCancel(a: real, b: real, p: real, f: real)
    requires b != 0.0 && f != 0.0
    ensures (a * f) * (p / (b * f)) == a * (p / b)
  {
    var q := p / b;
    var r := p / (b * f);
    assert b * q == p;
    assert (b * f) * r == p;
    assert b * (f * r) == b * q;
    assert f * r == q;
    assert (a * f) * r == a * (f * r);
  }

  /** empdfer::shrink. The two sizes the source updates in place are an
      in-out pair here: (imgX, imgY) is the size before the call, (x, y) the
      size the caller sees afterwards. The width is clamped first, scaling the
      height with it; then the height is clamped, scaling the width with it.
      The result is the box scaled by shrink_factor; ShrunkSize states what
      follows: it fits, keeps its aspect ratio, never grows, and is left alone
      when it already fits. */
  method Shrink(imgX: real, imgY: real, pageX: real, pageY: real) returns (x: real, y: real)
    requires pageX > 0.0 && pageY > 0.0
    ensures x == imgX * ShrinkFactor(imgX, imgY, pageX, pageY)
    ensures y == imgY * ShrinkFactor(imgX, imgY, pageX, pageY)
  {
    x, y := imgX, imgY;
    WidthClamp(imgX, imgY, pageX);
    if x > pageX {
      y := y * (pageX / x);
      x := pageX;
    }
    HeightClamp(imgX, imgY, pageX, pageY, x, y);
    if y > pageY {
      x := x * (pageY / y);
      y := pageY;
    }
  }

  /** The width step of shrink scales the box by the width factor. */
  lemma WidthClamp(imgX: real, imgY: real, pageX: real)
    requires pageX > 0.0
    ensures imgX > pageX ==> pageX == imgX * WidthFactor(imgX, pageX) &&
                             imgY * (pageX / imgX) == imgY * WidthFactor(imgX, pageX)
    ensures imgX <= pageX ==> imgX == imgX * WidthFactor(imgX, pageX) &&
                              imgY == imgY * WidthFactor(imgX, pageX)
  {
    if imgX > pageX {
      Quotient(pageX, imgX);
    }
  }

  /** The height step of shrink, applied to the box scaled by the width factor,
      gives the box scaled by shrink_factor. */
  lemma HeightClamp(imgX: real, imgY: real, pageX: real, pageY: real, x: real, y: real)
    requires pageX > 0.0 && pageY > 0.0
    requires x == imgX * WidthFactor(imgX, pageX) && y == imgY * WidthFactor(imgX, pageX)
    ensures y > pageY ==> x * (pageY / y) == imgX * ShrinkFactor(imgX, imgY, pageX, pageY) &&
                          pageY == imgY * ShrinkFactor(imgX, imgY, pageX, pageY)
    ensures y <= pageY ==> x == imgX * ShrinkFactor(imgX, imgY, pageX, pageY) &&
                           y == imgY * ShrinkFactor(imgX, imgY, pageX, pageY)
  {
    var f1 := WidthFactor(imgX, pageX);
    if y > pageY {
      HeightStep(imgX, imgY, pageX, pageY, f1);
      RatioCancel(imgX, imgY, pageY, f1);
    }
  }

  /** What follows from the size being the box scaled by its factor: it fits
      the page, keeps the aspect ratio, does not grow, is unchanged when it
      already fitted, and shrinking it again changes nothing. */
  lemma ShrunkSize(imgX: real, imgY: real, pageX: real, pageY: real, x: real, y: real)
    requires pageX > 0.0 && pageY > 0.0
    requires x == imgX * ShrinkFactor(imgX, imgY, pageX, pageY)
    requires y == imgY * ShrinkFactor(imgX, imgY, pageX, pageY)
    ensures x <= pageX && y <= pageY
    ensures x * imgY == y * imgX
    ensures imgX <= pageX && imgY <= pageY ==> x == imgX && y == imgY
    ensures imgX >= 0.0 ==> 0.0 <= x <= imgX
    ensures imgY >= 0.0 ==> 0.0 <= y <= imgY
    ensures ShrinkFactor(x, y, pageX, pageY) == 1.0
  {
    var f := ShrinkFactor(imgX, imgY, pageX, pageY);
    ScaleDown(imgX, f);
    ScaleDown(imgY, f);
  }
}
