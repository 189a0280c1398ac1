/** Small facts about multiplication and division of reals, proved once so
    that the geometry proofs only need linear reasoning. */
module RealFacts {

  lemma Quotient(a: real, b: real)
    requires b != 0.0
    ensures b * (a / b) == a && (a / b) * b == a
  {
  }

  lemma MulQuotient(a: real, b: real)
    requires b != 0.0
    ensures (a * b) / b == a
  {
  }

  lemma QuotientPositive(a: real, b: real)
    requires a > 0.0 && b > 0.0
    ensures a / b > 0.0
  {
  }

  /** a/b < c exactly when a < b*c, for positive b. */
  lemma QuotientBelow(a: real, b: real, c: real)
    requires b > 0.0
    ensures a / b < c <==> a < b * c
  {
    var q := a / b;
    assert b * q == a;
    if q < c {
      MulStrict(b, q, c);
      assert b * q < b * c;
    } else {
      MulMono(b, c, q);
      assert b * c <= b * q;
    }
  }

  /** a/b <= c exactly when a <= b*c, for positive b. */
  lemma QuotientAtMost(a: real, b: real, c: real)
    requires b > 0.0
    ensures a / b <= c <==> a <= b * c
  {
    var q := a / b;
    assert b * q == a;
    if q <= c {
      assert b * q <= b * c;
    } else {
      MulStrict(b, c, q);
      assert b * c < b * q;
    }
  }

  lemma MulMono(k: real, x: real, y: real)
    requires k >= 0.0 && x <= y
    ensures k * x <= k * y && x * k <= y * k
  {
    assert k * y - k * x == k * (y - x);
  }

  lemma MulStrict(k: real, x: real, y: real)
    requires k > 0.0 && x < y
    ensures k * x < k * y && x * k < y * k
  {
    assert k * y - k * x == k * (y - x);
  }

  lemma MulSigns(x: real, y: real)
    ensures x >= 0.0 && y >= 0.0 ==> x * y >= 0.0
    ensures x <= 0.0 && y <= 0.0 ==> x * y >= 0.0
    ensures x >= 0.0 && y <= 0.0 ==> x * y <= 0.0
    ensures x <= 0.0 && y >= 0.0 ==> x * y <= 0.0
    ensures x > 0.0 && y > 0.0 ==> x * y > 0.0
  {
  }
}
