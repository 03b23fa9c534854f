/** Real-number helpers: absolute value, bounds, numpy's closeness test and the two-point line. */
module Reals {

  function Abs(a: real): (r: real)
    ensures r >= 0.0 && (r == a || r == -a)
  {
    if a < 0.0 then -a else a
  }

  function Min(a: real, b: real): (r: real)
    ensures r <= a && r <= b && (r == a || r == b)
  {
    if a <= b then a else b
  }

  function Max(a: real, b: real): (r: real)
    ensures r >= a && r >= b && (r == a || r == b)
  {
    if a <= b then b else a
  }

  /** Default tolerances of numpy's isclose. */
  const ABSOLUTE_TOLERANCE: real := 1e-8
  const RELATIVE_TOLERANCE: real := 1e-5

  /** numpy's isclose(a, b): |a - b| <= atol + rtol * |b| (not symmetric in a and b). */
  predicate IsClose(a: real, b: real)
  {
    Abs(a - b) <= ABSOLUTE_TOLERANCE + RELATIVE_TOLERANCE * Abs(b)
  }

  /** Every number is close to itself. */
  lemma IsCloseReflexive(a: real)
    ensures IsClose(a, a)
  {
  }

  /**
   * The value at u of the straight line through (x0, y0) and (x1, y1): what a
   * two-sample linear interpolant with extrapolation returns.  The result is
   * the unique r for which (u, r) is collinear with the two samples.
   */
  function Line(x0: real, y0: real, x1: real, y1: real, u: real): (r: real)
    requires x0 != x1
    ensures (r - y0) * (x1 - x0) == (y1 - y0) * (u - x0)
  {
    var slope := (y1 - y0) / (x1 - x0);
    assert slope * (x1 - x0) == y1 - y0;
    y0 + slope * (u - x0)
  }

  /** The line passes through both of its samples. */
  lemma LineEndpoints(x0: real, y0: real, x1: real, y1: real)
    requires x0 != x1
    ensures Line(x0, y0, x1, y1, x0) == y0
    ensures Line(x0, y0, x1, y1, x1) == y1
  {
    var r := Line(x0, y0, x1, y1, x1);
    assert (r - y0) * (x1 - x0) == (y1 - y0) * (x1 - x0);
    LineUnique(x0, y0, x1, y1, x1, r, y1);
  }

  /** Collinearity pins the ordinate down: two collinear values at u coincide. */
  lemma LineUnique(x0: real, y0: real, x1: real, y1: real, u: real, r: real, s: real)
    requires x0 != x1
    requires (r - y0) * (x1 - x0) == (y1 - y0) * (u - x0)
    requires (s - y0) * (x1 - x0) == (y1 - y0) * (u - x0)
    ensures r == s
  {
    assert (r - s) * (x1 - x0) == 0.0;
  }

  /** The line takes value v at u exactly when (u, v) is collinear with the two samples. */
  lemma LineThrough(x0: real, y0: real, x1: real, y1: real, u: real, v: real)
    requires x0 != x1
    ensures Line(x0, y0, x1, y1, u) == v <==> (v - y0) * (x1 - x0) == (y1 - y0) * (u - x0)
  {
    if (v - y0) * (x1 - x0) == (y1 - y0) * (u - x0) {
      LineUnique(x0, y0, x1, y1, u, Line(x0, y0, x1, y1, u), v);
    }
  }

  /**
   * The order of the two samples does not matter, so a linear interpolant
   * that sorts its two samples first returns the same line.
   */
  lemma LineSymmetric(x0: real, y0: real, x1: real, y1: real, u: real)
    requires x0 != x1
    ensures Line(x0, y0, x1, y1, u) == Line(x1, y1, x0, y0, u)
  {
    var r := Line(x0, y0, x1, y1, u);
    var s := Line(x1, y1, x0, y0, u);
    assert (s - y1) * (x0 - x1) == (y0 - y1) * (u - x1);
    assert (s - y0) * (x1 - x0) == (y1 - y0) * (u - x0) by {
      calc {
        (s - y0) * (x1 - x0);
        (s - y1) * (x1 - x0) + (y1 - y0) * (x1 - x0);
        (y0 - y1) * (x1 - u) + (y1 - y0) * (x1 - x0);
        (y1 - y0) * (u - x0);
      }
    }
    LineUnique(x0, y0, x1, y1, u, r, s);
  }

  /** Between its two samples the line stays between their ordinates. */
  lemma LineBetween(x0: real, y0: real, x1: real, y1: real, u: real)
    requires x0 < x1 && x0 <= u <= x1
    ensures Min(y0, y1) <= Line(x0, y0, x1, y1, u) <= Max(y0, y1)
  {
    var r := Line(x0, y0, x1, y1, u);
    var d, w := x1 - x0, u - x0;
    assert (r - y0) * d == (y1 - y0) * w;
    assert (y1 - r) * d == (y1 - y0) * (d - w);
    if y0 <= y1 {
      NonNegativeProduct(y1 - y0, w);
      NonNegativeProduct(y1 - y0, d - w);
      NonNegativeFactor(r - y0, d);
      NonNegativeFactor(y1 - r, d);
    } else {
      NonNegativeProduct(y0 - y1, w);
      NonNegativeProduct(y0 - y1, d - w);
      assert (y0 - r) * d == (y0 - y1) * w;
      assert (r - y1) * d == (y0 - y1) * (d - w);
      NonNegativeFactor(y0 - r, d);
      NonNegativeFactor(r - y1, d);
    }
  }

  lemma NonNegativeProduct(p: real, q: real)
    requires p >= 0.0 && q >= 0.0
    ensures p * q >= 0.0
  {
  }

  lemma NonNegativeFactor(p: real, d: real)
    requires d > 0.0 && p * d >= 0.0
    ensures p >= 0.0
  {
  }
}
