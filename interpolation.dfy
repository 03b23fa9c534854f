/**
 * Equilibrium curves: piecewise-linear interpolation over samples with
 * linear extrapolation beyond the sampled range, as built by the
 * interpolant with fill_value "extrapolate".
 */
module Interpolation {
  import opened Reals

  /** Samples (xs[i], ys[i]) of one curve. */
  datatype Curve = Curve(xs: seq<real>, ys: seq<real>)

  predicate Increasing(s: seq<real>)
  {
    forall i, j :: 0 <= i < j < |s| ==> s[i] < s[j]
  }

  /** At least two samples, one ordinate per abscissa, abscissae strictly increasing. */
  predicate Valid(c: Curve)
  {
    2 <= |c.xs| && |c.ys| == |c.xs| && Increasing(c.xs)
  }

  /**
   * How many leading abscissae lie strictly below u: the insertion index
   * of u on the left side of a sorted array.
   */
  function Below(xs: seq<real>, u: real): (k: nat)
    ensures k <= |xs|
    ensures forall i :: 0 <= i < k ==> xs[i] < u
    ensures k < |xs| ==> u <= xs[k]
  {
    if xs == [] || u <= xs[0] then 0 else 1 + Below(xs[1..], u)
  }

  /** On increasing abscissae, each sample's own insertion index is its position. */
  lemma BelowSample(xs: seq<real>, i: nat)
    requires Increasing(xs) && i < |xs|
    ensures Below(xs, xs[i]) == i
  {
  }

  /** The segment used at u: the insertion index clipped to 1 .. |xs| - 1. */
  function Segment(c: Curve, u: real): (k: nat)
    requires Valid(c)
    ensures 1 <= k < |c.xs|
  {
    var k := Below(c.xs, u);
    if k < 1 then 1 else if k > |c.xs| - 1 then |c.xs| - 1 else k
  }

  /** Value of the curve at u, on the line through the two samples of its segment. */
  function Eval(c: Curve, u: real): real
    requires Valid(c)
  {
    var k := Segment(c, u);
    Line(c.xs[k - 1], c.ys[k - 1], c.xs[k], c.ys[k], u)
  }

  /** The curve passes through every sample. */
  lemma EvalAtSample(c: Curve, i: nat)
    requires Valid(c) && i < |c.xs|
    ensures Eval(c, c.xs[i]) == c.ys[i]
  {
    BelowSample(c.xs, i);
    if i == 0 {
      LineEndpoints(c.xs[0], c.ys[0], c.xs[1], c.ys[1]);
    } else {
      LineEndpoints(c.xs[i - 1], c.ys[i - 1], c.xs[i], c.ys[i]);
    }
  }

  /** Between two neighbouring samples the curve is the straight line joining them. */
  lemma EvalOnSegment(c: Curve, j: nat, u: real)
    requires Valid(c) && j + 1 < |c.xs|
    requires c.xs[j] <= u <= c.xs[j + 1]
    ensures Eval(c, u) == Line(c.xs[j], c.ys[j], c.xs[j + 1], c.ys[j + 1], u)
  {
    if u == c.xs[j] {
      EvalAtSample(c, j);
      LineEndpoints(c.xs[j], c.ys[j], c.xs[j + 1], c.ys[j + 1]);
    } else {
      assert Below(c.xs, u) == j + 1;
    }
  }

  /** Between two neighbouring samples the curve stays between their ordinates. */
  lemma EvalBetweenSamples(c: Curve, j: nat, u: real)
    requires Valid(c) && j + 1 < |c.xs|
    requires c.xs[j] <= u <= c.xs[j + 1]
    ensures Min(c.ys[j], c.ys[j + 1]) <= Eval(c, u) <= Max(c.ys[j], c.ys[j + 1])
  {
    EvalOnSegment(c, j, u);
    LineBetween(c.xs[j], c.ys[j], c.xs[j + 1], c.ys[j + 1], u);
  }

  /**
   * Outside the sampled range the curve never fails and never clamps: it
   * continues the first or the last segment.
   */
  lemma EvalExtrapolates(c: Curve, u: real)
    requires Valid(c)
    ensures u <= c.xs[0] ==> Eval(c, u) == Line(c.xs[0], c.ys[0], c.xs[1], c.ys[1], u)
    ensures var n := |c.xs|;
      u >= c.xs[n - 1] ==> Eval(c, u) == Line(c.xs[n - 2], c.ys[n - 2], c.xs[n - 1], c.ys[n - 1], u)
  {
  }
}
