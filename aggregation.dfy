/**
 * Composite extract: the total of the stage extract masses and the
 * mass-weighted mean of the stage extract fractions.
 */
module Aggregation {
  import opened Outcomes
  import opened Reals

  /** Left-to-right sum of the masses. */
  function Sum(ms: seq<real>): real
  {
    if ms == [] then 0.0 else Sum(ms[..|ms| - 1]) + ms[|ms| - 1]
  }

  /** Left-to-right sum of the products ms[i] * ys[i]. */
  function Dot(ms: seq<real>, ys: seq<real>): real
    requires |ms| == |ys|
  {
    if ms == [] then 0.0 else Dot(ms[..|ms| - 1], ys[..|ys| - 1]) + ms[|ms| - 1] * ys[|ys| - 1]
  }

  /**
   * Total extract mass and mass-weighted mean fraction.  The mean is the
   * fraction whose product with the total is the total solute; a zero
   * total, in particular no stage at all, is a division by zero.
   */
  function Composite(ms: seq<real>, ys: seq<real>): (r: Result<(real, real)>)
    requires |ms| == |ys|
    ensures r.Err? <==> Sum(ms) == 0.0
    ensures r.Err? ==> r.error == DivisionByZero
    ensures |ms| == 0 ==> r.Err?
    ensures r.Ok? ==> r.value.0 == Sum(ms) && r.value.1 * r.value.0 == Dot(ms, ys)
  {
    var total := Sum(ms);
    if total == 0.0 then Err(DivisionByZero) else Ok((total, Dot(ms, ys) / total))
  }

  /** With non-negative masses, the weighted sum lies between lo and hi times the total mass. */
  lemma {:induction false} DotBounds(ms: seq<real>, ys: seq<real>, lo: real, hi: real)
    requires |ms| == |ys|
    requires forall i :: 0 <= i < |ms| ==> ms[i] >= 0.0 && lo <= ys[i] <= hi
    ensures lo * Sum(ms) <= Dot(ms, ys) <= hi * Sum(ms)
  {
    if ms != [] {
      var k := |ms| - 1;
      var m, y := ms[k], ys[k];
      var s, d := Sum(ms[..k]), Dot(ms[..k], ys[..k]);
      DotBounds(ms[..k], ys[..k], lo, hi);
      assert Sum(ms) == s + m;
      assert Dot(ms, ys) == d + m * y;
      NonNegativeProduct(m, y - lo);
      NonNegativeProduct(m, hi - y);
      assert lo * (s + m) == lo * s + m * lo;
      assert hi * (s + m) == hi * s + m * hi;
    }
  }

  /**
   * With non-negative masses and a positive total, the composite fraction
   * lies between the smallest and the largest stage fraction.
   */
  lemma CompositeBetween(ms: seq<real>, ys: seq<real>, lo: real, hi: real)
    requires |ms| == |ys|
    requires forall i :: 0 <= i < |ms| ==> ms[i] >= 0.0 && lo <= ys[i] <= hi
    requires Sum(ms) > 0.0
    ensures Composite(ms, ys).Ok?
    ensures lo <= Composite(ms, ys).value.1 <= hi
  {
    var (total, mean) := Composite(ms, ys).value;
    DotBounds(ms, ys, lo, hi);
    assert total * (mean - lo) >= 0.0;
    assert total * (hi - mean) >= 0.0;
    NonNegativeFactor(mean - lo, total);
    NonNegativeFactor(hi - mean, total);
  }
}
