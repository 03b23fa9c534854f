/**
 * Mass balances of one extraction stage: ratios on the solvent-free basis,
 * the solvent's validation and conversion, the effective solvent mass, the
 * mixture point, the lever rule and the conversion of the extract back to a
 * carrier-included basis.
 *
 * Components: A is the oil, B the propane carrier, C the oleic acid solute.
 */
module MassBalance {
  import opened Outcomes
  import opened Reals

  /** Mass fractions (A, B, C) of one sample or of the solvent. */
  datatype Composition = Composition(a: real, b: real, c: real)

  /** A raffinate-like stream on the solvent-free basis: mass, solute fraction x, carrier ratio n. */
  datatype Stream = Stream(mass: real, x: real, n: real)

  /** The solvent: mass, solute fraction ys and carrier ratio ns on the carrier-free basis. */
  datatype Solvent = Solvent(mass: real, ys: real, ns: real)

  /** The mixture point of one stage. */
  datatype Mixture = Mixture(mass: real, xm: real, nm: real)

  /** Solute fraction on the solvent-free basis, C / (A + C). */
  function SoluteFraction(t: Composition): (r: real)
    requires t.a + t.c != 0.0
    ensures r * (t.a + t.c) == t.c
  {
    t.c / (t.a + t.c)
  }

  /** Carrier ratio on the solvent-free basis, B / (A + C). */
  function CarrierRatio(t: Composition): (r: real)
    requires t.a + t.c != 0.0
    ensures r * (t.a + t.c) == t.b
  {
    t.b / (t.a + t.c)
  }

  /**
   * For a physical sample (non-negative fractions, some oil or acid) the
   * solute fraction lies in [0, 1] and the carrier ratio is non-negative.
   */
  lemma RatiosInRange(t: Composition)
    requires t.a >= 0.0 && t.b >= 0.0 && t.c >= 0.0 && t.a + t.c > 0.0
    ensures 0.0 <= SoluteFraction(t) <= 1.0
    ensures CarrierRatio(t) >= 0.0
  {
    var s := t.a + t.c;
    var x := SoluteFraction(t);
    var n := CarrierRatio(t);
    NonNegativeFactor(x, s);
    assert (1.0 - x) * s == t.a;
    NonNegativeFactor(1.0 - x, s);
    NonNegativeFactor(n, s);
  }

  /** Largest admissible deviation of the solvent's A + B + C from 1. */
  const COMPOSITION_TOLERANCE: real := 1e-3

  predicate Normalised(t: Composition)
  {
    Abs(t.a + t.b + t.c - 1.0) < COMPOSITION_TOLERANCE
  }

  /**
   * Validates the solvent composition and converts it to its carrier-free
   * ratios.  A validated solvent never has 1 + ns == 0, so its effective
   * mass is always defined.
   */
  function SolventFrom(mass: real, t: Composition): (r: Result<Solvent>)
    ensures r == Err(SolventNotNormalised) <==> !Normalised(t)
    ensures r == Err(DivisionByZero) <==> Normalised(t) && t.a + t.c == 0.0
    ensures r.Ok? ==> r.value.mass == mass
    ensures r.Ok? ==> r.value.ys * (t.a + t.c) == t.c && r.value.ns * (t.a + t.c) == t.b
    ensures r.Ok? ==> 1.0 + r.value.ns != 0.0
  {
    if !Normalised(t) then Err(SolventNotNormalised)
    else if t.a + t.c == 0.0 then Err(DivisionByZero)
    else
      var ns := CarrierRatio(t);
      assert (1.0 + ns) * (t.a + t.c) == t.a + t.b + t.c;
      Ok(Solvent(mass, SoluteFraction(t), ns))
  }

  /** Effective (carrier-free) solvent mass s' = S.mass / (1 + ns). */
  function EffectiveSolvent(s: Solvent): (r: real)
    requires 1.0 + s.ns != 0.0
    ensures r * (1.0 + s.ns) == s.mass
    ensures s.mass > 0.0 && s.ns >= 0.0 ==> 0.0 < r <= s.mass
  {
    var r := s.mass / (1.0 + s.ns);
    assert r * (1.0 + s.ns) == s.mass;
    assert s.mass > 0.0 && s.ns >= 0.0 ==> r > 0.0 && r <= r * (1.0 + s.ns);
    r
  }

  /**
   * The mixture point of a stream and the solvent.  The mixture's mass is
   * the stream's plus the effective solvent's, and solute and carrier are
   * each conserved; a zero mixture mass is a division by zero.
   */
  function MixturePoint(f: Stream, s: Solvent): (r: Result<Mixture>)
    requires 1.0 + s.ns != 0.0
    ensures r.Err? <==> f.mass + EffectiveSolvent(s) == 0.0
    ensures r.Err? ==> r.error == DivisionByZero
    ensures r.Ok? ==> r.value.mass == f.mass + EffectiveSolvent(s)
    ensures r.Ok? ==> r.value.mass * r.value.xm == f.mass * f.x + EffectiveSolvent(s) * s.ys
    ensures r.Ok? ==> r.value.mass * r.value.nm == f.mass * f.n + EffectiveSolvent(s) * s.ns
  {
    var sp := EffectiveSolvent(s);
    var mm := f.mass + sp;
    if mm == 0.0 then Err(DivisionByZero)
    else Ok(Mixture(mm, (f.mass * f.x + sp * s.ys) / mm, (f.mass * f.n + sp * s.ns) / mm))
  }

  /**
   * When both the stream and the effective solvent have positive mass, the
   * mixture lies between them on both axes.
   */
  lemma MixtureBetween(f: Stream, s: Solvent)
    requires 1.0 + s.ns != 0.0
    requires f.mass > 0.0 && EffectiveSolvent(s) > 0.0
    ensures MixturePoint(f, s).Ok?
    ensures Min(f.x, s.ys) <= MixturePoint(f, s).value.xm <= Max(f.x, s.ys)
    ensures Min(f.n, s.ns) <= MixturePoint(f, s).value.nm <= Max(f.n, s.ns)
  {
    var m := MixturePoint(f, s).value;
    var sp := EffectiveSolvent(s);
    WeightedMeanBetween(f.mass, f.x, sp, s.ys, m.mass, m.xm);
    WeightedMeanBetween(f.mass, f.n, sp, s.ns, m.mass, m.nm);
  }

  /** A two-term weighted mean with positive weights lies between its two values. */
  lemma WeightedMeanBetween(p: real, u: real, q: real, v: real, total: real, mean: real)
    requires p > 0.0 && q > 0.0 && total == p + q && total * mean == p * u + q * v
    ensures Min(u, v) <= mean <= Max(u, v)
  {
    assert total * (mean - u) == q * (v - u);
    assert total * (mean - v) == p * (u - v);
    if u <= v {
      NonNegativeProduct(q, v - u);
      NonNegativeProduct(p, v - u);
      NonNegativeFactor(mean - u, total);
      NonNegativeFactor(v - mean, total);
    } else {
      NonNegativeProduct(q, u - v);
      NonNegativeProduct(p, u - v);
      NonNegativeFactor(u - mean, total);
      NonNegativeFactor(mean - v, total);
    }
  }

  /**
   * Inverse lever rule: splits the mixture into carrier-free raffinate and
   * extract masses given the tie-line's ends x (raffinate) and y (extract).
   * The two masses are the unique pair that conserves both total mass and
   * solute; coinciding ends are a division by zero.
   */
  function LeverSplit(m: Mixture, x: real, y: real): (r: Result<(real, real)>)
    ensures r.Err? <==> y == x
    ensures r.Err? ==> r.error == DivisionByZero
    ensures r.Ok? ==> r.value.0 + r.value.1 == m.mass
    ensures r.Ok? ==> r.value.0 * x + r.value.1 * y == m.mass * m.xm
  {
    if y == x then Err(DivisionByZero)
    else
      var raffinate := m.mass * (y - m.xm) / (y - x);
      var extract := m.mass * (m.xm - x) / (y - x);
      assert raffinate * (y - x) == m.mass * (y - m.xm);
      assert extract * (y - x) == m.mass * (m.xm - x);
      assert (raffinate + extract) * (y - x) == m.mass * (y - x);
      assert (raffinate * x + extract * y) * (y - x) == m.mass * m.xm * (y - x);
      Ok((raffinate, extract))
  }

  /**
   * For a mixture of positive mass, both lever-rule masses are non-negative
   * exactly when the mixture lies between the tie-line's ends.
   */
  lemma LeverNonNegative(m: Mixture, x: real, y: real)
    requires m.mass > 0.0 && x != y
    ensures LeverSplit(m, x, y).Ok?
    ensures var (raffinate, extract) := LeverSplit(m, x, y).value;
      raffinate >= 0.0 && extract >= 0.0 <==> Min(x, y) <= m.xm <= Max(x, y)
  {
    var (raffinate, extract) := LeverSplit(m, x, y).value;
    assert raffinate * (y - x) == m.mass * (y - m.xm);
    assert extract * (y - x) == m.mass * (m.xm - x);
    if x < y {
      SignOfQuotient(raffinate, y - x, m.mass, y - m.xm);
      SignOfQuotient(extract, y - x, m.mass, m.xm - x);
    } else {
      assert raffinate * (x - y) == m.mass * (m.xm - y);
      assert extract * (x - y) == m.mass * (x - m.xm);
      SignOfQuotient(raffinate, x - y, m.mass, m.xm - y);
      SignOfQuotient(extract, x - y, m.mass, x - m.xm);
    }
  }

  /** With positive d and p, r * d == p * q makes r and q share their sign. */
  lemma SignOfQuotient(r: real, d: real, p: real, q: real)
    requires d > 0.0 && p > 0.0 && r * d == p * q
    ensures r >= 0.0 <==> q >= 0.0
  {
    if q >= 0.0 {
      NonNegativeProduct(p, q);
      NonNegativeFactor(r, d);
    }
    if r >= 0.0 {
      NonNegativeProduct(r, d);
      NonNegativeFactor(q, p);
    }
  }

  /**
   * Converts a carrier-free extract mass at tie-line end (y, ne) to the
   * carrier-included mass and solute fraction: the carrier ePrime * ne is
   * added and the solute mass is kept.
   */
  function ExtractActual(ePrime: real, y: real, ne: real): (r: Result<(real, real)>)
    ensures r.Err? <==> 1.0 + ne == 0.0
    ensures r.Err? ==> r.error == DivisionByZero
    ensures r.Ok? ==> r.value.0 == ePrime + ePrime * ne
    ensures r.Ok? ==> r.value.1 * (1.0 + ne) == y
    ensures r.Ok? ==> r.value.0 * r.value.1 == ePrime * y
  {
    if 1.0 + ne == 0.0 then Err(DivisionByZero)
    else
      var mass := ePrime * (1.0 + ne);
      var fraction := y / (1.0 + ne);
      assert fraction * (1.0 + ne) == y;
      assert mass * fraction == ePrime * (fraction * (1.0 + ne));
      Ok((mass, fraction))
  }
}
