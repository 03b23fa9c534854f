/**
 * The tie-line solver of one stage: the three equilibrium curves, the
 * residual of a candidate raffinate fraction, the grid scan for a bracket,
 * the bisection root finder and the resulting tie-line.
 */
module TieLineSolver {
  import opened Outcomes
  import opened Reals
  import opened Interpolation
  import opened MassBalance

  /**
   * The equilibrium diagram: the raffinate branch (X to Nr), the extract
   * branch (Y to Ne) and the distribution curve (X to Y).
   */
  datatype Diagram = Diagram(raffinate: Curve, extract: Curve, distribution: Curve)

  predicate DiagramValid(d: Diagram)
  {
    Valid(d.raffinate) && Valid(d.extract) && Valid(d.distribution)
  }

  predicate Convertible(samples: seq<Composition>)
  {
    forall i :: 0 <= i < |samples| ==> samples[i].a + samples[i].c != 0.0
  }

  /** Solute fraction of every sample. */
  function SoluteFractions(samples: seq<Composition>): (r: seq<real>)
    requires Convertible(samples)
    ensures |r| == |samples|
    ensures forall i :: 0 <= i < |r| ==> r[i] * (samples[i].a + samples[i].c) == samples[i].c
  {
    seq(|samples|, i requires 0 <= i < |samples| => SoluteFraction(samples[i]))
  }

  /** Carrier ratio of every sample. */
  function CarrierRatios(samples: seq<Composition>): (r: seq<real>)
    requires Convertible(samples)
    ensures |r| == |samples|
    ensures forall i :: 0 <= i < |r| ==> r[i] * (samples[i].a + samples[i].c) == samples[i].b
  {
    seq(|samples|, i requires 0 <= i < |samples| => CarrierRatio(samples[i]))
  }

  /**
   * The diagram built from the oil-phase and the propane-phase samples,
   * row i of one paired with row i of the other.  It can be evaluated
   * exactly when both tables have the same length of at least two and
   * both solute-fraction columns are strictly increasing.
   */
  function DiagramFrom(oil: seq<Composition>, propane: seq<Composition>): (d: Diagram)
    requires Convertible(oil) && Convertible(propane)
    ensures d.raffinate.xs == d.distribution.xs && d.extract.xs == d.distribution.ys
    ensures DiagramValid(d) <==>
      2 <= |oil| == |propane| && Increasing(SoluteFractions(oil)) && Increasing(SoluteFractions(propane))
  {
    var xs := SoluteFractions(oil);
    var ys := SoluteFractions(propane);
    Diagram(Curve(xs, CarrierRatios(oil)), Curve(ys, CarrierRatios(propane)), Curve(xs, ys))
  }

  /** Shift applied to a chord end that is too close to the other one. */
  const PERTURBATION: real := 1e-6

  /** The degenerate-chord guard as the source writes it. */
  function GuardAsWritten(x1: real, x2: real): real
  {
    if IsClose(x1, x2) then x2 + PERTURBATION else x2
  }

  /** The guard as written can move x2 exactly onto x1, leaving a zero-length chord. */
  lemma GuardAsWrittenCollides()
    ensures IsClose(0.500001, 0.5)
    ensures GuardAsWritten(0.500001, 0.5) == 0.500001
  {
  }

  /**
   * The degenerate-chord guard, corrected: it agrees with the source's guard
   * except where that one lands on x1, and the chord's abscissae always differ.
   */
  function Guard(x1: real, x2: real): (r: real)
    ensures r != x1
    ensures GuardAsWritten(x1, x2) != x1 ==> r == GuardAsWritten(x1, x2)
    ensures Abs(r - x2) <= PERTURBATION
  {
    IsCloseReflexive(x1);
    if !IsClose(x1, x2) then x2
    else if x2 + PERTURBATION == x1 then x2 - PERTURBATION
    else x2 + PERTURBATION
  }

  /**
   * The chord tried for candidate raffinate fraction x: from the raffinate
   * point (x, Nr(x)) to the extract point (x2, Ne(Y(x))), where x2 is Y(x)
   * after the degenerate-chord guard.
   */
  datatype Chord = Chord(x1: real, n1: real, x2: real, n2: real)

  function ChordOf(d: Diagram, x: real): (c: Chord)
    requires DiagramValid(d)
    ensures c.x1 != c.x2
  {
    var y := Eval(d.distribution, x);
    Chord(x, Eval(d.raffinate, x), Guard(x, y), Eval(d.extract, y))
  }

  /** The chord evaluated at the mixture's xm, minus the mixture's nm. */
  function ChordResidual(c: Chord, m: Mixture): real
    requires c.x1 != c.x2
  {
    Line(c.x1, c.n1, c.x2, c.n2, m.xm) - m.nm
  }

  /** Residual of candidate raffinate fraction x for mixture m. */
  function Residual(d: Diagram, m: Mixture, x: real): real
    requires DiagramValid(d)
  {
    ChordResidual(ChordOf(d, x), m)
  }

  /**
   * The residual of a chord vanishes exactly when the mixture point is
   * collinear with the chord's ends; Residual(d, m, x) is this residual for
   * the chord ChordOf(d, x).
   */
  lemma ChordResidualZeroIff(c: Chord, m: Mixture)
    requires c.x1 != c.x2
    ensures ChordResidual(c, m) == 0.0 <==> (m.nm - c.n1) * (c.x2 - c.x1) == (c.n2 - c.n1) * (m.xm - c.x1)
  {
    LineThrough(c.x1, c.n1, c.x2, c.n2, m.xm, m.nm);
  }

  /** Number of evenly spaced points of the bracket-search grid on [0, 1]. */
  const SAMPLES: nat := 20

  /** Grid point k of the bracket search: k / (SAMPLES - 1). */
  function GridPoint(k: nat): real
  {
    k as real / (SAMPLES - 1) as real
  }

  /** f changes sign from grid point k - 1 to grid point k: their product is negative. */
  predicate StepChanges(f: real -> real, k: nat)
    requires 1 <= k
  {
    OppositeSign(f(GridPoint(k - 1)), f(GridPoint(k)))
  }

  datatype Bracket = Bracket(a: real, b: real)

  /**
   * The bracket scan from grid index k with the current ends a and b: stop
   * at the first grid point whose value has the opposite sign from f(a),
   * otherwise move a onto that point.
   */
  function Scan(f: real -> real, a: real, b: real, k: nat): Bracket
    requires k <= SAMPLES
    decreases SAMPLES - k
  {
    if k == SAMPLES then Bracket(a, b)
    else if OppositeSign(f(a), f(GridPoint(k))) then Bracket(a, GridPoint(k))  // f(a) * f(b) < 0
    else Scan(f, GridPoint(k), GridPoint(k), k + 1)
  }

  /** The bracket the search ends with, starting from a = b = 0. */
  function FindBracket(f: real -> real): Bracket
  {
    Scan(f, 0.0, 0.0, 0)
  }

  lemma {:induction false} ScanFirstChange(f: real -> real, k: nat) returns (j: nat)
    requires 1 <= k <= SAMPLES
    decreases SAMPLES - k
    ensures k <= j <= SAMPLES
    ensures forall i :: k <= i < j ==> !StepChanges(f, i)
    ensures j < SAMPLES ==> StepChanges(f, j)
    ensures j < SAMPLES ==> Scan(f, GridPoint(k - 1), GridPoint(k - 1), k) == Bracket(GridPoint(j - 1), GridPoint(j))
    ensures j == SAMPLES ==> Scan(f, GridPoint(k - 1), GridPoint(k - 1), k) == Bracket(1.0, 1.0)
  {
    if k == SAMPLES {
      j := k;
    } else if StepChanges(f, k) {
      j := k;
    } else {
      j := ScanFirstChange(f, k + 1);
    }
  }

  /**
   * The bracket search stops at the first grid step j over which f changes
   * sign and returns a = GridPoint(j - 1), b = GridPoint(j); with no such step
   * it ends with a = b = 1.
   */
  lemma FindBracketFirstChange(f: real -> real) returns (j: nat)
    ensures 1 <= j <= SAMPLES
    ensures forall i :: 1 <= i < j ==> !StepChanges(f, i)
    ensures j < SAMPLES ==> StepChanges(f, j)
    ensures j < SAMPLES ==> FindBracket(f) == Bracket(GridPoint(j - 1), GridPoint(j))
    ensures j == SAMPLES ==> FindBracket(f) == Bracket(1.0, 1.0)
  {
    var f0 := f(0.0);
    NonNegativeProduct(Abs(f0), Abs(f0));
    assert f0 * f0 == Abs(f0) * Abs(f0);
    j := ScanFirstChange(f, 1);
  }

  /** Residual of the mixture m as a function of the candidate raffinate fraction. */
  function ResidualOf(d: Diagram, m: Mixture): (f: real -> real)
    requires DiagramValid(d)
    ensures forall x :: f(x) == Residual(d, m, x)
  {
    x => Residual(d, m, x)
  }

  /** Iteration budget and tolerances of the bisection root finder (its defaults). */
  const MAX_ITERATIONS: nat := 100
  const X_TOLERANCE: real := 2e-12
  const R_TOLERANCE: real := 8.881784197001252e-16  // four machine epsilons

  /** The bisection stops at midpoint xm once f(xm) is zero or the halved step dm is below tolerance. */
  predicate Converged(fm: real, dm: real, xm: real)
  {
    fm == 0.0 || Abs(dm) < X_TOLERANCE + R_TOLERANCE * Abs(xm)
  }

  /** p and q are both positive or both negative: p * q > 0. */
  predicate SameSign(p: real, q: real)
  {
    (p > 0.0 && q > 0.0) || (p < 0.0 && q < 0.0)
  }

  /** One of p and q is positive and the other negative: p * q < 0. */
  predicate OppositeSign(p: real, q: real)
  {
    (p > 0.0 && q < 0.0) || (p < 0.0 && q > 0.0)
  }

  /** The sign predicates are the product tests of the bisection routine. */
  lemma ProductSigns(p: real, q: real)
    ensures p * q > 0.0 <==> SameSign(p, q)
    ensures p * q < 0.0 <==> OppositeSign(p, q)
  {
  }

  /**
   * The bisection loop from iteration i: the step dm is halved, the left end
   * xa moves to the midpoint when f there has the sign of fa (the value at
   * the original left end, which is never re-evaluated).
   */
  function BisectLoop(f: real -> real, xa: real, fa: real, dm: real, i: nat): Result<real>
    requires i <= MAX_ITERATIONS
    decreases MAX_ITERATIONS - i
  {
    if i == MAX_ITERATIONS then Err(NotConverged)
    else
      var half := dm * 0.5;
      var xm := xa + half;
      var fm := f(xm);
      var next := if !OppositeSign(fm, fa) then xm else xa;  // f(xm) * fa >= 0
      if Converged(fm, half, xm) then Ok(xm)
      else BisectLoop(f, next, fa, half, i + 1)
  }

  /** Bisection on [a, b]: ends of equal sign are rejected, a zero at an end is returned at once. */
  function Bisect(f: real -> real, a: real, b: real): Result<real>
  {
    var fa, fb := f(a), f(b);
    if SameSign(fa, fb) then Err(SignMismatch)  // f(a) * f(b) > 0
    else if fa == 0.0 then Ok(a)
    else if fb == 0.0 then Ok(b)
    else BisectLoop(f, a, fa, b - a, 0)
  }

  /**
   * x is a root of f, or an end of an interval [lo, hi] narrower than the
   * tolerance at x over which f changes sign.
   */
  predicate NearRoot(f: real -> real, x: real, lo: real, hi: real)
  {
    lo <= x <= hi &&
    (f(x) == 0.0 || (OppositeSign(f(lo), f(hi)) && hi - lo < X_TOLERANCE + R_TOLERANCE * Abs(x)))
  }

  lemma {:induction false} BisectLoopSound(f: real -> real, xa: real, fa: real, dm: real, i: nat)
    returns (lo: real, hi: real)
    requires i <= MAX_ITERATIONS && dm > 0.0
    requires SameSign(f(xa), fa) && OppositeSign(f(xa + dm), fa)
    decreases MAX_ITERATIONS - i
    ensures BisectLoop(f, xa, fa, dm, i).Err? ==> BisectLoop(f, xa, fa, dm, i).error == NotConverged
    ensures BisectLoop(f, xa, fa, dm, i).Ok? ==>
      xa <= lo && hi <= xa + dm && NearRoot(f, BisectLoop(f, xa, fa, dm, i).value, lo, hi)
  {
    lo, hi := xa, xa;
    if i < MAX_ITERATIONS {
      var half := dm * 0.5;
      var xm := xa + half;
      var fm := f(xm);
      if Converged(fm, half, xm) {
        if fm == 0.0 {
          lo, hi := xm, xm;
        } else if !OppositeSign(fm, fa) {
          lo, hi := xm, xa + dm;
          ProductSigns(fm, f(xa + dm));
        } else {
          lo, hi := xa, xm;
          ProductSigns(f(xa), fm);
        }
      } else if !OppositeSign(fm, fa) {
        assert xm + half == xa + dm;
        lo, hi := BisectLoopSound(f, xm, fa, half, i + 1);
      } else {
        lo, hi := BisectLoopSound(f, xa, fa, half, i + 1);
      }
    }
  }

  /**
   * Bisection rejects [a, b] exactly when f has the same strict sign at both
   * ends; otherwise it either fails to converge or returns a point of [a, b]
   * that is a root or within tolerance of a sign change.
   */
  lemma BisectSound(f: real -> real, a: real, b: real) returns (lo: real, hi: real)
    requires a <= b
    ensures Bisect(f, a, b) == Err(SignMismatch) <==> SameSign(f(a), f(b))
    ensures Bisect(f, a, b).Err? ==> Bisect(f, a, b).error in {SignMismatch, NotConverged}
    ensures Bisect(f, a, b).Ok? ==> a <= lo && hi <= b && NearRoot(f, Bisect(f, a, b).value, lo, hi)
  {
    var fa, fb := f(a), f(b);
    lo, hi := a, a;
    ProductSigns(fa, fb);
    if SameSign(fa, fb) {
    } else if fa == 0.0 {
    } else if fb == 0.0 {
      lo, hi := b, b;
    } else {
      assert a + (b - a) == b;
      lo, hi := BisectLoopSound(f, a, fa, b - a, 0);
    }
  }

  function Pow2(k: nat): real
  {
    if k == 0 then 1.0 else 2.0 * Pow2(k - 1)
  }

  lemma {:induction false} Pow2Positive(k: nat)
    ensures Pow2(k) >= 1.0
  {
    if k > 0 {
      Pow2Positive(k - 1);
    }
  }

  lemma {:induction false} Pow2Add(j: nat, k: nat)
    ensures Pow2(j + k) == Pow2(j) * Pow2(k)
  {
    if k > 0 {
      Pow2Add(j, k - 1);
      assert Pow2(j + k) == 2.0 * Pow2(j + k - 1);
    }
  }

  /** 2^100 bisection steps shrink any interval of length 1 below the absolute tolerance. */
  lemma BudgetSuffices()
    ensures 1.0 < X_TOLERANCE * Pow2(MAX_ITERATIONS)
  {
    assert Pow2(1) == 2.0;
    assert Pow2(2) == 4.0;
    assert Pow2(3) == 8.0;
    assert Pow2(4) == 16.0;
    assert Pow2(5) == 32.0;
    Pow2Add(5, 5);
    Pow2Add(10, 10);
    Pow2Add(20, 20);
    Pow2Add(40, 60);
    Pow2Positive(60);
    assert Pow2(40) == 1099511627776.0;
  }

  lemma {:induction false} BisectLoopConverges(f: real -> real, xa: real, fa: real, dm: real, i: nat)
    requires i < MAX_ITERATIONS && 0.0 < dm < X_TOLERANCE * Pow2(MAX_ITERATIONS - i)
    decreases MAX_ITERATIONS - i
    ensures BisectLoop(f, xa, fa, dm, i).Ok?
  {
    var half := dm * 0.5;
    var xm := xa + half;
    var fm := f(xm);
    if !Converged(fm, half, xm) {
      var next := if !OppositeSign(fm, fa) then xm else xa;
      assert X_TOLERANCE <= half < X_TOLERANCE * Pow2(MAX_ITERATIONS - i - 1);
      BisectLoopConverges(f, next, fa, half, i + 1);
    }
  }

  /** On an interval of length at most 1 the bisection never runs out of iterations. */
  lemma BisectConverges(f: real -> real, a: real, b: real)
    requires a <= b <= a + 1.0
    ensures Bisect(f, a, b) != Err(NotConverged)
  {
    var fa, fb := f(a), f(b);
    if OppositeSign(fa, fb) {
      assert a != b;
      BudgetSuffices();
      assert b - a < X_TOLERANCE * Pow2(MAX_ITERATIONS - 0);
      BisectLoopConverges(f, a, fa, b - a, 0);
    }
  }

  /** The two equilibrium points of a stage: raffinate (x, nr) and extract (y, ne). */
  datatype TieLine = TieLine(x: real, nr: real, y: real, ne: real)

  /** The tie-line through the root at x: the raffinate, distribution and extract curves at x. */
  function TieLineAt(d: Diagram, x: real): TieLine
    requires DiagramValid(d)
  {
    var y := Eval(d.distribution, x);
    TieLine(x, Eval(d.raffinate, x), y, Eval(d.extract, y))
  }

  /**
   * The root the search settles on for residual f: scan the grid for a
   * bracket and bisect it.  A bracket whose ends have the same sign becomes
   * RootNotFound naming that bracket.
   */
  function FindRoot(f: real -> real): Result<real>
  {
    var bracket := FindBracket(f);
    match Bisect(f, bracket.a, bracket.b)
    case Err(SignMismatch) => Err(RootNotFound(bracket.a, bracket.b))
    case Err(e) => Err(e)
    case Ok(x) => Ok(x)
  }

  lemma GridPointInUnit(k: nat)
    requires k < SAMPLES
    ensures 0.0 <= GridPoint(k) <= 1.0
    ensures k >= 1 ==> GridPoint(k) - GridPoint(k - 1) == 1.0 / 19.0
  {
  }

  /**
   * A root found lies in [0, 1] and is a root of f or within tolerance of
   * a sign change of f inside [0, 1].
   */
  lemma FindRootSound(f: real -> real) returns (lo: real, hi: real)
    ensures FindRoot(f).Ok? ==> 0.0 <= lo && hi <= 1.0 && NearRoot(f, FindRoot(f).value, lo, hi)
  {
    var j := FindBracketFirstChange(f);
    var bracket := FindBracket(f);
    GridPointInUnit(j - 1);
    if j < SAMPLES {
      GridPointInUnit(j);
    }
    lo, hi := BisectSound(f, bracket.a, bracket.b);
  }

  /**
   * The search fails exactly when no grid step changes sign and f(1) is not
   * zero, and the failure then always names the bracket (1, 1): the
   * bisection never runs out of iterations on a grid step.
   */
  lemma FindRootFails(f: real -> real)
    ensures FindRoot(f).Err? <==> (forall j :: 1 <= j < SAMPLES ==> !StepChanges(f, j)) && f(1.0) != 0.0
    ensures FindRoot(f).Err? ==> FindRoot(f).error == RootNotFound(1.0, 1.0)
  {
    var j := FindBracketFirstChange(f);
    if j < SAMPLES {
      BracketedRootFound(f, j);
    } else {
      UnbracketedRoot(f);
    }
  }

  /** A bracket on a grid step always yields a root. */
  lemma BracketedRootFound(f: real -> real, j: nat)
    requires 1 <= j < SAMPLES && StepChanges(f, j)
    requires FindBracket(f) == Bracket(GridPoint(j - 1), GridPoint(j))
    ensures FindRoot(f).Ok?
  {
    var a, b := GridPoint(j - 1), GridPoint(j);
    GridPointInUnit(j);
    BisectConverges(f, a, b);
    var _, _ := BisectSound(f, a, b);
  }

  /** With the bracket (1, 1) the search succeeds exactly when f(1) is zero. */
  lemma UnbracketedRoot(f: real -> real)
    requires FindBracket(f) == Bracket(1.0, 1.0)
    ensures FindRoot(f).Err? <==> f(1.0) != 0.0
    ensures FindRoot(f).Err? ==> FindRoot(f).error == RootNotFound(1.0, 1.0)
  {
    ProductSigns(f(1.0), f(1.0));
  }

  /** The tie-line of mixture m: the three curves read at the residual's root. */
  function SolveTieLine(d: Diagram, m: Mixture): Result<TieLine>
    requires DiagramValid(d)
  {
    match FindRoot(ResidualOf(d, m))
    case Err(e) => Err(e)
    case Ok(x) => Ok(TieLineAt(d, x))
  }

  /**
   * A solved tie-line lies on all three curves at a raffinate fraction in
   * [0, 1] that is a root of the residual or within tolerance of a sign
   * change of it inside [0, 1].
   */
  lemma SolveTieLineSound(d: Diagram, m: Mixture) returns (lo: real, hi: real)
    requires DiagramValid(d)
    ensures SolveTieLine(d, m).Ok? ==>
      var t := SolveTieLine(d, m).value;
      && 0.0 <= lo && hi <= 1.0 && NearRoot(ResidualOf(d, m), t.x, lo, hi)
      && t.nr == Eval(d.raffinate, t.x)
      && t.y == Eval(d.distribution, t.x)
      && t.ne == Eval(d.extract, t.y)
  {
    lo, hi := FindRootSound(ResidualOf(d, m));
  }

  /**
   * The tie-line search fails exactly when no grid step changes the
   * residual's sign and the residual at 1 is not zero; the failure names
   * the bracket (1, 1).
   */
  lemma SolveTieLineFails(d: Diagram, m: Mixture)
    requires DiagramValid(d)
    ensures SolveTieLine(d, m).Err? <==>
      (forall j :: 1 <= j < SAMPLES ==> !StepChanges(ResidualOf(d, m), j)) && ResidualOf(d, m)(1.0) != 0.0
    ensures SolveTieLine(d, m).Err? ==> SolveTieLine(d, m).error == RootNotFound(1.0, 1.0)
  {
    FindRootFails(ResidualOf(d, m));
  }

  /**
   * The grid scan with its early exit, then the bisection of the bracket
   * found; a rejected bracket becomes RootNotFound naming it.
   */
  method SearchRoot(f: real -> real) returns (r: Result<real>)
    ensures r == FindRoot(f)
  {
    var a, b := 0.0, 0.0;
    for k := 0 to SAMPLES
      invariant Scan(f, a, b, k) == FindBracket(f)
    {
      b := GridPoint(k);
      ProductSigns(f(a), f(b));
      if f(a) * f(b) < 0.0 {
        break;
      }
      a := b;
    }
    assert FindBracket(f) == Bracket(a, b);
    match Bisect(f, a, b) {
      case Err(SignMismatch) =>
        r := Err(RootNotFound(a, b));
      case Err(e) =>
        r := Err(e);
      case Ok(x) =>
        r := Ok(x);
    }
  }

  /** The tie-line search of one stage, on the residual of mixture m. */
  method Aproximar(m: Mixture, d: Diagram) returns (r: Result<TieLine>)
    requires DiagramValid(d)
    ensures r == SolveTieLine(d, m)
  {
    var root := SearchRoot(ResidualOf(d, m));
    match root {
      case Err(e) =>
        r := Err(e);
      case Ok(x) =>
        r := Ok(TieLineAt(d, x));
    }
  }
}
