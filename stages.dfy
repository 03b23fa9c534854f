/**
 * The countercurrent-free cascade: fresh solvent of the same composition is
 * added to every stage, the raffinate of one stage is the feed of the next,
 * and the stage extracts are pooled into one composite extract.
 */
module Stages {
  import opened Outcomes
  import opened Interpolation
  import opened MassBalance
  import opened Aggregation
  import opened TieLineSolver

  /**
   * Everything one stage computes: its feed, the mixture point, the
   * tie-line through it, the carrier-free raffinate and extract masses of
   * the lever rule, and the extract's carrier-included mass and fraction.
   */
  datatype StageRecord = StageRecord(
    feed: Stream,
    mixture: Mixture,
    tie: TieLine,
    raffinateFree: real,
    extractFree: real,
    extractMass: real,
    extractFraction: real)

  /** The raffinate a stage leaves, which is the next stage's feed. */
  function Raffinate(rec: StageRecord): (f: Stream)
    ensures f.mass == rec.raffinateFree && f.x == rec.tie.x && f.n == rec.tie.nr
  {
    Stream(rec.raffinateFree, rec.tie.x, rec.tie.nr)
  }

  /** The feed of the stage after the stages recs, starting from feed f0. */
  function FeedAfter(f0: Stream, recs: seq<StageRecord>): Stream
  {
    if recs == [] then f0 else Raffinate(recs[|recs| - 1])
  }

  /**
   * The part of a stage after its tie-line t through mixture m is known:
   * the lever rule and the conversion of the extract to carrier-included
   * terms.  It fails when the tie-line's ends coincide or when the
   * extract's carrier ratio is -1; otherwise the carrier-free masses add up
   * to the mixture's and carry its solute.
   */
  function Settle(f: Stream, m: Mixture, t: TieLine): (r: Result<StageRecord>)
    ensures r.Err? <==> t.x == t.y || 1.0 + t.ne == 0.0
    ensures r.Err? ==> r.error == DivisionByZero
    ensures r.Ok? ==>
      var rec := r.value;
      && rec.feed == f && rec.mixture == m && rec.tie == t
      && rec.raffinateFree + rec.extractFree == m.mass
      && rec.raffinateFree * t.x + rec.extractFree * t.y == m.mass * m.xm
      && rec.extractMass == rec.extractFree + rec.extractFree * t.ne
      && rec.extractMass * rec.extractFraction == rec.extractFree * t.y
  {
    match LeverSplit(m, t.x, t.y)
    case Err(e) => Err(e)
    case Ok(split) =>
      match ExtractActual(split.1, t.y, t.ne)
      case Err(e) => Err(e)
      case Ok(extract) => Ok(StageRecord(f, m, t, split.0, split.1, extract.0, extract.1))
  }

  /**
   * One stage on feed f with solvent s: the mixture point, its tie-line as
   * given by the tie-line solver tie, then Settle.  Besides Settle's
   * failures it fails when the mixture mass is zero or when the solver
   * fails on the mixture.
   */
  function Stage(tie: Mixture -> Result<TieLine>, s: Solvent, f: Stream): (r: Result<StageRecord>)
    requires 1.0 + s.ns != 0.0
    ensures f.mass + EffectiveSolvent(s) == 0.0 ==> r == Err(DivisionByZero)
    ensures r.Err? ==>
      r.error == DivisionByZero || (MixturePoint(f, s).Ok? && tie(MixturePoint(f, s).value) == Err(r.error))
    ensures r.Ok? ==>
      && MixturePoint(f, s) == Ok(r.value.mixture)
      && tie(r.value.mixture) == Ok(r.value.tie)
      && Settle(f, r.value.mixture, r.value.tie) == r
  {
    match MixturePoint(f, s)
    case Err(e) => Err(e)
    case Ok(m) =>
      match tie(m)
      case Err(e) => Err(e)
      case Ok(t) => Settle(f, m, t)
  }

  /**
   * The balances one stage on feed f keeps: raffinate and extract together
   * hold the feed plus the carrier-free solvent, in mass and in solute, and
   * the carrier-included extract holds the solute of the carrier-free one.
   */
  predicate StageBalanced(s: Solvent, f: Stream, rec: StageRecord)
    requires 1.0 + s.ns != 0.0
  {
    && rec.raffinateFree + rec.extractFree == f.mass + EffectiveSolvent(s)
    && rec.raffinateFree * rec.tie.x + rec.extractFree * rec.tie.y == f.mass * f.x + EffectiveSolvent(s) * s.ys
    && rec.extractMass * rec.extractFraction == rec.extractFree * rec.tie.y
  }

  /**
   * Balance of one stage: it works on the feed it is given and keeps the
   * balances of StageBalanced.
   */
  lemma StageBalance(tie: Mixture -> Result<TieLine>, s: Solvent, f: Stream)
    requires 1.0 + s.ns != 0.0
    requires Stage(tie, s, f).Ok?
    ensures Stage(tie, s, f).value.feed == f
    ensures StageBalanced(s, f, Stage(tie, s, f).value)
  {
    var rec := Stage(tie, s, f).value;
    SettledBalance(f, s, rec);
  }

  /** A record settled from the mixture of feed f and solvent s balances feed plus solvent. */
  lemma SettledBalance(f: Stream, s: Solvent, rec: StageRecord)
    requires 1.0 + s.ns != 0.0
    requires MixturePoint(f, s) == Ok(rec.mixture)
    requires Settle(f, rec.mixture, rec.tie) == Ok(rec)
    ensures StageBalanced(s, f, rec)
  {
  }

  /** A stage succeeds whenever none of its failure conditions holds. */
  lemma StageSucceeds(tie: Mixture -> Result<TieLine>, s: Solvent, f: Stream)
    requires 1.0 + s.ns != 0.0
    requires f.mass + EffectiveSolvent(s) != 0.0
    requires tie(MixturePoint(f, s).value).Ok?
    requires var t := tie(MixturePoint(f, s).value).value; t.x != t.y && 1.0 + t.ne != 0.0
    ensures Stage(tie, s, f).Ok?
  {
  }

  /** The first n stages from feed f0, each fed by the raffinate of the one before. */
  function Run(tie: Mixture -> Result<TieLine>, s: Solvent, f0: Stream, n: nat): (r: Result<seq<StageRecord>>)
    requires 1.0 + s.ns != 0.0
    ensures r.Ok? ==> |r.value| == n
    ensures r.Err? ==> n > 0
  {
    if n == 0 then Ok([])
    else
      match Run(tie, s, f0, n - 1)
      case Err(e) => Err(e)
      case Ok(recs) =>
        match Stage(tie, s, FeedAfter(f0, recs))
        case Err(e) => Err(e)
        case Ok(rec) => Ok(recs + [rec])
  }

  /** A run fails only with a zero mixture mass or with a failure of the tie-line solver. */
  lemma {:induction false} RunFailure(tie: Mixture -> Result<TieLine>, s: Solvent, f0: Stream, n: nat)
    requires 1.0 + s.ns != 0.0
    requires Run(tie, s, f0, n).Err?
    ensures var e := Run(tie, s, f0, n).error; e == DivisionByZero || exists m :: tie(m) == Err(e)
  {
    var prev := Run(tie, s, f0, n - 1);
    if prev.Err? {
      RunFailure(tie, s, f0, n - 1);
    } else {
      var f := FeedAfter(f0, prev.value);
      if Stage(tie, s, f).error != DivisionByZero {
        assert tie(MixturePoint(f, s).value) == Err(Run(tie, s, f0, n).error);
      }
    }
  }

  /**
   * Every record of a run is the stage computed on the raffinate of the
   * record before it, the first one on the initial feed.
   */
  lemma {:induction false} RunChain(tie: Mixture -> Result<TieLine>, s: Solvent, f0: Stream, n: nat)
    requires 1.0 + s.ns != 0.0
    requires Run(tie, s, f0, n).Ok?
    ensures var recs := Run(tie, s, f0, n).value;
      forall i :: 0 <= i < |recs| ==> Stage(tie, s, FeedAfter(f0, recs[..i])) == Ok(recs[i])
  {
    if n > 0 {
      RunChain(tie, s, f0, n - 1);
      var prev := Run(tie, s, f0, n - 1).value;
      var recs := Run(tie, s, f0, n).value;
      assert recs[..n - 1] == prev;
      forall i | 0 <= i < |recs|
        ensures Stage(tie, s, FeedAfter(f0, recs[..i])) == Ok(recs[i])
      {
        if i < n - 1 {
          assert recs[..i] == prev[..i];
        }
      }
    }
  }

  /**
   * Running fewer stages gives a prefix of a longer run, and a failure in
   * the first k stages is the failure of every longer run.
   */
  lemma {:induction false} RunPrefix(tie: Mixture -> Result<TieLine>, s: Solvent, f0: Stream, k: nat, n: nat)
    requires 1.0 + s.ns != 0.0
    requires k <= n
    ensures Run(tie, s, f0, n).Ok? ==> Run(tie, s, f0, k) == Ok(Run(tie, s, f0, n).value[..k])
    ensures Run(tie, s, f0, k).Err? ==> Run(tie, s, f0, n) == Run(tie, s, f0, k)
    decreases n
  {
    if k < n {
      RunPrefix(tie, s, f0, k, n - 1);
      if Run(tie, s, f0, n).Ok? {
        var recs := Run(tie, s, f0, n).value;
        assert recs[..n - 1][..k] == recs[..k];
      }
    } else {
      if Run(tie, s, f0, n).Ok? {
        assert Run(tie, s, f0, n).value[..n] == Run(tie, s, f0, n).value;
      }
    }
  }

  /** Total carrier-free extract mass of the stages. */
  function FreeExtract(recs: seq<StageRecord>): real
  {
    if |recs| == 0 then 0.0 else FreeExtract(recs[..|recs| - 1]) + recs[|recs| - 1].extractFree
  }

  /** Total solute in the carrier-free extracts, each at its tie-line's extract end. */
  function FreeExtractSolute(recs: seq<StageRecord>): real
  {
    if |recs| == 0 then 0.0
    else FreeExtractSolute(recs[..|recs| - 1]) + recs[|recs| - 1].extractFree * recs[|recs| - 1].tie.y
  }

  /** Total solute in the carrier-included extracts. */
  function ExtractSolute(recs: seq<StageRecord>): real
  {
    if |recs| == 0 then 0.0
    else ExtractSolute(recs[..|recs| - 1]) + recs[|recs| - 1].extractMass * recs[|recs| - 1].extractFraction
  }

  /** k equal portions of v, added one at a time. */
  function Portions(k: nat, v: real): real
  {
    if k == 0 then 0.0 else Portions(k - 1, v) + v
  }

  /** k portions of v amount to k * v. */
  lemma {:induction false} PortionsProduct(k: nat, v: real)
    ensures Portions(k, v) == (k as real) * v
  {
    if k > 0 {
      PortionsProduct(k - 1, v);
      assert (k as real) * v == ((k - 1) as real) * v + v;
    }
  }

  /** The run's last stage: the run of n - 1 stages extended by one stage on its raffinate. */
  lemma RunLast(tie: Mixture -> Result<TieLine>, s: Solvent, f0: Stream, n: nat)
    requires 1.0 + s.ns != 0.0
    requires n > 0 && Run(tie, s, f0, n).Ok?
    ensures Run(tie, s, f0, n - 1).Ok?
    ensures var prev := Run(tie, s, f0, n - 1).value;
      && Stage(tie, s, FeedAfter(f0, prev)).Ok?
      && Run(tie, s, f0, n).value == prev + [Stage(tie, s, FeedAfter(f0, prev)).value]
  {
  }

  /** Appending a record makes it the last one, so its raffinate feeds what follows. */
  lemma AppendLast(f0: Stream, prev: seq<StageRecord>, rec: StageRecord)
    ensures (prev + [rec])[..|prev|] == prev
    ensures FeedAfter(f0, prev + [rec]) == Raffinate(rec)
  {
  }

  /** Every stage of recs keeps its balances, each on the raffinate of the one before. */
  predicate Balanced(s: Solvent, f0: Stream, recs: seq<StageRecord>)
    requires 1.0 + s.ns != 0.0
  {
    |recs| == 0 ||
    (Balanced(s, f0, recs[..|recs| - 1]) && StageBalanced(s, FeedAfter(f0, recs[..|recs| - 1]), recs[|recs| - 1]))
  }

  /** The stages of a run keep their balances. */
  lemma {:induction false} RunBalanced(tie: Mixture -> Result<TieLine>, s: Solvent, f0: Stream, n: nat)
    requires 1.0 + s.ns != 0.0
    requires Run(tie, s, f0, n).Ok?
    ensures Balanced(s, f0, Run(tie, s, f0, n).value)
  {
    if n > 0 {
      RunLast(tie, s, f0, n);
      RunBalanced(tie, s, f0, n - 1);
      var prev := Run(tie, s, f0, n - 1).value;
      var feed := FeedAfter(f0, prev);
      StageBalance(tie, s, feed);
      AppendLast(f0, prev, Stage(tie, s, feed).value);
    }
  }

  /**
   * Mass balance over balanced stages: the initial feed plus one portion of
   * carrier-free solvent per stage equal the final raffinate plus the
   * carrier-free extracts.
   */
  lemma {:induction false} CascadeMassBalance(s: Solvent, f0: Stream, recs: seq<StageRecord>)
    requires 1.0 + s.ns != 0.0
    requires Balanced(s, f0, recs)
    ensures f0.mass + Portions(|recs|, EffectiveSolvent(s)) == FeedAfter(f0, recs).mass + FreeExtract(recs)
  {
    if |recs| > 0 {
      var prev := recs[..|recs| - 1];
      CascadeMassBalance(s, f0, prev);
    }
  }

  /**
   * Solute balance over balanced stages: the solute of the initial feed and
   * of one solvent portion per stage is that of the final raffinate plus
   * that of the carrier-free extracts.
   */
  lemma {:induction false} CascadeSoluteBalance(s: Solvent, f0: Stream, recs: seq<StageRecord>)
    requires 1.0 + s.ns != 0.0
    requires Balanced(s, f0, recs)
    ensures var last := FeedAfter(f0, recs);
      f0.mass * f0.x + Portions(|recs|, EffectiveSolvent(s) * s.ys) == last.mass * last.x + FreeExtractSolute(recs)
  {
    if |recs| > 0 {
      var prev := recs[..|recs| - 1];
      var rec := recs[|recs| - 1];
      CascadeSoluteBalance(s, f0, prev);
      var feed := FeedAfter(f0, prev);
      var v := EffectiveSolvent(s) * s.ys;
      Carry(f0.mass * f0.x, Portions(|prev|, v), v, feed.mass * feed.x, FreeExtractSolute(prev),
            rec.raffinateFree * rec.tie.x, rec.extractFree * rec.tie.y);
    }
  }

  /** One more stage carries the running balance forward. */
  lemma Carry(a: real, p: real, v: real, b: real, c: real, r: real, e: real)
    requires a + p == b + c
    requires r + e == b + v
    ensures a + (p + v) == r + (c + e)
  {
  }

  /** Converting the extracts of balanced stages to carrier-included terms keeps their total solute. */
  lemma {:induction false} ExtractSoluteKept(s: Solvent, f0: Stream, recs: seq<StageRecord>)
    requires 1.0 + s.ns != 0.0
    requires Balanced(s, f0, recs)
    ensures ExtractSolute(recs) == FreeExtractSolute(recs)
  {
    if |recs| > 0 {
      ExtractSoluteKept(s, f0, recs[..|recs| - 1]);
    }
  }

  /** Carrier-included extract masses of the stages. */
  function ExtractMasses(recs: seq<StageRecord>): (r: seq<real>)
    ensures |r| == |recs|
    ensures forall i :: 0 <= i < |recs| ==> r[i] == recs[i].extractMass
  {
    seq(|recs|, i requires 0 <= i < |recs| => recs[i].extractMass)
  }

  /** Carrier-included extract solute fractions of the stages. */
  function ExtractFractions(recs: seq<StageRecord>): (r: seq<real>)
    ensures |r| == |recs|
    ensures forall i :: 0 <= i < |recs| ==> r[i] == recs[i].extractFraction
  {
    seq(|recs|, i requires 0 <= i < |recs| => recs[i].extractFraction)
  }

  /** The weighted sum that pools the extracts is their total solute. */
  lemma {:induction false} PooledSolute(recs: seq<StageRecord>)
    ensures Dot(ExtractMasses(recs), ExtractFractions(recs)) == ExtractSolute(recs)
  {
    if |recs| > 0 {
      var prev := recs[..|recs| - 1];
      PooledSolute(prev);
      assert ExtractMasses(recs)[..|recs| - 1] == ExtractMasses(prev);
      assert ExtractFractions(recs)[..|recs| - 1] == ExtractFractions(prev);
    }
  }

  /** The stage points and extract figures of a run, and the composite extract. */
  datatype Report = Report(
    mixtures: seq<(real, real)>,
    raffinates: seq<(real, real)>,
    extracts: seq<(real, real)>,
    extractMasses: seq<real>,
    extractFractions: seq<real>,
    total: real,
    composite: real)

  /** The mixture point (xm, nm) of every stage. */
  function MixturePoints(recs: seq<StageRecord>): (r: seq<(real, real)>)
    ensures |r| == |recs|
    ensures forall i :: 0 <= i < |recs| ==> r[i] == (recs[i].mixture.xm, recs[i].mixture.nm)
  {
    seq(|recs|, i requires 0 <= i < |recs| => (recs[i].mixture.xm, recs[i].mixture.nm))
  }

  /** The raffinate end (X, Nr) of every stage's tie-line. */
  function RaffinatePoints(recs: seq<StageRecord>): (r: seq<(real, real)>)
    ensures |r| == |recs|
    ensures forall i :: 0 <= i < |recs| ==> r[i] == (recs[i].tie.x, recs[i].tie.nr)
  {
    seq(|recs|, i requires 0 <= i < |recs| => (recs[i].tie.x, recs[i].tie.nr))
  }

  /** The extract end (Y, Ne) of every stage's tie-line. */
  function ExtractPoints(recs: seq<StageRecord>): (r: seq<(real, real)>)
    ensures |r| == |recs|
    ensures forall i :: 0 <= i < |recs| ==> r[i] == (recs[i].tie.y, recs[i].tie.ne)
  {
    seq(|recs|, i requires 0 <= i < |recs| => (recs[i].tie.y, recs[i].tie.ne))
  }

  /** Each list of a report grows by the figures of one more stage. */
  lemma ProjectionsAppend(recs: seq<StageRecord>, rec: StageRecord)
    ensures MixturePoints(recs + [rec]) == MixturePoints(recs) + [(rec.mixture.xm, rec.mixture.nm)]
    ensures RaffinatePoints(recs + [rec]) == RaffinatePoints(recs) + [(rec.tie.x, rec.tie.nr)]
    ensures ExtractPoints(recs + [rec]) == ExtractPoints(recs) + [(rec.tie.y, rec.tie.ne)]
    ensures ExtractMasses(recs + [rec]) == ExtractMasses(recs) + [rec.extractMass]
    ensures ExtractFractions(recs + [rec]) == ExtractFractions(recs) + [rec.extractFraction]
  {
  }

  /** The phase tables can be turned into an equilibrium diagram. */
  predicate TablesUsable(oil: seq<Composition>, propane: seq<Composition>)
  {
    Convertible(oil) && Convertible(propane) && DiagramValid(DiagramFrom(oil, propane))
  }

  /** The tie-line solver of diagram d, as a function of the mixture. */
  function TieLines(d: Diagram): (tie: Mixture -> Result<TieLine>)
    requires DiagramValid(d)
    ensures forall m :: tie(m) == SolveTieLine(d, m)
  {
    m => SolveTieLine(d, m)
  }

  /**
   * The report of a run: every stage's points and extract figures, and
   * the extracts pooled into one composite.  Pooling divides by the total
   * extract mass, so no stage at all, or extracts adding up to nothing, is
   * a division by zero.  The composite fraction times the total is the
   * solute of all the extracts.
   */
  function Pool(recs: seq<StageRecord>): (r: Result<Report>)
    ensures r.Err? <==> Sum(ExtractMasses(recs)) == 0.0
    ensures r.Err? ==> r.error == DivisionByZero
    ensures |recs| == 0 ==> r.Err?
    ensures r.Ok? ==>
      && |r.value.mixtures| == |r.value.raffinates| == |r.value.extracts| == |recs|
      && |r.value.extractMasses| == |r.value.extractFractions| == |recs|
      && r.value.total == Sum(ExtractMasses(recs))
      && r.value.total * r.value.composite == ExtractSolute(recs)
  {
    PooledSolute(recs);
    match Composite(ExtractMasses(recs), ExtractFractions(recs))
    case Err(e) => Err(e)
    case Ok(pooled) =>
      Ok(Report(MixturePoints(recs), RaffinatePoints(recs), ExtractPoints(recs),
                ExtractMasses(recs), ExtractFractions(recs), pooled.0, pooled.1))
  }

  /**
   * The composite extract of balanced stages carries exactly the solute
   * that the feed and the solvent portions brought in and the final
   * raffinate did not keep.
   */
  lemma PoolSoluteBalance(s: Solvent, f0: Stream, recs: seq<StageRecord>)
    requires 1.0 + s.ns != 0.0
    requires Balanced(s, f0, recs)
    requires Pool(recs).Ok?
    ensures var report := Pool(recs).value;
      var last := FeedAfter(f0, recs);
      report.total * report.composite + last.mass * last.x
      == f0.mass * f0.x + Portions(|recs|, EffectiveSolvent(s) * s.ys)
  {
    CascadeSoluteBalance(s, f0, recs);
    ExtractSoluteKept(s, f0, recs);
  }

  /**
   * The whole calculation for n stages: build the diagram, check and
   * convert the solvent, run the stages from feed f and pool the extracts.
   * A solvent whose composition does not add up to one is rejected before
   * anything else; with no stage at all the composite is a division by
   * zero; a report has one entry per stage in each of its lists.
   */
  function LiqLiq(n: nat, f: Stream, sMass: real, comp: Composition,
                  oil: seq<Composition>, propane: seq<Composition>): (r: Result<Report>)
    requires TablesUsable(oil, propane)
    ensures !Normalised(comp) ==> r == Err(SolventNotNormalised)
    ensures n == 0 ==> r.Err?
    ensures r.Ok? ==>
      && |r.value.mixtures| == |r.value.raffinates| == |r.value.extracts| == n
      && |r.value.extractMasses| == |r.value.extractFractions| == n
  {
    var d := DiagramFrom(oil, propane);
    match SolventFrom(sMass, comp)
    case Err(e) => Err(e)
    case Ok(s) =>
      match Run(TieLines(d), s, f, n)
      case Err(e) => Err(e)
      case Ok(recs) => Pool(recs)
  }

  /**
   * The calculation rejects the solvent exactly when its composition does
   * not add up to one, and otherwise fails only with a division by zero or
   * when the bracket search finds no sign change and bisection rejects the
   * bracket (1, 1).
   */
  lemma LiqLiqFailures(n: nat, f: Stream, sMass: real, comp: Composition,
                       oil: seq<Composition>, propane: seq<Composition>)
    requires TablesUsable(oil, propane)
    ensures var r := LiqLiq(n, f, sMass, comp, oil, propane);
      r == Err(SolventNotNormalised) <==> !Normalised(comp)
    ensures var r := LiqLiq(n, f, sMass, comp, oil, propane);
      r.Err? && Normalised(comp) ==> r.error in {DivisionByZero, RootNotFound(1.0, 1.0)}
  {
    var d := DiagramFrom(oil, propane);
    var solvent := SolventFrom(sMass, comp);
    if solvent.Ok? && Run(TieLines(d), solvent.value, f, n).Err? {
      var e := Run(TieLines(d), solvent.value, f, n).error;
      RunFailure(TieLines(d), solvent.value, f, n);
      if e != DivisionByZero {
        var m :| TieLines(d)(m) == Err(e);
        SolveTieLineFails(d, m);
      }
    }
  }

  /**
   * A report of the calculation pools the stages of a run that keep their
   * balances, so PoolSoluteBalance applies to it: the composite extract
   * carries exactly the solute that the feed and the n solvent portions
   * brought in and the final raffinate did not keep.
   */
  lemma LiqLiqBalanced(n: nat, f: Stream, sMass: real, comp: Composition,
                       oil: seq<Composition>, propane: seq<Composition>)
    requires TablesUsable(oil, propane)
    requires LiqLiq(n, f, sMass, comp, oil, propane).Ok?
    ensures SolventFrom(sMass, comp).Ok?
    ensures var s := SolventFrom(sMass, comp).value;
      && Run(TieLines(DiagramFrom(oil, propane)), s, f, n).Ok?
      && var recs := Run(TieLines(DiagramFrom(oil, propane)), s, f, n).value;
      && LiqLiq(n, f, sMass, comp, oil, propane) == Pool(recs)
      && Balanced(s, f, recs)
  {
    var s := SolventFrom(sMass, comp).value;
    RunBalanced(TieLines(DiagramFrom(oil, propane)), s, f, n);
  }

  /**
   * The cascade as the source runs it: one pass per stage that appends the
   * stage's points and extract figures to the report lists and replaces
   * the feed by the stage's raffinate, then the pooling of the extracts.
   */
  method LiqLiqNStages(n: nat, f: Stream, sMass: real, comp: Composition,
                       oil: seq<Composition>, propane: seq<Composition>) returns (r: Result<Report>)
    requires TablesUsable(oil, propane)
    ensures r == LiqLiq(n, f, sMass, comp, oil, propane)
  {
    var d := DiagramFrom(oil, propane);
    var solvent := SolventFrom(sMass, comp);
    if solvent.Err? {
      return Err(solvent.error);
    }
    var s := solvent.value;
    var feed := f;
    var mixtures: seq<(real, real)> := [];
    var raffinates: seq<(real, real)> := [];
    var extracts: seq<(real, real)> := [];
    var masses: seq<real> := [];
    var fractions: seq<real> := [];
    ghost var recs: seq<StageRecord> := [];
    for i := 0 to n
      invariant Run(TieLines(d), s, f, i) == Ok(recs)
      invariant feed == FeedAfter(f, recs)
      invariant mixtures == MixturePoints(recs) && raffinates == RaffinatePoints(recs)
      invariant extracts == ExtractPoints(recs)
      invariant masses == ExtractMasses(recs) && fractions == ExtractFractions(recs)
    {
      var mixture := MixturePoint(feed, s);
      if mixture.Err? {
        RunPrefix(TieLines(d), s, f, i + 1, n);
        return Err(mixture.error);
      }
      var m := mixture.value;
      var found := Aproximar(m, d);
      if found.Err? {
        RunPrefix(TieLines(d), s, f, i + 1, n);
        return Err(found.error);
      }
      var t := found.value;
      var split := LeverSplit(m, t.x, t.y);
      if split.Err? {
        RunPrefix(TieLines(d), s, f, i + 1, n);
        return Err(split.error);
      }
      var (rPrime, ePrime) := split.value;
      var extract := ExtractActual(ePrime, t.y, t.ne);
      if extract.Err? {
        RunPrefix(TieLines(d), s, f, i + 1, n);
        return Err(extract.error);
      }
      var (eMass, eFraction) := extract.value;
      ghost var rec := StageRecord(feed, m, t, rPrime, ePrime, eMass, eFraction);
      assert Stage(TieLines(d), s, feed) == Ok(rec);
      ProjectionsAppend(recs, rec);
      feed := Stream(rPrime, t.x, t.nr);
      mixtures := mixtures + [(m.xm, m.nm)];
      raffinates := raffinates + [(t.x, t.nr)];
      extracts := extracts + [(t.y, t.ne)];
      masses := masses + [eMass];
      fractions := fractions + [eFraction];
      recs := recs + [rec];
    }
    var pooled := Composite(masses, fractions);
    if pooled.Err? {
      return Err(pooled.error);
    }
    r := Ok(Report(mixtures, raffinates, extracts, masses, fractions, pooled.value.0, pooled.value.1));
  }
}
