# Staged liquid–liquid extraction, modelled in Dafny

This project models the calculation core of `main.py`. The program computes a cross-current liquid–liquid extraction of oleic acid (C) from oil (A) with propane (B) as the carrier solvent:

- The same fresh solvent goes into every stage.
- The raffinate of each stage is the feed of the next.
- The extracts of all stages are pooled into one composite extract.

All quantities are exact `real` numbers.

The modules follow the steps of the calculation:

- `Outcomes` (`outcomes.dfy`): every way the calculation can stop, and a `Result` type.
- `Reals` (`reals.dfy`): numpy's closeness test and the straight line through two samples. The line is what a two-sample interpolant with extrapolation computes.
- `Interpolation` (`interpolation.dfy`): the piecewise-linear equilibrium curves with linear extrapolation at both ends.
- `MassBalance` (`mass_balance.dfy`):
  - the solvent-free solute fraction `C/(A+C)` and carrier ratio `B/(A+C)`;
  - validation of the solvent composition;
  - the effective solvent mass;
  - the mixture point;
  - the inverse lever rule;
  - the conversion of the extract back to a carrier-included basis.
- `Aggregation` (`aggregation.dfy`): the total extract mass and the mass-weighted composite fraction.
- `TieLineSolver` (`tie_line.dfy`): the search for one stage's tie-line (`aproximar`).
  - The residual of a candidate raffinate fraction is the chord between the two equilibrium branches, evaluated at the mixture.
  - A 20-point grid scan looks for a sign change.
  - scipy's bisection is modelled from its own loop: fixed left value, halving step, tolerances `2e-12` and four machine epsilons, 100 iterations.
  - `SearchRoot` and `Aproximar` are the imperative loop as the source writes it. Each is proved equal to its specification function.
- `Stages` (`stages.dfy`): one stage, the run of n stages, and the pooled report.
  - `LiqLiqNStages` is the source's loop. It replaces the feed and appends to five lists, and is proved equal to the function `LiqLiq`.
  - `Stage` and `Run` take the tie-line solver as a parameter. Their balance lemmas therefore hold for any solver, and `LiqLiq` instantiates them with `SolveTieLine`.
  - The `Report` carries:
    - the lists the program hands to its plotting routine: mixture points, raffinate points, extract points;
    - the per-stage extract masses and fractions;
    - the two returned numbers, `E_compuesto` and `y_compuesto`.

## Failures

Python raises an exception or numpy produces inf or nan in these cases. The model stops with one named failure for each:

- The solvent's `A+B+C` is not 1 within `1e-3`: `SolventNotNormalised`. This is the assertion at line 157.
- A zero denominator gives `DivisionByZero`. The cases are:
  - the solvent's `A+C`;
  - a mixture mass;
  - coinciding tie-line ends `Y == X`;
  - `1 + Ne`;
  - a zero total extract mass. This includes the case of no stage at all.
- The bisection is given an interval whose ends have the same sign: `RootNotFound(a, b)`. The source raises this as `RuntimeError`, naming the bracket.

`LiqLiqFailures` proves a narrower outcome:

- the calculation only ever stops with these failures;
- a failed tie-line search always names the bracket `(1, 1)`;
- the bisection's own non-convergence error can never occur.

## Model

| member | source | states |
|---|---|---|
| Reals.Line | main.py:121-122 | The two-sample chord with extrapolation returns the unique ordinate at u collinear with both samples. |
| Reals.LineEndpoints | main.py:121 | The chord passes through both of its samples. |
| Reals.LineThrough | main.py:121-123 | The chord takes value v at u if and only if (u, v) is collinear with the two samples. |
| Reals.LineSymmetric | main.py:121 | Swapping the two samples gives the same line, so sorting them first (x2 < x1) changes nothing. |
| Reals.LineBetween | main.py:121 | Between its samples the chord stays between their ordinates. |
| Interpolation.Below | main.py:111-113 | The insertion index of u: every abscissa before it is below u and the one at it is not. |
| Interpolation.Segment | main.py:111-113 | The segment used is always a valid pair of neighbouring samples (index clipped to 1..n-1). |
| Interpolation.EvalAtSample | main.py:111-113 | Each curve passes through every sample. |
| Interpolation.EvalOnSegment | main.py:111-113 | Between two neighbouring samples a curve is the line joining them. |
| Interpolation.EvalBetweenSamples | main.py:111-113 | Between two neighbouring samples a curve stays between their ordinates. |
| Interpolation.EvalExtrapolates | main.py:111-113 | Beyond either end a curve continues its first or last segment rather than failing or clamping. |
| MassBalance.SoluteFraction | main.py:142-148 | The solute fraction x satisfies x * (A + C) == C. |
| MassBalance.CarrierRatio | main.py:142-148 | The carrier ratio n satisfies n * (A + C) == B. |
| MassBalance.RatiosInRange | main.py:142-148 | For a physical sample the solute fraction lies in [0, 1] and the carrier ratio is non-negative. |
| MassBalance.SolventFrom | main.py:156-161 | Rejects the solvent exactly when A+B+C is not within 1e-3 of 1, fails exactly on A+C == 0, otherwise keeps the mass, gives ys and ns with ys*(A+C) == C, ns*(A+C) == B, and 1 + ns != 0. |
| MassBalance.EffectiveSolvent | main.py:96-98 | s' * (1 + ns) == S.masa, and 0 < s' <= S.masa when the mass is positive and ns >= 0. |
| MassBalance.MixturePoint | main.py:101-106 | Fails exactly when F.masa + s' == 0; otherwise the mixture mass is F.masa + s' and solute and carrier are each conserved. |
| MassBalance.MixtureBetween | main.py:101-106 | With both masses positive, xm lies between xf and ys and nm between nf and ns. |
| MassBalance.LeverSplit | main.py:173-174 | Fails exactly when Y == X; otherwise raffinate plus extract is the mixture mass and their solute is the mixture's. |
| MassBalance.LeverNonNegative | main.py:173-174 | For a positive mixture mass both lever masses are non-negative exactly when xm lies between X and Y. |
| MassBalance.ExtractActual | main.py:175-176 | Fails exactly when 1 + Ne == 0; otherwise masa_e == e'(1 + Ne), y(1 + Ne) == Y and masa_e * y == e' * Y (solute kept). |
| Aggregation.Composite | main.py:190-191 | Fails exactly when the total extract mass is zero, in particular with no stage; otherwise the total is the sum and total * composite is the weighted sum. |
| Aggregation.DotBounds | main.py:191 | With non-negative masses the weighted sum lies between lo and hi times the total mass. |
| Aggregation.CompositeBetween | main.py:191 | With non-negative masses and a positive total, the composite fraction lies between the smallest and largest stage fraction. |
| TieLineSolver.SoluteFractions | main.py:142-148 | One solute fraction per sample, each with x * (A + C) == C. |
| TieLineSolver.CarrierRatios | main.py:142-148 | One carrier ratio per sample, each with n * (A + C) == B. |
| TieLineSolver.DiagramFrom | main.py:142-148 | The raffinate and distribution curves share the abscissae X and the extract curve's abscissae are Y; the diagram is usable exactly when the tables have equal length of at least two and increasing X and Y. |
| TieLineSolver.GuardAsWrittenCollides | main.py:119-120 | For x1 = 0.500001 and x2 = 0.5, x1 is close to x2 and the guard moves x2 exactly onto x1. |
| TieLineSolver.Guard | main.py:119-120 | The corrected guard never returns x1, agrees with the source wherever the source's guard does not land on x1, and moves x2 by at most 1e-6. |
| TieLineSolver.ChordOf | main.py:116-121 | The chord built for candidate x always has distinct abscissae. |
| TieLineSolver.ChordResidualZeroIff | main.py:121-123 | The residual is zero exactly when the mixture point lies on the line through the chord's two ends. |
| TieLineSolver.ProductSigns | main.py:128 | The sign predicates used by the model are exactly the product tests f(a)*f(b) < 0 and > 0. |
| TieLineSolver.ScanFirstChange | main.py:124-130 | The scan from step k stops at the first grid step with a sign change, or ends with a = b = 1. |
| TieLineSolver.FindBracketFirstChange | main.py:124-130 | The bracket is (GridPoint(j-1), GridPoint(j)) for the first sign-changing grid step j, or (1, 1) when there is none. |
| TieLineSolver.GridPointInUnit | main.py:127 | Grid points lie in [0, 1], 1/19 apart. |
| TieLineSolver.BisectLoopSound | main.py:132 | The bisection loop fails only by running out of iterations; a result is a root or within tolerance of a sign change inside the interval. |
| TieLineSolver.BisectSound | main.py:132-134 | Bisection rejects [a, b] exactly when f has the same strict sign at both ends; otherwise it returns a root or a point within tolerance of a sign change in [a, b], or fails to converge. |
| TieLineSolver.BudgetSuffices | main.py:132 | 100 halvings bring an interval of length 1 below the absolute tolerance 2e-12. |
| TieLineSolver.BisectLoopConverges | main.py:132 | The loop always succeeds when the step is below the tolerance times the remaining halvings. |
| TieLineSolver.BisectConverges | main.py:132 | On an interval of length at most 1 bisection never reports non-convergence. |
| TieLineSolver.FindRootSound | main.py:124-134 | A root found lies in [0, 1] and is a root or within tolerance of a sign change inside [0, 1]. |
| TieLineSolver.FindRootFails | main.py:124-134 | The search fails exactly when no grid step changes sign and f(1) != 0, and then names the bracket (1, 1). |
| TieLineSolver.BracketedRootFound | main.py:127-132 | A bracket on a sign-changing grid step always yields a root. |
| TieLineSolver.UnbracketedRoot | main.py:124-134 | With the bracket (1, 1) the search succeeds exactly when f(1) == 0, and otherwise names (1, 1). |
| TieLineSolver.SolveTieLineSound | main.py:109-135 | A solved tie-line has X in [0, 1] near a root of the residual, and Nr, Y, Ne read off the three curves at X. |
| TieLineSolver.SolveTieLineFails | main.py:109-135 | The tie-line search fails exactly when no grid step changes the residual's sign and the residual at 1 is nonzero, naming (1, 1). |
| TieLineSolver.SearchRoot | main.py:124-134 | The imperative scan with early break, then bisection, returns exactly FindRoot. |
| TieLineSolver.Aproximar | main.py:109-135 | The imperative tie-line search returns exactly SolveTieLine. |
| Stages.Settle | main.py:173-176 | Fails exactly when Y == X or 1 + Ne == 0; otherwise the stage conserves mass and solute and the extract keeps its solute. |
| Stages.Stage | main.py:169-178 | A zero mixture mass is a division by zero, any other failure is the solver's on the mixture point; a record holds the mixture point, the solver's tie-line on it and the settled masses. |
| Stages.StageBalance | main.py:169-176 | A stage works on the feed it is given and conserves feed plus effective solvent in mass and in solute. |
| Stages.SettledBalance | main.py:173-176 | A record settled from the mixture of feed and solvent keeps every stage balance. |
| Stages.StageSucceeds | main.py:169-176 | A stage succeeds whenever none of its failure conditions holds. |
| Stages.Run | main.py:168-178 | A run that succeeds has exactly n stage records; zero stages never fail. |
| Stages.RunFailure | main.py:168-178 | A run fails only with a division by zero or a failure the solver produces on some mixture. |
| Stages.RunChain | main.py:168-178 | Every record is the stage on the raffinate of the record before it (the first on the initial feed), always with the same solvent. |
| Stages.RunPrefix | main.py:168-185 | A shorter run is a prefix of a longer one, and a failure in the first k stages is the failure of the whole run. |
| Stages.RunBalanced | main.py:168-178 | Every stage of a run keeps its mass, solute and extract balances. |
| Stages.CascadeMassBalance | main.py:168-178 | Initial feed plus one solvent portion per stage equals final raffinate plus all carrier-free extracts. |
| Stages.CascadeSoluteBalance | main.py:168-178 | Solute of the initial feed and of one solvent portion per stage equals that of the final raffinate plus all carrier-free extracts. |
| Stages.ExtractSoluteKept | main.py:175-176 | Converting every extract to carrier-included terms keeps the total extract solute. |
| Stages.PortionsProduct | main.py:168-171 | n solvent portions of v amount to n * v. |
| Stages.PooledSolute | main.py:191 | The weighted sum of the extract masses and fractions is the total extract solute. |
| Stages.ProjectionsAppend | main.py:181-185 | Each of the five lists grows by exactly the new stage's entry. |
| Stages.Pool | main.py:190-191 | Fails exactly when the extract masses sum to zero, always with no stage; a report has one entry per stage, the total is the sum and total * composite is the extract solute. |
| Stages.PoolSoluteBalance | main.py:168-191 | For balanced stages, the composite extract's solute plus the final raffinate's equals the feed's plus one solvent portion per stage. |
| Stages.LiqLiq | main.py:138-192 | An unnormalised solvent is rejected before anything else; n = 0 always fails; a report has n entries in each list. |
| Stages.LiqLiqFailures | main.py:138-192 | The solvent is rejected exactly when unnormalised; otherwise failures are only division by zero or RootNotFound(1, 1). |
| Stages.LiqLiqBalanced | main.py:168-192 | A report is the pooling of a run whose stages all keep their balances, so PoolSoluteBalance applies to it. |
| Stages.LiqLiqNStages | main.py:138-192 | The imperative stage loop, with the feed replaced and five lists appended per stage and then pooled, returns exactly LiqLiq. |

## Left out

- Plotting (`graficar`, main.py:54-93): matplotlib output only. The model keeps the lists it is given.
- Reading the phase tables and the parameters (`ingesta_datos`, `cargar_parametros`, main.py:27-51): file I/O. The tables, feed, solvent mass and composition are parameters.
- `resource_path`, `establecer_tkinter`, `main` and its argument parsing (main.py:15-24, 194-208), and the Tkinter front end in `main_gui.py`: paths, environment variables and user interface.
- Floating-point rounding: every quantity is an exact real. The bisection's tolerances keep the source's constants, but no rounding is modelled.
- The sort inside the curve interpolants: the model requires each table's solute fractions to be strictly increasing (`DiagramValid`). Tables with repeated or unsorted abscissae are not modelled.
- A phase-table sample with `A + C == 0` yields inf in pandas. `Convertible` excludes such samples instead of modelling inf.
- numpy division by zero in later stages (Y == X, 1 + Ne == 0, a zero mixture mass) gives inf or nan with a warning, not an exception. The model stops with `DivisionByZero` instead of carrying inf or nan forward.
- The carrier-free raffinate fraction `x = X/(1+Nr)` (main.py:177) is computed and never used, so it is not modelled.
- scipy's internals beyond the bisection loop (argument checks, the `disp` flag, `RootResults`) are not modelled.
- Guard: departs from the source's guard in the one case where that guard moves x2 exactly onto x1. There the corrected guard moves x2 down by 1e-6 instead; see Findings.

## Findings

| source | as written | input that shows it | evidently intended | confidence | as-written member | corrected member |
|---|---|---|---|---|---|---|
| main.py:119-120 | When x1 is close to x2, the guard adds 1e-6 to x2, which can put x2 exactly on x1 and leave a zero-length chord for the two-point interpolant. | x1 = 0.500001, x2 = 0.5: the two are close under numpy's default tolerances, and x2 + 1e-6 == x1. | The guard should always leave the chord's two abscissae distinct. | not executed | TieLineSolver.GuardAsWrittenCollides | TieLineSolver.Guard |
