# Secant method root finder — model of the iteration engine

The application finds a root of a user-typed function f with the secant
method. Its "Calcular" handler, `SecantMethodApp.run_secant_method`, reads the
two starting estimates x0 and x1 and the tolerance. It clears the iteration
table and then runs at most 50 secant steps. Each step evaluates f at the
current pair (x_prev, x_curr) and stops if the two values differ by less than
1e-12 (stalled). Otherwise it computes the secant estimate x_next and the
relative error |(x_next - x_curr) / x_next|, which is +infinity when
x_next = 0. It appends a seven-field row to the table and stops if the error is
below the tolerance (converged). If not, it moves on to the pair
(x_curr, x_next). When all 50 steps run without converging, the run is
exhausted.

This project models that engine over real numbers:

- `secant.dfy`, module `Secant`: the row type `Record`, the error type
  `RelError` (`Finite(v)` or `Infinite`), and the three endings (`Status`).
  It holds the recursive reference definition of a run (`Iterate`,
  `SecantRun`) and a declarative description of a run (`TraceFrom`, `RunFrom`).
  A both-directions lemma shows that the two describe the same run. Each
  structural property of the trace is a corollary lemma. The corollaries are
  stated for the rest of a run from any loop counter i and pair; a whole run
  is the case i = 0 from (x0, x1).
- `app.dfy`, module `App`: the class `SecantMethodApp` with the mutable table
  `iterationsData`. Its method `RunSecantMethod` is the source's loop: a `for`
  loop over 0..49 with two `break`s that appends to the field. It is proved to
  leave exactly the reference run in the table. Its loop invariant is the
  declarative trace description.
- `scenarios.dfy`, module `Scenarios`: three concrete runs worked out from the
  definition.

The function f is a parameter of type `real -> real`. The tolerance entry is
an `Option<real>`, where `None` means the text did not parse as a number.
`RunSecantMethod` also returns the `Status` that the source leaves implicit in
which `break` (or none) ended the loop.

## Model

| member | source | states |
|---|---|---|
| `Secant.Flat` | app/app.py:98 | the stagnation guard, true when abs(f_prev − f_curr) < 1e-12; when it does not fire, the secant divisor f_prev − f_curr is nonzero |
| `Secant.SecantEstimate` | app/app.py:101 | x_next = x_curr − f_curr · (x_prev − x_curr) / (f_prev − f_curr), defined only for f_prev ≠ f_curr; it stays at x_curr when f_curr is 0 or when the two points coincide |
| `Secant.RelativeError` | app/app.py:102 | abs((x_next − x_curr) / x_next), or infinity; it is infinite exactly when x_next is 0, a finite error is never negative, and it is 0 when the estimate did not move |
| `Secant.Converges` | app/app.py:122 | the test `error < tolerance`; an infinite error never passes it, and no non-negative error passes a tolerance ≤ 0 |
| `Secant.IsStepRecord` | app/app.py:94-113 | the seven-field tuple one step appends: f at its two points, a pair the guard let through, x_next the secant estimate and the error its relative error; such a row has a nonzero divisor, an infinite error exactly when x_next is 0, and x_next = x_curr when f_curr is 0 |
| `Secant.Iterate` | app/app.py:90-126 | the loop from counter i and a pair: exhausted when i reaches 50; stalled when the guard fires; otherwise it appends the row of iteration i + 1 and stops if that row converged, or goes on from (x_curr, x_next). A converged run ends with a row that passed the test, a stalled run has fewer rows than steps left, and an exhausted run has one row per step left |
| `Secant.SecantRun` | app/app.py:72-126 | the whole loop, from counter 0 and the initial estimates (x0, x1); its first row, when there is one, is iteration 1 and starts at (x0, x1) |
| `Secant.SecantEstimateOnLine` | app/app.py:101 | x_next lies where the line through (x_prev, f_prev) and (x_curr, f_curr) meets the x-axis, and it equals x_curr when f_curr is 0 |
| `Secant.RelativeErrorMeaning` | app/app.py:102 | the error is infinite exactly when x_next is 0; otherwise it is the non-negative e with e · abs(x_next) = abs(x_next − x_curr) |
| `Secant.StepRecordFields` | app/app.py:94-113 | a row holds f at its two points and a divisor f_prev − f_curr of magnitude at least 1e-12, so never zero. It also holds the secant formula for x_next and the relative-error formula, infinite exactly when x_next is 0 |
| `Secant.RecordFieldsExact` | app/app.py:94-113 | every row of a run satisfies the per-row description above |
| `Secant.TraceExtend` | app/app.py:105-113 | appending the row of the next step to an unfinished trace gives a longer trace of the same run (what one pass of the loop does) |
| `Secant.Prepend` | app/app.py:93-126 | a non-converging row followed by a run from its new pair (x_curr, x_next) is a run from its old pair |
| `Secant.Unprepend` | app/app.py:93-126 | conversely, after a non-converging first row, the rest of a run is a run from that row's new pair, with the loop counter one higher |
| `Secant.IterateSound` | app/app.py:90-126 | the recursive reference run satisfies the declarative description of a run |
| `Secant.IterateUnique` | app/app.py:90-126 | the declarative description admits no other outcome than the reference run |
| `Secant.IterateCharacterized` | app/app.py:90-126 | an outcome meets the declarative description if and only if it is the reference run; `RunSecantMethod` uses it with loop counter 0 and pair (x0, x1) |
| `Secant.TraceBounded` | app/app.py:90-93 | a run from loop counter i produces at most 50 − i rows, so a whole run at most 50 |
| `Secant.IndicesContiguous` | app/app.py:93-106 | the row at position k carries iteration number i + k + 1, so k + 1 in a whole run |
| `Secant.FirstRecordIsInitialPair` | app/app.py:72-73 | the first row's x_prev and x_curr are the pair the run starts from, so the initial estimates x0 and x1 in a whole run |
| `Secant.RecordsChain` | app/app.py:105-126 | each later row's x_prev is its predecessor's x_curr, and its x_curr is its predecessor's x_next |
| `Secant.OnlyLastMayConverge` | app/app.py:122-126 | every row but the last has an infinite error or one at least the tolerance; a row whose x_next is 0 never passes the test |
| `Secant.TerminationCases` | app/app.py:93-126 | the run ends in exactly one way. It converged if and only if the last row passed the test. It is exhausted if and only if every remaining step (50 in a whole run) produced a row and the last failed. It stalled if and only if there are fewer rows and none converged, and then the guard fired on the pair the next step would have used |
| `Secant.EmptyTraceIffInitialStall` | app/app.py:98-99 | while a step is left, the table is empty exactly when the guard fires on the starting pair (x0, x1 in a whole run), and then the run stalled |
| `App.SecantMethodApp.constructor` | app/app.py:18 | a new application starts with an empty table |
| `App.SecantMethodApp.RunSecantMethod` | app/app.py:76-126 | the tolerance is the parsed entry, or exactly 1e-6 when it does not parse. The table is reset and then holds exactly the reference run's trace, whatever it held before. The returned status is the reference run's ending |
| `Scenarios.SymmetricPairStallsAtOnce` | app/app.py:98-99 | for f(x) = x · x from (−1, 1), f takes the same value at both estimates, so the guard fires at once and the run stalls with an empty table |
| `Scenarios.LinearConvergesInTwoSteps` | app/app.py:93-126 | for f(x) = x − 3 from (1, 2) and a tolerance in (0, 1/3], the run converges after exactly two rows, both at the root 3 |
| `Scenarios.RootAtZeroStalls` | app/app.py:101-123 | for f(x) = x from (1, 2), both rows estimate the root 0 with infinite error, and the run then stalls instead of converging |

## Left out

- Window, table and plot code (widget creation, `update_plot`, `update_table_row`, `clear_results`, `show_error_message`, `mainloop`) is not modelled; the rows the table displays are the modelled `iterationsData`.
- `setup_plot` (app/app.py:87, app/app.py:134-146) is not modelled, although it does more than draw. Before the loop, it evaluates f on 400 points of [min(x0, x1) − 2, max(x0, x1) + 2] and plots the result. If that raises, the loop is skipped and an error dialog is shown (app/app.py:131-132). The table and `iterations_data` then stay empty, because `clear_results` emptied them first (app/app.py:67, app/app.py:175-179). One such case is an expression that sympy reduces to a constant, such as "x - x", because its compiled f returns a scalar instead of 400 values. The model assumes the plot succeeded and describes the loop only.
- Compiling the expression with sympy (`sympify`, `lambdify`) is not modelled. f is a total `real -> real` parameter. A parse error or an exception raised inside f is not represented.
- Parsing of the x0, x1 and tolerance entries with `float()` is not modelled. x0 and x1 are given reals, and the tolerance entry is `Option<real>`. A failed parse of x0 or x1 raises before the loop and ends in the error dialog; that path is not modelled.
- The catch-all `except Exception` dialog is not modelled. With f total over the reals, nothing in the modelled loop raises. The guard makes the secant divisor nonzero, and the error formula is only computed for a nonzero x_next.
- IEEE-754 double semantics are not modelled. The model does not capture rounding, NaN, overflow to infinity, or the fact that 1e-12 and 1e-6 are binary approximations (here they are exact decimals). Python accepts "inf" and "nan" as tolerances, and no real can stand for them. No convergence or accuracy claim is made.
- The status returned by `RunSecantMethod` is an addition. The source returns nothing, and its ending is visible only from the table.
- The iteration cap is the constant `max_iter = 50` (app/app.py:90), and the model keeps it as the constant `MaxIter`. The loop has no check for non-finite values of f, and the model has none either. Rows are appended to the list field `iterations_data` (app/app.py:105), as `RunSecantMethod` appends to `iterationsData`.
