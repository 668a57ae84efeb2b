# One-dimensional minimisation methods and their dispatcher, in Dafny

This project models the optimisation core of the application:
- the five one-dimensional minimisation methods in `app/optim/methods.py`: passive (grid) search, dichotomy, golden section, Newton's tangent method on f' = 0, and the secant method on f' = 0 with its inner `grad`;
- the result record they share, `OptimizationResult`;
- the dispatcher `auto_select_and_run` in `app/optim/selection.py`, which picks one of the methods from the inputs it is given (or from a forced name) and runs it.

Each method is an imperative Dafny `method` with the source's own loop. It works over exact reals, and the objective and its derivatives are parameters of type `real -> real`. Besides its `Outcome` (a result or one error kind in place of the raised exception), every method returns the ordered trace of the evaluations it made of f, f' and f''. So the contracts can say:
- which inputs are rejected before anything is evaluated;
- how many evaluations each step costs;
- that golden section reuses one probe per step.

Each method's `ensures` is a ghost predicate, `<Method>Outcome`. It spells out the error cases in the order the source checks them. In every other case it requires a `<Method>Run` predicate, which characterises the run record by record: the history, the loop's exit condition, the reported minimiser and value, the iteration count and the evaluation trace. Lemmas then prove, about these run predicates:
- bounds and nesting;
- stopping conditions;
- the geometric facts of each step;
- uniqueness (the run predicate determines the result and the trace completely).

Modules:
- `Results`: option, error kinds, history records, evaluation calls, `OptimizationResult`, method names, the closing midpoint record.
- `Passive`, `Dichotomy`, `Golden`, `Newton` and `Secant`: one module per method.
- `Selection`: the decision function `Select`, the dispatch predicate `Performs` and the method `AutoSelectAndRun`.

## Model

| member | source | states |
|---|---|---|
| Results.MidpointPlacement | app/optim/methods.py:161-163 | The closing record keeps the final [a, b], lies halfway between its ends (strictly inside when a < b) and holds f there. |
| Passive.GridPoint | app/optim/methods.py:83 | Point i of the grid that stands for `np.linspace(a, b, samples)`: point 0 is a, point n - 1 is b, and every point of a grid over a <= b lies in [a, b]. GridSpansInterval adds that the points climb strictly. |
| Passive.GridSpansInterval | app/optim/methods.py:83 | The uniform grid starts at a, ends at b, and strictly increases in between. |
| Passive.FirstArgMin | app/optim/methods.py:91 | The index found holds the least value and every earlier index holds a strictly larger one (first-index argmin). |
| Passive.FirstMinUnique | app/optim/methods.py:91 | Only one index can be the first index of the least value. |
| Passive.PassiveSearch | app/optim/methods.py:77-100 | a >= b is rejected, then samples < 2, both with no evaluation. Otherwise there are `samples` records at the grid points, one evaluation each in order, `iterations == samples`, and the result is the first grid point of least value. |
| Passive.PassiveRunInBounds | app/optim/methods.py:83-93 | All recorded points and x_min lie in [a, b], the records climb strictly, and f_min is no larger than any recorded value. |
| Passive.PassiveRunUnique | app/optim/methods.py:77-100 | Two passive runs on the same inputs have the same result and the same evaluations. |
| Dichotomy.EffectiveDelta | app/optim/methods.py:141-142 | A given delta is used as it is; an omitted one becomes tol / 2, which lies strictly between 0 and tol whenever tol > 0, so the default always passes the delta check. |
| Dichotomy.NarrowedWidth | app/optim/methods.py:155-158 | On an interval wider than 2 delta, a step keeps a sub-interval of width (b - a)/2 + delta, strictly narrower and still non-empty. |
| Dichotomy.Dichotomy | app/optim/methods.py:136-170 | a >= b, then tol <= 0, then a non-positive delta (tol / 2 when omitted) are rejected with no evaluation. Otherwise it is a dichotomy run: one probe record per step taken while b - a > tol and the budget lasts; b := x2 when f1 < f2, else a := x1; two evaluations per step; a final midpoint record; history length iterations + 1. |
| Dichotomy.Narrow | app/optim/methods.py:146-163 | The loop and the closing record after the checks form a dichotomy run from the given interval. |
| Dichotomy.RunNested | app/optim/methods.py:148-159 | With delta <= tol / 2 (the default), every interval of the run lies inside the original one with a < b. |
| Dichotomy.DichotomyRunInBounds | app/optim/methods.py:148-163 | With delta <= tol / 2, every step keeps a < b, is nested in the previous interval, has width half the previous plus delta, strictly shrinks, and x_min lies strictly inside the original bounds. |
| Dichotomy.DichotomyRunStops | app/optim/methods.py:148-159 | On exit b - a <= tol or the budget is spent; iterations never exceed a non-negative max_iter; every interval probed was wider than tol. |
| Dichotomy.RunsAgree | app/optim/methods.py:148-159 | Two runs on the same inputs carry the same interval at every step both reach. |
| Dichotomy.DichotomyRunUnique | app/optim/methods.py:136-170 | The result, the history and the evaluations of a dichotomy run are determined by the inputs. |
| Golden.GoldenSection | app/optim/methods.py:200-237 | a >= b, then tol <= 0, are rejected with no evaluation. Otherwise it is a golden run: two initial evaluations; one probe record per step taken while b - a > tol and the budget lasts; exactly one fresh evaluation per step (the new left or right probe); a final midpoint record; history length iterations + 1. |
| Golden.Shrink | app/optim/methods.py:214-230 | The loop with its tuple swaps and the closing record form a golden run from the initial probe state. |
| Golden.GoldenNext | app/optim/methods.py:218-225 | One step keeps [a, x2] or [x1, b], nested in the old interval when its probes are ordered. The probe that survives keeps its old value (f2 := f1 or f1 := f2), so only the one fresh probe needs an evaluation. NextPlaced proves the new state stays in golden position. |
| Golden.StartPlaced | app/optim/methods.py:209-212 | The initial probes are at ratio resphi from the two ends, with their values. |
| Golden.PlacedInside | app/optim/methods.py:209-210 | Probes in golden position on a non-empty interval satisfy a < x1 < x2 < b. |
| Golden.NextPlaced | app/optim/methods.py:216-226 | When resphi = (1 - resphi)^2, a step keeps golden position: the reused probe lands where a freshly placed one would. The interval is scaled by 1 - resphi and nested in the old one. |
| Golden.IteratePlaced | app/optim/methods.py:216-226 | Every state reached from a non-empty interval is in golden position inside it, each step scaling the width by 1 - resphi. |
| Golden.RunIterates | app/optim/methods.py:214-230 | Record k of a golden run is the state after k steps with the loop guard holding, and the closing record is the midpoint of the first state whose guard fails. |
| Golden.GoldenRunInBounds | app/optim/methods.py:209-230 | In every recorded state a < x1 < x2 < b inside the original bounds, f1 = f(x1) and f2 = f(x2). The width shrinks by 1 - resphi per step, and x_min lies strictly inside the bounds. |
| Golden.GoldenRunStops | app/optim/methods.py:216-226 | The run stops on width <= tol or an exhausted budget, every probed interval was wider than tol, and there are exactly iterations + 3 evaluations. |
| Golden.GoldenRunUnique | app/optim/methods.py:200-237 | The result, the history and the evaluations of a golden run are determined by the inputs. |
| Newton.NewtonTangent | app/optim/methods.py:275-303 | A missing d2f is rejected with no evaluation. Otherwise, from x0: one record {x, df, d2f, f} per iteration, evaluations in that order; stop keeping x when abs(df) < tol; fail on d2f = 0 otherwise; step to x - df/d2f and stop when the step is shorter than tol; at most max_iter records; iterations = len(history); an exhausted budget returns the last x. |
| Newton.ChainsAgree | app/optim/methods.py:280-293 | Two iteration chains from the same x0 agree on every record both contain. |
| Newton.RunChainLength | app/optim/methods.py:280-293 | A successful run's history is at least as long as any chain within the budget whose last derivative is not small. |
| Newton.RunExcludesFailure | app/optim/methods.py:284-287 | Beside a successful run, every chain within the budget whose last derivative is not small ends on non-zero curvature. |
| Newton.NewtonOutcomeDetermined | app/optim/methods.py:280-293 | The inputs decide the outcome: a run cannot both succeed and fail. Two successes agree on result and evaluations, and two failures make the same evaluations. |
| Newton.FailuresAgree | app/optim/methods.py:284-287 | Two failing chains from the same x0 have the same length and the same evaluations. |
| Newton.RunsAgree | app/optim/methods.py:280-300 | Two successful Newton runs on the same inputs agree on result and evaluations. |
| Newton.NewtonRunStops | app/optim/methods.py:280-300 | A run's iterations never exceed a non-negative budget, and every point but the last had abs(df) >= tol. A run ending on a small derivative returns a point with abs(df) < tol. There are 3 * iterations + 1 evaluations. |
| Secant.Grad | app/optim/methods.py:345-348 | The gradient the secant method uses: df(x) when df is given, otherwise the central difference (f(x + h_fd) - f(x - h_fd)) / (2 h_fd); GradCalls lists the evaluations each call makes. CentralDifferenceOnQuadratic proves the difference exact on quadratics, and SecantRunStops ties the last record's g to grad at x_min. |
| Secant.CentralDifferenceOnQuadratic | app/optim/methods.py:345-348 | The finite-difference `grad` returns 2cx + d exactly for f = c x^2 + d x + e, for every non-zero step. |
| Secant.SecantNextIsChordRoot | app/optim/methods.py:362 | The secant step lands on the zero of the chord through the last two (x, g) points. |
| Secant.SecantOnGradient | app/optim/methods.py:345-378 | Without df and with h_fd = 0, the first `grad` evaluates f twice at x0 and divides by zero. Otherwise it always succeeds with a secant run: two seed records; grad at both seeds before f at either; one record per step; stop silently when abs(g_curr - g_prev) < 1e-20, or after a step when abs(x_curr - x_prev) < tol or abs(g_curr) < tol; at most max_iter steps; x_min is the last point; iterations = len(history). |
| Secant.TraceLength | app/optim/methods.py:345-366 | Each recorded point costs one derivative and one objective evaluation with df, and three objective evaluations without. |
| Secant.ChainsAgree | app/optim/methods.py:352-366 | Two secant chains from the same seeds agree on every record both contain. |
| Secant.ChainGoesOn | app/optim/methods.py:359-368 | Where a chain has a further record, the two before it passed the gap test and, after a step, the convergence test. |
| Secant.RunNotShorter | app/optim/methods.py:359-368 | A run's history is at least as long as any chain from the same seeds that the budget allows. |
| Secant.SecantRunUnique | app/optim/methods.py:345-378 | The result, the history and the evaluations of a secant run are determined by the inputs. |
| Secant.SecantRunStops | app/optim/methods.py:350-375 | The history starts with the seeds x0, x1 and holds at most max_iter more records. Each new point is the chord zero of the two before it, whose gradients differ by at least 1e-20. A run stopping before the budget stopped on the gap or the convergence test. The last record's gradient is grad(x_min) and f_min = f(x_min). There are 2n + 1 or 3n + 1 evaluations. |
| Selection.Lower | app/optim/selection.py:68 | Lower-casing keeps the length, maps each character by itself, and leaves no upper-case ASCII letter. |
| Selection.LowerIdempotent | app/optim/selection.py:68 | Lower-casing twice equals lower-casing once. |
| Selection.LowerFixesLowerCase | app/optim/selection.py:68 | A string is unchanged by lower-casing exactly when it has no upper-case ASCII letter. |
| Selection.Select | app/optim/selection.py:67-107 | The decision of the if/elif chain: a forced key by its lower-cased form, else the automatic rules in order. ForcedErrors, ForcedIgnoresOtherInputs and ForcedKeyCaseInsensitive characterise the forced branch, AutomaticPriority the automatic one, and SelectSucceedsIff exactly when it succeeds. |
| Selection.AutoSelectAndRun | app/optim/selection.py:66-107 | A rejected request returns its error with no evaluation. Otherwise the chosen method runs with the forwarded arguments and the callee's own defaults (no delta, max_iter 10000/10000/100/200, h_fd 1e-6), and any result it returns carries that method's name. |
| Selection.ForcedIgnoresOtherInputs | app/optim/selection.py:67-92 | With prefer set, the choice depends only on the lower-cased key, bounds, tol, samples and the inputs the forced method itself needs: forced mode overrides the automatic rules. |
| Selection.ForcedKeyCaseInsensitive | app/optim/selection.py:68-92 | A prefer value selects exactly as its lower-cased form does. |
| Selection.ForcedErrors | app/optim/selection.py:69-92 | Forced passive, dichotomy or golden without bounds, forced newton without df, d2f or x0, and forced secant without both starts are all errors, as is an unknown key. A forced passive search with no or zero samples uses 50. |
| Selection.AutomaticPriority | app/optim/selection.py:95-107 | Without prefer, the rules apply in order. Newton is chosen when df, d2f and x0 are all given (bounds and x1 notwithstanding); otherwise secant when x0 and x1 are given; otherwise passive when bounds and samples are (samples unchanged); otherwise golden when only bounds are; otherwise the request lacks data. |
| Selection.SelectSucceedsIff | app/optim/selection.py:67-107 | Selection succeeds exactly when the forced method's inputs are present, or, without prefer, when some automatic rule applies. |
| Selection.NoMissingSecondDerivative | app/optim/selection.py:83-96 | Newton is started only with d2f present, so no dispatched run fails for a missing second derivative. |
| Selection.AutomaticZeroSamplesRejected | app/optim/selection.py:101-103 | In automatic mode, samples = 0 over valid bounds reaches passive_search unchanged and is rejected there, with no evaluation. |

## Left out

- Floating point: the model works over exact reals. `float()` conversions, rounding, and `5 ** 0.5` are not modelled. The grid point `a + i (b - a)/(n - 1)` stands in for `np.linspace`, whose endpoints are exact only up to rounding.
- Golden.GoldenSection: the ratio 2 - phi is a parameter `rho`, because it is irrational and has no closed form over Dafny's reals. The geometric lemmas assume only 0 < rho < 1/2 and rho = (1 - rho)^2, which pin it down.
- Golden.GoldenRunInBounds: states the width ratio 1 - rho per step, not the closed form (1 - rho)^k (b0 - a0).
- Numerical accuracy: how close x_min comes to the true minimiser is not stated for any method. It depends on rounding and on analytic properties of f.
- Selection.Lower: lowers ASCII letters only; `str.lower` also maps non-ASCII letters. Among the characters outside A-Z, two lower to something holding an ASCII letter: the Kelvin sign becomes 'k', and U+0130 becomes 'i' followed by the combining dot U+0307. No method key contains 'k', and the combining dot is not in any key, so neither can complete a match. Whether a prefer value matches a key comes out the same.
- Selection.AutoSelectAndRun: `bounds` is an optional pair. The source's truthiness test `not bounds` also rejects an empty tuple, which a pair cannot be.
- Exception messages are not modelled, only which error is raised. The dispatcher's "insufficient parameters" error carries the forced key.
- Callables that raise, return NaN, or return non-floats are not modelled. Every f, f' and f'' is a total function.
- Secant.SecantOnGradient: h_fd = 0 without df is modelled as the division error that a Python float raises. An objective returning numpy scalars (such as one built with `lambdify(..., "numpy")`) would instead give NaN there and go on; NaN is not modelled. The dispatcher never passes h_fd, so only direct calls reach this case.
- The default argument values of the public functions are not modelled: `tol` and the budgets are explicit parameters. The dispatcher fixes the callee defaults it relies on as constants.
- The user interfaces and launchers (`web_app.py`, `app/app.py`, `app/visualize.py`, `main.py`, `launcher.py`, `proxy_app.py`, `selftest.py`) are not part of this model: they are presentation, process control and printing.
