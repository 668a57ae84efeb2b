/** The value types shared by the five one-dimensional minimisation methods
    (app/optim/methods.py): the result every method returns, the per-method
    history records, the error kinds that replace the raised exceptions, and
    the trace of evaluations of the objective and its derivatives. */
module Results {

  datatype Option<T> = None | Some(value: T)

  /** The exceptions the methods and the dispatcher raise, one kind each. */
  datatype Error =
    | InvalidBounds                         // a >= b
    | InvalidSampleCount                    // samples < 2
    | InvalidTolerance                      // tol <= 0
    | InvalidDelta                          // delta <= 0
    | MissingSecondDerivative               // Newton without d2f
    | DegenerateCurvature                   // Newton hit d2f(x) == 0
    | DivisionByZero                        // finite difference with h_fd == 0
    | InsufficientParameters(forced: string) // forced method lacks its inputs
    | UnknownMethod                         // forced key not recognised
    | InsufficientData                      // no automatic rule applies

  /** A run either returns its result or fails with one error; a failure returns no history. */
  datatype Outcome<T> = Ok(value: T) | Err(error: Error)

  /** One history record; each method writes its own kinds. */
  datatype Record =
    | Sample(x: real, fx: real)                                        // passive search
    | Probe(a: real, b: real, x1: real, x2: real, f1: real, f2: real)  // interval step
    | Final(a: real, b: real, x: real, fx: real)                       // closing interval record
    | NewtonStep(x: real, df: real, d2f: real, fx: real)               // Newton
    | SecantPoint(x: real, g: real, fx: real)                          // secant

  /** One evaluation of a caller-supplied callable, at the given point. */
  datatype Call = Objective(at: real) | FirstDerivative(at: real) | SecondDerivative(at: real)

  datatype OptimizationResult = OptimizationResult(
    xMin: real,
    fMin: real,
    iterations: int,
    history: seq<Record>,
    methodName: string)

  /** The `method` strings the five implementations report. */
  const PassiveName: string := "Пассивный поиск"
  const DichotomyName: string := "Дихотомия"
  const GoldenName: string := "Золотое сечение"
  const NewtonName: string := "Касательных (Ньютона)"
  const SecantName: string := "Секущих (по производной)"

  function Abs(x: real): real {
    if x < 0.0 then -x else x
  }

  /** True of a record that carries an interval [a, b]. */
  predicate HasBracket(s: Record) {
    s.Probe? || s.Final?
  }

  function Width(s: Record): real
    requires HasBracket(s)
  {
    s.b - s.a
  }

  datatype Interval = Interval(lo: real, hi: real)

  /** The interval a bracketing record carries. */
  function Ends(s: Record): Interval
    requires HasBracket(s)
  {
    Interval(s.a, s.b)
  }

  /** The loop guard of the interval methods before step k on interval ab:
      wider than tol and the budget not spent. */
  predicate Open(tol: real, maxIter: int, ab: Interval, k: int) {
    ab.hi - ab.lo > tol && k < maxIter
  }

  /** The closing record of an interval method: the midpoint of [a, b] and its value. */
  function Midpoint(f: real -> real, a: real, b: real): (s: Record)
    ensures s.Final?
  {
    var x := (a + b) / 2.0;
    Final(a, b, x, f(x))
  }

  /** The closing record keeps [a, b] and sits halfway between its ends, strictly inside a non-empty interval. */
  lemma MidpointPlacement(f: real -> real, a: real, b: real)
    ensures var s := Midpoint(f, a, b);
            && s.a == a && s.b == b
            && s.x - a == b - s.x
            && (a < b ==> a < s.x < b)
            && s.fx == f(s.x)
  {
  }
}
