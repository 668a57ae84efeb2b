/** The dispatcher `auto_select_and_run` in app/optim/selection.py: a forced
    choice by name (`prefer`, compared after lower-casing) wins over the
    automatic rules, which try Newton, then the secant method, then the
    interval methods, in that order. Select is the decision; AutoSelectAndRun
    runs the chosen method with the forwarded arguments and the callee's own
    defaults. */
module Selection {
  import opened Results
  import Passive
  import Dichotomy
  import Golden
  import Newton
  import Secant

  /** The callees' own defaults, which the dispatcher never overrides. */
  const DichotomyMaxIter: int := 10000
  const GoldenMaxIter: int := 10000
  const NewtonMaxIter: int := 100
  const SecantMaxIter: int := 200
  const SecantStep: real := 0.000001
  /** The sample count a forced passive search uses when none (or zero) is given. */
  const DefaultSamples: int := 50

  /** The dispatcher's keyword arguments; `f` is passed separately. */
  datatype Request = Request(
    bounds: Option<(real, real)>,
    tol: real,
    samples: Option<int>,
    df: Option<real -> real>,
    d2f: Option<real -> real>,
    x0: Option<real>,
    x1: Option<real>,
    prefer: Option<string>)

  /** The chosen method with the plain arguments forwarded to it; the
      derivatives forwarded are the request's own. */
  datatype Plan =
    | RunPassive(bounds: (real, real), samples: int)
    | RunDichotomy(bounds: (real, real), tol: real)
    | RunGolden(bounds: (real, real), tol: real)
    | RunNewton(x0: real, tol: real)
    | RunSecant(x0: real, x1: real, tol: real)

  /** Lower-casing of one character, on the ASCII letters. */
  function LowerChar(c: char): char {
    if 'A' <= c <= 'Z' then (c as int + 32) as char else c
  }

  /** `str.lower` on ASCII letters, every other character kept. */
  function Lower(s: string): (t: string)
    ensures |t| == |s|
    ensures forall i :: 0 <= i < |s| ==> t[i] == LowerChar(s[i])
    ensures forall i :: 0 <= i < |t| ==> !('A' <= t[i] <= 'Z')
  {
    if s == [] then [] else [LowerChar(s[0])] + Lower(s[1..])
  }

  /** Lower-casing twice is lower-casing once. */
  lemma {:induction false} LowerIdempotent(s: string)
    ensures Lower(Lower(s)) == Lower(s)
  {
    var t := Lower(s);
    assert forall i :: 0 <= i < |t| ==> LowerChar(t[i]) == t[i];
  }

  /** Lower-casing keeps exactly the strings that have no upper-case ASCII letter. */
  lemma LowerFixesLowerCase(s: string)
    ensures Lower(s) == s <==> forall i :: 0 <= i < |s| ==> !('A' <= s[i] <= 'Z')
  {
    if forall i :: 0 <= i < |s| ==> !('A' <= s[i] <= 'Z') {
      assert forall i :: 0 <= i < |s| ==> Lower(s)[i] == s[i];
    }
  }

  /** The decision of `auto_select_and_run`, before anything is evaluated. */
  function Select(q: Request): Outcome<Plan> {
    if q.prefer.Some? then
      var key := Lower(q.prefer.value);
      if key == "passive" then
        if q.bounds.None? then Err(InsufficientParameters("passive"))
        else
          var n := if q.samples.None? || q.samples.value == 0 then DefaultSamples else q.samples.value;
          Ok(RunPassive(q.bounds.value, n))
      else if key == "dichotomy" then
        if q.bounds.None? then Err(InsufficientParameters("dichotomy")) else Ok(RunDichotomy(q.bounds.value, q.tol))
      else if key == "golden" then
        if q.bounds.None? then Err(InsufficientParameters("golden")) else Ok(RunGolden(q.bounds.value, q.tol))
      else if key == "newton" then
        if q.d2f.None? || q.df.None? || q.x0.None? then Err(InsufficientParameters("newton"))
        else Ok(RunNewton(q.x0.value, q.tol))
      else if key == "secant" then
        if q.x0.None? || q.x1.None? then Err(InsufficientParameters("secant"))
        else Ok(RunSecant(q.x0.value, q.x1.value, q.tol))
      else Err(UnknownMethod)
    else if q.d2f.Some? && q.df.Some? && q.x0.Some? then Ok(RunNewton(q.x0.value, q.tol))
    else if q.x0.Some? && q.x1.Some? then Ok(RunSecant(q.x0.value, q.x1.value, q.tol))
    else if q.bounds.Some? then
      if q.samples.Some? then Ok(RunPassive(q.bounds.value, q.samples.value)) else Ok(RunGolden(q.bounds.value, q.tol))
    else Err(InsufficientData)
  }

  /** The name the chosen method reports. */
  function PlanName(p: Plan): string {
    match p
    case RunPassive(_, _) => PassiveName
    case RunDichotomy(_, _) => DichotomyName
    case RunGolden(_, _) => GoldenName
    case RunNewton(_, _) => NewtonName
    case RunSecant(_, _, _) => SecantName
  }

  /** (res, calls) is what the method p names promises for the forwarded
      arguments and its own defaults: no delta for dichotomy, the default
      budgets, the default finite-difference step for the secant method. */
  ghost predicate Performs(f: real -> real, q: Request, rho: real, p: Plan,
                           res: Outcome<OptimizationResult>, calls: seq<Call>)
  {
    match p
    case RunPassive(b, n) => Passive.PassiveOutcome(f, b, n, res, calls)
    case RunDichotomy(b, tol) => Dichotomy.DichotomyOutcome(f, b, tol, None, DichotomyMaxIter, res, calls)
    case RunGolden(b, tol) => Golden.GoldenOutcome(f, b, tol, GoldenMaxIter, rho, res, calls)
    case RunNewton(x0, tol) =>
      q.df.Some? && q.d2f.Some? && Newton.NewtonOutcome(f, q.df.value, q.d2f, x0, tol, NewtonMaxIter, res, calls)
    case RunSecant(x0, x1, tol) => Secant.SecantOutcome(f, q.df, x0, x1, tol, SecantMaxIter, SecantStep, res, calls)
  }

  /** `auto_select_and_run`. A rejected request evaluates nothing; otherwise
      the chosen method runs, and a result it returns carries that method's
      name. rho stands for the golden-section ratio 2 - phi. */
  method AutoSelectAndRun(f: real -> real, q: Request, rho: real)
    returns (res: Outcome<OptimizationResult>, calls: seq<Call>)
    ensures Select(q).Err? ==> res == Err(Select(q).error) && calls == []
    ensures Select(q).Ok? ==> Performs(f, q, rho, Select(q).value, res, calls)
    ensures res.Ok? ==> Select(q).Ok? && res.value.methodName == PlanName(Select(q).value)
  {
    var choice := Select(q);
    if choice.Err? {
      return Err(choice.error), [];
    }
    match choice.value
    case RunPassive(b, n) =>
      res, calls := Passive.PassiveSearch(f, b, n);
    case RunDichotomy(b, tol) =>
      res, calls := Dichotomy.Dichotomy(f, b, tol, None, DichotomyMaxIter);
    case RunGolden(b, tol) =>
      res, calls := Golden.GoldenSection(f, b, tol, GoldenMaxIter, rho);
    case RunNewton(x0, tol) =>
      res, calls := Newton.NewtonTangent(f, q.df.value, q.d2f, x0, tol, NewtonMaxIter);
    case RunSecant(x0, x1, tol) =>
      res, calls := Secant.SecantOnGradient(f, q.df, x0, x1, tol, SecantMaxIter, SecantStep);
  }

  /** A forced choice overrides the automatic rules: with prefer set, the
      outcome depends on the prefer key, the bounds, tol and samples, and on
      x0, x1, df and d2f only through the inputs the forced method itself
      needs; two requests agreeing on all these select alike. */
  lemma ForcedIgnoresOtherInputs(q1: Request, q2: Request)
    requires q1.prefer.Some? && q2.prefer.Some? && Lower(q1.prefer.value) == Lower(q2.prefer.value)
    requires q1.bounds == q2.bounds && q1.tol == q2.tol && q1.samples == q2.samples
    requires Lower(q1.prefer.value) == "newton" ==>
               q1.x0 == q2.x0 && q1.df.Some? == q2.df.Some? && q1.d2f.Some? == q2.d2f.Some?
    requires Lower(q1.prefer.value) == "secant" ==> q1.x0 == q2.x0 && q1.x1 == q2.x1
    ensures Select(q1) == Select(q2)
  {
  }

  /** The forced key is compared case-insensitively: a prefer value and its
      lower-cased form select alike. */
  lemma ForcedKeyCaseInsensitive(q: Request)
    requires q.prefer.Some?
    ensures Select(q) == Select(q.(prefer := Some(Lower(q.prefer.value))))
  {
    LowerIdempotent(q.prefer.value);
  }

  /** A forced interval method without bounds, a forced Newton without df,
      d2f and x0, a forced secant without both starts, and an unknown key are
      all errors; a forced passive search with bounds but no (or zero)
      samples uses 50. */
  lemma ForcedErrors(q: Request)
    requires q.prefer.Some?
    ensures var key := Lower(q.prefer.value);
            && (key in {"passive", "dichotomy", "golden"} && q.bounds.None? ==> Select(q) == Err(InsufficientParameters(key)))
            && (key == "newton" && (q.df.None? || q.d2f.None? || q.x0.None?) ==> Select(q) == Err(InsufficientParameters(key)))
            && (key == "secant" && (q.x0.None? || q.x1.None?) ==> Select(q) == Err(InsufficientParameters(key)))
            && (key !in {"passive", "dichotomy", "golden", "newton", "secant"} ==> Select(q) == Err(UnknownMethod))
            && (key == "passive" && q.bounds.Some? && (q.samples.None? || q.samples == Some(0)) ==>
                  Select(q) == Ok(RunPassive(q.bounds.value, DefaultSamples)))
  {
  }

  /** Without prefer, the rules apply in priority order: Newton when df, d2f
      and x0 are all given (whatever else is); else the secant method when x0
      and x1 are; else passive search when bounds and samples are (samples
      forwarded unchanged, zero included); else golden section when bounds
      are; else the request is rejected as lacking data. */
  lemma AutomaticPriority(q: Request)
    requires q.prefer.None?
    ensures q.df.Some? && q.d2f.Some? && q.x0.Some? ==> Select(q) == Ok(RunNewton(q.x0.value, q.tol))
    ensures !(q.df.Some? && q.d2f.Some? && q.x0.Some?) && q.x0.Some? && q.x1.Some? ==>
              Select(q) == Ok(RunSecant(q.x0.value, q.x1.value, q.tol))
    ensures q.x0.None? || (q.x1.None? && (q.df.None? || q.d2f.None?)) ==>
              && (q.bounds.Some? && q.samples.Some? ==> Select(q) == Ok(RunPassive(q.bounds.value, q.samples.value)))
              && (q.bounds.Some? && q.samples.None? ==> Select(q) == Ok(RunGolden(q.bounds.value, q.tol)))
              && (q.bounds.None? ==> Select(q) == Err(InsufficientData))
  {
  }

  /** Selection succeeds exactly when prefer names a method whose inputs are
      present, or, without prefer, when one of the automatic rules applies. */
  lemma SelectSucceedsIff(q: Request)
    ensures Select(q).Ok? <==>
              if q.prefer.Some? then
                var key := Lower(q.prefer.value);
                || (key in {"passive", "dichotomy", "golden"} && q.bounds.Some?)
                || (key == "newton" && q.df.Some? && q.d2f.Some? && q.x0.Some?)
                || (key == "secant" && q.x0.Some? && q.x1.Some?)
              else
                || (q.df.Some? && q.d2f.Some? && q.x0.Some?)
                || (q.x0.Some? && q.x1.Some?)
                || q.bounds.Some?
  {
  }

  /** The dispatcher never hands Newton a missing second derivative, so a run
      it starts never fails for that reason. */
  lemma NoMissingSecondDerivative(f: real -> real, q: Request, rho: real,
                                  res: Outcome<OptimizationResult>, calls: seq<Call>)
    requires Select(q).Ok? && Performs(f, q, rho, Select(q).value, res, calls)
    ensures res != Err(MissingSecondDerivative)
  {
  }

  /** In automatic mode a passive search gets samples as given: zero samples
      over valid bounds reach passive_search and are rejected there. */
  lemma AutomaticZeroSamplesRejected(f: real -> real, q: Request, rho: real,
                                     res: Outcome<OptimizationResult>, calls: seq<Call>)
    requires q.prefer.None? && q.x0.None? && q.bounds.Some? && q.bounds.value.0 < q.bounds.value.1
    requires q.samples == Some(0)
    requires Performs(f, q, rho, Select(q).value, res, calls)
    ensures res == Err(InvalidSampleCount) && calls == []
  {
  }
}
