/** The secant method on f' = 0, `secant_on_gradient` in app/optim/methods.py:
    from the seeds x0 and x1, repeatedly move to the zero of the chord through
    the last two (x, g) points, where g is the supplied derivative or a central
    difference of f; stop silently when the last two gradients (almost)
    coincide, when the step or the gradient falls below tol, or when the
    budget of max_iter steps is spent. */
module Secant {
  import opened Results

  /** The gradient gap below which the loop gives up (1e-20). */
  const GapFloor: real := 0.00000000000000000001

  /** `grad` can be evaluated: a derivative is given, or the finite-difference step is not zero. */
  predicate HasGradient(df: Option<real -> real>, hFd: real) {
    df.Some? || hFd != 0.0
  }

  /** `grad`: the supplied derivative, else the central difference with step hFd. */
  function Grad(f: real -> real, df: Option<real -> real>, hFd: real, x: real): real
    requires HasGradient(df, hFd)
  {
    if df.Some? then df.value(x) else (f(x + hFd) - f(x - hFd)) / (2.0 * hFd)
  }

  /** The evaluations one call of `grad` at x makes, in order. */
  function GradCalls(df: Option<real -> real>, hFd: real, x: real): seq<Call> {
    if df.Some? then [FirstDerivative(x)] else [Objective(x + hFd), Objective(x - hFd)]
  }

  /** The central difference is exact on every quadratic: it returns 2cx + d
      when f is c x^2 + d x + e, whatever the step. */
  lemma CentralDifferenceOnQuadratic(f: real -> real, hFd: real, c: real, d: real, e: real, x: real)
    requires hFd != 0.0
    requires forall y :: f(y) == c * y * y + d * y + e
    ensures Grad(f, None, hFd, x) == 2.0 * c * x + d
  {
    var up, down := f(x + hFd), f(x - hFd);
    assert up == c * (x + hFd) * (x + hFd) + d * (x + hFd) + e;
    assert down == c * (x - hFd) * (x - hFd) + d * (x - hFd) + e;
    assert up - down == (2.0 * c * x + d) * (2.0 * hFd);
  }

  /** The two last gradients are too close for a secant step. */
  predicate Gap(gPrev: real, gCurr: real) {
    Abs(gCurr - gPrev) < GapFloor
  }

  /** The zero of the chord through (xPrev, gPrev) and (xCurr, gCurr). */
  function SecantNext(xPrev: real, gPrev: real, xCurr: real, gCurr: real): real
    requires gCurr != gPrev
  {
    xCurr - gCurr * (xCurr - xPrev) / (gCurr - gPrev)
  }

  /** xNext is where the chord through (xPrev, gPrev) and (xCurr, gCurr) crosses zero. */
  predicate ChordRoot(xPrev: real, gPrev: real, xCurr: real, gCurr: real, xNext: real) {
    gCurr * (xNext - xPrev) == gPrev * (xNext - xCurr)
  }

  /** The secant step lands on the zero of the chord. */
  lemma SecantNextIsChordRoot(xPrev: real, gPrev: real, xCurr: real, gCurr: real)
    requires gCurr != gPrev
    ensures ChordRoot(xPrev, gPrev, xCurr, gCurr, SecantNext(xPrev, gPrev, xCurr, gCurr))
  {
    var q := gCurr * (xCurr - xPrev) / (gCurr - gPrev);
    assert q * (gCurr - gPrev) == gCurr * (xCurr - xPrev);
    var xNext := xCurr - q;
    assert gCurr * (xNext - xPrev) - gPrev * (xNext - xCurr) == gCurr * (xCurr - xPrev) - q * (gCurr - gPrev);
  }

  /** The records p, c, n are one secant step: the gradients at p and c
      differ by at least the gap floor and n's point is the zero of their chord. */
  predicate SecantStep(p: Record, c: Record, n: Record) {
    && p.SecantPoint? && c.SecantPoint? && n.SecantPoint?
    && Abs(c.g - p.g) >= GapFloor
    && ChordRoot(p.x, p.g, c.x, c.g, n.x)
  }

  /** The stopping test after a step: the step or the new gradient is below tol. */
  predicate Converged(tol: real, xPrev: real, xCurr: real, gCurr: real) {
    Abs(xCurr - xPrev) < tol || Abs(gCurr) < tol
  }

  /** The record at x: the gradient and the value there. */
  predicate IsSecantRecord(f: real -> real, df: Option<real -> real>, hFd: real, s: Record) {
    s.SecantPoint? && HasGradient(df, hFd) && s.g == Grad(f, df, hFd, s.x) && s.fx == f(s.x)
  }

  /** From the points of records p and c the loop took a secant step to n's point. */
  predicate Steps(p: Record, c: Record, n: Record) {
    && p.SecantPoint? && c.SecantPoint? && n.SecantPoint?
    && !Gap(p.g, c.g)
    && n.x == SecantNext(p.x, p.g, c.x, c.g)
  }

  /** The step that wrote c (after p) did not meet the stopping test. */
  predicate Continued(tol: real, p: Record, c: Record) {
    p.SecantPoint? && c.SecantPoint? && !Converged(tol, p.x, c.x, c.g)
  }

  /** Every record of h holds the gradient and the value at its point. */
  predicate AllRecords(f: real -> real, df: Option<real -> real>, hFd: real, h: seq<Record>) {
    forall k :: 0 <= k < |h| ==> IsSecantRecord(f, df, hFd, h[k])
  }

  /** Every record of h after the first two is the secant step from the two before it. */
  predicate Linked(h: seq<Record>) {
    forall k: nat :: k + 2 < |h| ==> Steps(h[k], h[k + 1], h[k + 2])
  }

  /** Every step of h (every record after the first two) but the last went on. */
  predicate AllContinued(tol: real, h: seq<Record>) {
    forall k: nat :: 0 < k && k + 2 < |h| ==> Continued(tol, h[k], h[k + 1])
  }

  /** h is a history the loop can build from the seeds x0 and x1: every record
      holds the gradient and value at its point, every record after the seeds
      is the secant step from the two before it, and every step but the last
      went on. */
  predicate Chain(f: real -> real, df: Option<real -> real>, hFd: real, x0: real, x1: real, tol: real,
                  h: seq<Record>)
  {
    && |h| >= 2
    && AllRecords(f, df, hFd, h)
    && h[0].x == x0 && h[1].x == x1
    && Linked(h)
    && AllContinued(tol, h)
  }

  /** The evaluations that build history h: `grad` at both seeds, f at both
      seeds, then `grad` and f at each new point. */
  function Trace(df: Option<real -> real>, hFd: real, h: seq<Record>): seq<Call>
    requires |h| >= 2 && forall k :: 0 <= k < |h| ==> h[k].SecantPoint?
    decreases |h|
  {
    if |h| == 2 then
      GradCalls(df, hFd, h[0].x) + GradCalls(df, hFd, h[1].x) + [Objective(h[0].x), Objective(h[1].x)]
    else
      Trace(df, hFd, h[..|h| - 1]) + GradCalls(df, hFd, h[|h| - 1].x) + [Objective(h[|h| - 1].x)]
  }

  /** Why a loop that has taken |h| - 2 steps stops: the budget is spent, the
      last two gradients are too close, or the last step met the stopping test. */
  predicate Halts(tol: real, maxIter: int, h: seq<Record>)
    requires |h| >= 2
  {
    var p := h[|h| - 2];
    var c := h[|h| - 1];
    || |h| - 2 >= maxIter
    || (p.SecantPoint? && c.SecantPoint? && Gap(p.g, c.g))
    || (|h| > 2 && p.SecantPoint? && c.SecantPoint? && Converged(tol, p.x, c.x, c.g))
  }

  /** A run of `secant_on_gradient`: the history is a chain from the seeds
      with at most max_iter steps that stops exactly as the loop does, the
      result is its last point and f there, the count is the number of
      records, and the evaluations are the chain's followed by f at the result. */
  ghost predicate SecantRun(f: real -> real, df: Option<real -> real>, hFd: real, x0: real, x1: real,
                            tol: real, maxIter: int, r: OptimizationResult, calls: seq<Call>)
  {
    var h := r.history;
    var n := |h|;
    && r.methodName == SecantName
    && Chain(f, df, hFd, x0, x1, tol, h)
    && r.iterations == n
    && (n == 2 || n - 2 <= maxIter)
    && Halts(tol, maxIter, h)
    && r.xMin == h[n - 1].x
    && r.fMin == f(r.xMin)
    && calls == Trace(df, hFd, h) + [Objective(r.xMin)]
  }

  /** The last two records of h sit at xPrev and xCurr with gradients gPrev and gCurr. */
  predicate EndsAt(h: seq<Record>, xPrev: real, gPrev: real, xCurr: real, gCurr: real) {
    && |h| >= 2
    && h[|h| - 2].SecantPoint? && h[|h| - 2].x == xPrev && h[|h| - 2].g == gPrev
    && h[|h| - 1].SecantPoint? && h[|h| - 1].x == xCurr && h[|h| - 1].g == gCurr
  }

  /** The loop state after |h| - 2 steps, with the loop's four variables:
      a chain whose last step, if any, went on, and the evaluations it made. */
  predicate Reached(f: real -> real, df: Option<real -> real>, hFd: real, x0: real, x1: real, tol: real,
                    h: seq<Record>, calls: seq<Call>, xPrev: real, gPrev: real, xCurr: real, gCurr: real)
  {
    && Chain(f, df, hFd, x0, x1, tol, h)
    && calls == Trace(df, hFd, h)
    && EndsAt(h, xPrev, gPrev, xCurr, gCurr)
    && (|h| > 2 ==> !Converged(tol, xPrev, xCurr, gCurr))
  }

  /** The seed records start a chain. */
  lemma SeedsReached(f: real -> real, df: Option<real -> real>, hFd: real, x0: real, x1: real, tol: real,
                     h: seq<Record>, calls: seq<Call>)
    requires HasGradient(df, hFd)
    requires h == [SecantPoint(x0, Grad(f, df, hFd, x0), f(x0)), SecantPoint(x1, Grad(f, df, hFd, x1), f(x1))]
    requires calls == GradCalls(df, hFd, x0) + GradCalls(df, hFd, x1) + [Objective(x0), Objective(x1)]
    ensures Reached(f, df, hFd, x0, x1, tol, h, calls, x0, Grad(f, df, hFd, x0), x1, Grad(f, df, hFd, x1))
  {
  }

  /** Appending a record that holds its gradient and value keeps every record so. */
  lemma AppendRecord(f: real -> real, df: Option<real -> real>, hFd: real, h: seq<Record>, s: Record)
    requires AllRecords(f, df, hFd, h) && IsSecantRecord(f, df, hFd, s)
    ensures AllRecords(f, df, hFd, h + [s])
  {
    assert forall k :: 0 <= k < |h| ==> (h + [s])[k] == h[k];
  }

  /** Appending the secant step from the last two records keeps the history linked. */
  lemma AppendLink(h: seq<Record>, s: Record)
    requires |h| >= 2 && Linked(h) && Steps(h[|h| - 2], h[|h| - 1], s)
    ensures Linked(h + [s])
  {
    assert forall k :: 0 <= k < |h| ==> (h + [s])[k] == h[k];
  }

  /** Appending after a step that went on keeps every step but the last continued. */
  lemma AppendContinued(tol: real, h: seq<Record>, s: Record)
    requires |h| >= 2 && AllContinued(tol, h)
    requires |h| > 2 ==> Continued(tol, h[|h| - 2], h[|h| - 1])
    ensures AllContinued(tol, h + [s])
  {
    assert forall k :: 0 <= k < |h| ==> (h + [s])[k] == h[k];
  }

  /** The trace of a longer history extends by the evaluations at the new point. */
  lemma AppendTrace(df: Option<real -> real>, hFd: real, h: seq<Record>, s: Record)
    requires |h| >= 2 && (forall k :: 0 <= k < |h| ==> h[k].SecantPoint?) && s.SecantPoint?
    ensures Trace(df, hFd, h + [s]) == Trace(df, hFd, h) + GradCalls(df, hFd, s.x) + [Objective(s.x)]
  {
    assert (h + [s])[..|h|] == h;
  }

  /** A secant step from the loop state extends the chain and its trace, and
      leaves the previous current point and the new point as the last two. */
  lemma StepChain(f: real -> real, df: Option<real -> real>, hFd: real, x0: real, x1: real, tol: real,
                  h: seq<Record>, calls: seq<Call>, xPrev: real, gPrev: real, xCurr: real, gCurr: real,
                  xNext: real, gNext: real, h': seq<Record>, calls': seq<Call>)
    requires Reached(f, df, hFd, x0, x1, tol, h, calls, xPrev, gPrev, xCurr, gCurr)
    requires !Gap(gPrev, gCurr) && xNext == SecantNext(xPrev, gPrev, xCurr, gCurr)
    requires gNext == Grad(f, df, hFd, xNext)
    requires h' == h + [SecantPoint(xNext, gNext, f(xNext))]
    requires calls' == calls + GradCalls(df, hFd, xNext) + [Objective(xNext)]
    ensures Chain(f, df, hFd, x0, x1, tol, h') && calls' == Trace(df, hFd, h')
    ensures EndsAt(h', xCurr, gCurr, xNext, gNext)
  {
    var s := SecantPoint(xNext, gNext, f(xNext));
    assert IsSecantRecord(f, df, hFd, h[|h| - 1]);
    AppendRecord(f, df, hFd, h, s);
    AppendLink(h, s);
    AppendContinued(tol, h, s);
    AppendTrace(df, hFd, h, s);
  }

  /** A chain that halts within the budget, with f evaluated at its last point, is a run. */
  lemma CloseRun(f: real -> real, df: Option<real -> real>, hFd: real, x0: real, x1: real, tol: real, maxIter: int,
                 h: seq<Record>, probeCalls: seq<Call>, xPrev: real, gPrev: real, xCurr: real, gCurr: real,
                 r: OptimizationResult, calls: seq<Call>)
    requires Chain(f, df, hFd, x0, x1, tol, h) && probeCalls == Trace(df, hFd, h)
    requires EndsAt(h, xPrev, gPrev, xCurr, gCurr)
    requires |h| == 2 || |h| - 2 <= maxIter
    requires || |h| - 2 >= maxIter
             || Gap(gPrev, gCurr)
             || (|h| > 2 && Converged(tol, xPrev, xCurr, gCurr))
    requires r == OptimizationResult(xCurr, f(xCurr), |h|, h, SecantName)
    requires calls == probeCalls + [Objective(xCurr)]
    ensures SecantRun(f, df, hFd, x0, x1, tol, maxIter, r, calls)
  {
  }

  /** What `secant_on_gradient` promises: without a derivative and with a
      zero step the first `grad` evaluates f twice at x0 and then divides by
      zero; otherwise the run always succeeds. */
  ghost predicate SecantOutcome(f: real -> real, df: Option<real -> real>, x0: real, x1: real,
                                tol: real, maxIter: int, hFd: real, res: Outcome<OptimizationResult>, calls: seq<Call>)
  {
    if !HasGradient(df, hFd) then res == Err(DivisionByZero) && calls == [Objective(x0), Objective(x0)]
    else res.Ok? && SecantRun(f, df, hFd, x0, x1, tol, maxIter, res.value, calls)
  }

  method SecantOnGradient(f: real -> real, df: Option<real -> real>, x0: real, x1: real,
                          tol: real, maxIter: int, hFd: real)
    returns (res: Outcome<OptimizationResult>, calls: seq<Call>)
    ensures SecantOutcome(f, df, x0, x1, tol, maxIter, hFd, res, calls)
  {
    if !HasGradient(df, hFd) {
      return Err(DivisionByZero), [Objective(x0 + hFd), Objective(x0 - hFd)];
    }
    var xPrev, xCurr := x0, x1;
    var gPrev := Grad(f, df, hFd, xPrev);
    var gCurr := Grad(f, df, hFd, xCurr);
    var history := [SecantPoint(xPrev, gPrev, f(xPrev)), SecantPoint(xCurr, gCurr, f(xCurr))];
    calls := GradCalls(df, hFd, xPrev) + GradCalls(df, hFd, xCurr) + [Objective(xPrev), Objective(xCurr)];
    SeedsReached(f, df, hFd, x0, x1, tol, history, calls);
    var i := 0;
    while i < maxIter
      invariant 0 <= i && (i == 0 || i <= maxIter) && |history| == i + 2
      invariant Reached(f, df, hFd, x0, x1, tol, history, calls, xPrev, gPrev, xCurr, gCurr)
      decreases maxIter - i
    {
      if Gap(gPrev, gCurr) {
        var r := OptimizationResult(xCurr, f(xCurr), |history|, history, SecantName);
        CloseRun(f, df, hFd, x0, x1, tol, maxIter, history, calls, xPrev, gPrev, xCurr, gCurr, r, calls + [Objective(xCurr)]);
        return Ok(r), calls + [Objective(xCurr)];
      }
      var xNext := SecantNext(xPrev, gPrev, xCurr, gCurr);
      var gNext := Grad(f, df, hFd, xNext);
      ghost var h0, c0 := history, calls;
      history := history + [SecantPoint(xNext, gNext, f(xNext))];
      calls := calls + GradCalls(df, hFd, xNext) + [Objective(xNext)];
      StepChain(f, df, hFd, x0, x1, tol, h0, c0, xPrev, gPrev, xCurr, gCurr, xNext, gNext, history, calls);
      xPrev, gPrev, xCurr, gCurr := xCurr, gCurr, xNext, gNext;
      if Converged(tol, xPrev, xCurr, gCurr) {
        var r := OptimizationResult(xCurr, f(xCurr), |history|, history, SecantName);
        CloseRun(f, df, hFd, x0, x1, tol, maxIter, history, calls, xPrev, gPrev, xCurr, gCurr, r, calls + [Objective(xCurr)]);
        return Ok(r), calls + [Objective(xCurr)];
      }
      i := i + 1;
    }
    var r := OptimizationResult(xCurr, f(xCurr), |history|, history, SecantName);
    CloseRun(f, df, hFd, x0, x1, tol, maxIter, history, calls, xPrev, gPrev, xCurr, gCurr, r, calls + [Objective(xCurr)]);
    res, calls := Ok(r), calls + [Objective(xCurr)];
  }

  /** Each recorded point costs one derivative and one objective evaluation
      when df is given, and three objective evaluations otherwise. */
  lemma {:induction false} TraceLength(df: Option<real -> real>, hFd: real, h: seq<Record>)
    requires |h| >= 2 && forall k :: 0 <= k < |h| ==> h[k].SecantPoint?
    ensures df.Some? ==> |Trace(df, hFd, h)| == 2 * |h|
    ensures df.None? ==> |Trace(df, hFd, h)| == 3 * |h|
    decreases |h|
  {
    if |h| > 2 {
      TraceLength(df, hFd, h[..|h| - 1]);
    }
  }

  /** Two chains from the same seeds agree on every record both hold. */
  lemma {:induction false} ChainsAgree(f: real -> real, df: Option<real -> real>, hFd: real, x0: real, x1: real,
                                       tol: real, h1: seq<Record>, h2: seq<Record>, k: nat)
    requires Chain(f, df, hFd, x0, x1, tol, h1) && Chain(f, df, hFd, x0, x1, tol, h2)
    requires k < |h1| && k < |h2|
    ensures h1[k] == h2[k]
  {
    if k >= 2 {
      ChainsAgree(f, df, hFd, x0, x1, tol, h1, h2, k - 2);
      ChainsAgree(f, df, hFd, x0, x1, tol, h1, h2, k - 1);
      assert Steps(h1[k - 2], h1[k - 1], h1[k]) && Steps(h2[k - 2], h2[k - 1], h2[k]);
    }
    assert IsSecantRecord(f, df, hFd, h1[k]) && IsSecantRecord(f, df, hFd, h2[k]);
  }

  /** Where a chain has a record after position n - 1, the two records
      before it passed both stopping tests. */
  lemma ChainGoesOn(f: real -> real, df: Option<real -> real>, hFd: real, x0: real, x1: real,
                    tol: real, h: seq<Record>, n: int)
    requires Chain(f, df, hFd, x0, x1, tol, h) && 2 <= n < |h|
    ensures h[n - 2].SecantPoint? && h[n - 1].SecantPoint?
    ensures !Gap(h[n - 2].g, h[n - 1].g)
    ensures n > 2 ==> !Converged(tol, h[n - 2].x, h[n - 1].x, h[n - 1].g)
  {
    assert Steps(h[n - 2], h[n - 1], h[n]);
    if n > 2 {
      assert Continued(tol, h[n - 2], h[n - 1]);
    }
  }

  /** A run's history is no shorter than any chain from the same seeds that
      the budget allows: the run cannot have halted where that chain went on. */
  lemma RunNotShorter(f: real -> real, df: Option<real -> real>, hFd: real, x0: real, x1: real,
                      tol: real, maxIter: int, r: OptimizationResult, calls: seq<Call>, h: seq<Record>)
    requires SecantRun(f, df, hFd, x0, x1, tol, maxIter, r, calls)
    requires Chain(f, df, hFd, x0, x1, tol, h) && (|h| == 2 || |h| - 2 <= maxIter)
    ensures |r.history| >= |h|
  {
    var n := |r.history|;
    if n < |h| {
      ChainsAgree(f, df, hFd, x0, x1, tol, r.history, h, n - 2);
      ChainsAgree(f, df, hFd, x0, x1, tol, r.history, h, n - 1);
      ChainGoesOn(f, df, hFd, x0, x1, tol, h, n);
    }
  }

  /** Two runs on the same inputs return the same result and make the same
      evaluations: the result is a function of the inputs. */
  lemma SecantRunUnique(f: real -> real, df: Option<real -> real>, hFd: real, x0: real, x1: real,
                        tol: real, maxIter: int, r1: OptimizationResult, c1: seq<Call>,
                        r2: OptimizationResult, c2: seq<Call>)
    requires SecantRun(f, df, hFd, x0, x1, tol, maxIter, r1, c1)
    requires SecantRun(f, df, hFd, x0, x1, tol, maxIter, r2, c2)
    ensures r1 == r2 && c1 == c2
  {
    RunNotShorter(f, df, hFd, x0, x1, tol, maxIter, r1, c1, r2.history);
    RunNotShorter(f, df, hFd, x0, x1, tol, maxIter, r2, c2, r1.history);
    forall k | 0 <= k < |r1.history|
      ensures r1.history[k] == r2.history[k]
    {
      ChainsAgree(f, df, hFd, x0, x1, tol, r1.history, r2.history, k);
    }
    assert r1.history == r2.history;
  }

  /** What a run guarantees: the history starts with the two seeds and holds
      at most max_iter steps; each step is a secant step (the new point is the
      zero of the chord through the two before it, whose gradients differ by
      at least 1e-20); a run that stops before the budget is spent stopped on
      the gradient gap or on the convergence test; the reported gradient and
      value are those at x_min; and the evaluations number two (df given) or
      three (df absent) per record, plus one. */
  lemma SecantRunStops(f: real -> real, df: Option<real -> real>, hFd: real, x0: real, x1: real,
                       tol: real, maxIter: int, r: OptimizationResult, calls: seq<Call>)
    requires SecantRun(f, df, hFd, x0, x1, tol, maxIter, r, calls)
    ensures r.iterations == |r.history| >= 2
    ensures r.history[0].SecantPoint? && r.history[0].x == x0
    ensures r.history[1].SecantPoint? && r.history[1].x == x1
    ensures r.iterations == 2 || r.iterations - 2 <= maxIter
    ensures forall k :: 2 <= k < |r.history| ==> SecantStep(r.history[k - 2], r.history[k - 1], r.history[k])
    ensures r.iterations - 2 < maxIter ==>
              var p := r.history[r.iterations - 2];
              var c := r.history[r.iterations - 1];
              p.SecantPoint? && c.SecantPoint? &&
              (Gap(p.g, c.g) || (r.iterations > 2 && Converged(tol, p.x, c.x, c.g)))
    ensures var c := r.history[r.iterations - 1];
            c.SecantPoint? && r.xMin == c.x && c.g == Grad(f, df, hFd, r.xMin) && r.fMin == f(r.xMin)
    ensures df.Some? ==> |calls| == 2 * r.iterations + 1
    ensures df.None? ==> |calls| == 3 * r.iterations + 1
  {
    var h := r.history;
    var n := r.iterations;
    forall k | 2 <= k < n
      ensures SecantStep(h[k - 2], h[k - 1], h[k])
    {
      assert Steps(h[k - 2], h[k - 1], h[k]);
      SecantNextIsChordRoot(h[k - 2].x, h[k - 2].g, h[k - 1].x, h[k - 1].g);
    }
    assert IsSecantRecord(f, df, hFd, h[0]) && IsSecantRecord(f, df, hFd, h[1]);
    assert IsSecantRecord(f, df, hFd, h[n - 1]) && IsSecantRecord(f, df, hFd, h[n - 2]);
    TraceLength(df, hFd, h);
  }
}
