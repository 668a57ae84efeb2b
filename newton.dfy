/** Newton's tangent method on f' = 0, `newton_tangent` in app/optim/methods.py:
    from x0, record df, d2f and f at the current point, stop when |df| < tol,
    fail when d2f vanishes, otherwise step to x - df / d2f and stop when that
    step is shorter than tol; at most max_iter records. */
module Newton {
  import opened Results

  /** The record of one iteration at x: the two derivatives and the value there. */
  predicate IsNewtonRecord(f: real -> real, df: real -> real, d2f: real -> real, s: Record) {
    s.NewtonStep? && s.df == df(s.x) && s.d2f == d2f(s.x) && s.fx == f(s.x)
  }

  /** The tangent step from the point of record s. */
  function NewtonNext(s: Record): real
    requires s.NewtonStep? && s.d2f != 0.0
  {
    s.x - s.df / s.d2f
  }

  /** The iteration that wrote s went on to the next one: the derivative was
      not small, the curvature not zero, and the step not shorter than tol. */
  predicate Continues(tol: real, s: Record) {
    s.NewtonStep? && Abs(s.df) >= tol && s.d2f != 0.0 && Abs(NewtonNext(s) - s.x) >= tol
  }

  /** h is a prefix of iterations from x0: each record is taken at the point
      the previous one stepped to, every record but the last went on, and
      calls holds the evaluations df, d2f, f at each recorded point, in order. */
  predicate Chain(f: real -> real, df: real -> real, d2f: real -> real, x0: real, tol: real,
                  h: seq<Record>, calls: seq<Call>)
  {
    && |calls| >= 3 * |h|
    && (forall k: nat :: k < |h| ==>
          && IsNewtonRecord(f, df, d2f, h[k])
          && calls[3 * k] == FirstDerivative(h[k].x)
          && calls[3 * k + 1] == SecondDerivative(h[k].x)
          && calls[3 * k + 2] == Objective(h[k].x))
    && (|h| > 0 ==> h[0].x == x0)
    && (forall k: nat :: k + 1 < |h| ==> Continues(tol, h[k]) && h[k + 1].x == NewtonNext(h[k]))
  }

  /** How the last iteration, the one that wrote s, ended the loop with xMin:
      a small derivative keeps s.x; otherwise the step was taken, and either it
      was shorter than tol or it was the last the budget allowed. */
  predicate Closes(tol: real, maxIter: int, n: int, s: Record, xMin: real) {
    && s.NewtonStep?
    && if Abs(s.df) < tol then xMin == s.x
       else s.d2f != 0.0 && xMin == NewtonNext(s) && (Abs(xMin - s.x) < tol || n == maxIter)
  }

  /** A successful Newton run: the history is a chain from x0 of at most
      max_iter records that stops exactly as the loop does, the result is the
      point the loop ended on (x0 when the budget allows no iteration), and the
      last evaluation is f there. */
  ghost predicate NewtonRun(f: real -> real, df: real -> real, d2f: real -> real, x0: real, tol: real, maxIter: int,
                            r: OptimizationResult, calls: seq<Call>)
  {
    var h := r.history;
    var n := |h|;
    && r.methodName == NewtonName
    && r.iterations == n
    && Chain(f, df, d2f, x0, tol, h, calls)
    && |calls| == 3 * n + 1
    && calls[3 * n] == Objective(r.xMin)
    && r.fMin == f(r.xMin)
    && (n == 0 ==> maxIter <= 0 && r.xMin == x0)
    && (n > 0 ==> n <= maxIter && Closes(tol, maxIter, n, h[n - 1], r.xMin))
  }

  /** A Newton run that fails: a chain from x0 of at most max_iter records,
      the last with a derivative not below tol and zero curvature; the
      evaluations made are those of the chain. */
  ghost predicate NewtonFails(f: real -> real, df: real -> real, d2f: real -> real, x0: real, tol: real, maxIter: int,
                              calls: seq<Call>)
  {
    exists h: seq<Record> :: FailedChain(f, df, d2f, x0, tol, maxIter, h, calls)
  }

  /** h is the history a failing run built before it raised. */
  predicate FailedChain(f: real -> real, df: real -> real, d2f: real -> real, x0: real, tol: real, maxIter: int,
                        h: seq<Record>, calls: seq<Call>)
  {
    && 0 < |h| <= maxIter
    && Chain(f, df, d2f, x0, tol, h, calls)
    && |calls| == 3 * |h|
    && Abs(h[|h| - 1].df) >= tol && h[|h| - 1].d2f == 0.0
  }

  /** The loop state before iteration |h|: a chain whose last record went on,
      and x the point it stepped to (x0 before the first iteration). */
  predicate Reached(f: real -> real, df: real -> real, d2f: real -> real, x0: real, tol: real,
                    h: seq<Record>, calls: seq<Call>, x: real)
  {
    && Chain(f, df, d2f, x0, tol, h, calls)
    && |calls| == 3 * |h|
    && (|h| == 0 ==> x == x0)
    && (|h| > 0 ==> Continues(tol, h[|h| - 1]) && x == NewtonNext(h[|h| - 1]))
  }

  /** Recording the iteration at x extends the chain. */
  lemma RecordStep(f: real -> real, df: real -> real, d2f: real -> real, x0: real, tol: real,
                   h: seq<Record>, calls: seq<Call>, x: real, h': seq<Record>, calls': seq<Call>)
    requires Reached(f, df, d2f, x0, tol, h, calls, x)
    requires h' == h + [NewtonStep(x, df(x), d2f(x), f(x))]
    requires calls' == calls + [FirstDerivative(x), SecondDerivative(x), Objective(x)]
    ensures Chain(f, df, d2f, x0, tol, h', calls') && |calls'| == 3 * |h'|
    ensures IsNewtonRecord(f, df, d2f, h'[|h|]) && h'[|h|].x == x
  {
    assert forall k: nat :: k < |h| ==> h'[k] == h[k];
    assert forall i :: 0 <= i < 3 * |h| ==> calls'[i] == calls[i];
  }

  /** A recorded iteration that goes on reaches the next loop state. */
  lemma ContinueStep(f: real -> real, df: real -> real, d2f: real -> real, x0: real, tol: real,
                     h: seq<Record>, calls: seq<Call>, xNew: real)
    requires Chain(f, df, d2f, x0, tol, h, calls) && |calls| == 3 * |h| && |h| > 0
    requires Continues(tol, h[|h| - 1]) && xNew == NewtonNext(h[|h| - 1])
    ensures Reached(f, df, d2f, x0, tol, h, calls, xNew)
  {
  }

  /** A chain closed by its last iteration, with f evaluated at the point the
      loop ended on, is a successful run. */
  lemma CloseRun(f: real -> real, df: real -> real, d2f: real -> real, x0: real, tol: real, maxIter: int,
                 h: seq<Record>, probeCalls: seq<Call>, r: OptimizationResult, calls: seq<Call>)
    requires Chain(f, df, d2f, x0, tol, h, probeCalls) && |probeCalls| == 3 * |h|
    requires |h| == 0 ==> maxIter <= 0 && r.xMin == x0
    requires |h| > 0 ==> |h| <= maxIter && Closes(tol, maxIter, |h|, h[|h| - 1], r.xMin)
    requires r == OptimizationResult(r.xMin, f(r.xMin), |h|, h, NewtonName)
    requires calls == probeCalls + [Objective(r.xMin)]
    ensures NewtonRun(f, df, d2f, x0, tol, maxIter, r, calls)
  {
    assert forall i :: 0 <= i < 3 * |h| ==> calls[i] == probeCalls[i];
  }

  /** What `newton_tangent` promises: a missing second derivative is
      rejected before any evaluation; otherwise the run either succeeds or fails
      on zero curvature, and NewtonOutcomeDetermined shows that the inputs
      decide which. */
  ghost predicate NewtonOutcome(f: real -> real, df: real -> real, d2f: Option<real -> real>, x0: real, tol: real,
                                maxIter: int, res: Outcome<OptimizationResult>, calls: seq<Call>)
  {
    if d2f.None? then res == Err(MissingSecondDerivative) && calls == []
    else
      || (res.Ok? && NewtonRun(f, df, d2f.value, x0, tol, maxIter, res.value, calls))
      || (res == Err(DegenerateCurvature) && NewtonFails(f, df, d2f.value, x0, tol, maxIter, calls))
  }

  method NewtonTangent(f: real -> real, df: real -> real, d2f: Option<real -> real>, x0: real, tol: real, maxIter: int)
    returns (res: Outcome<OptimizationResult>, calls: seq<Call>)
    ensures NewtonOutcome(f, df, d2f, x0, tol, maxIter, res, calls)
  {
    if d2f.None? {
      return Err(MissingSecondDerivative), [];
    }
    var d2 := d2f.value;
    var history: seq<Record> := [];
    calls := [];
    var x := x0;
    var i := 0;
    while i < maxIter
      invariant i == |history| && (i == 0 || i <= maxIter)
      invariant Reached(f, df, d2, x0, tol, history, calls, x)
      decreases maxIter - i
    {
      var g := df(x);
      var h := d2(x);
      var fx := f(x);
      ghost var h0, c0 := history, calls;
      history := history + [NewtonStep(x, g, h, fx)];
      calls := calls + [FirstDerivative(x), SecondDerivative(x), Objective(x)];
      RecordStep(f, df, d2, x0, tol, h0, c0, x, history, calls);
      if Abs(g) < tol {
        var r := OptimizationResult(x, f(x), |history|, history, NewtonName);
        CloseRun(f, df, d2, x0, tol, maxIter, history, calls, r, calls + [Objective(x)]);
        return Ok(r), calls + [Objective(x)];
      }
      if h == 0.0 {
        assert FailedChain(f, df, d2, x0, tol, maxIter, history, calls);
        return Err(DegenerateCurvature), calls;
      }
      var step := g / h;
      var xNew := x - step;
      if Abs(xNew - x) < tol {
        var r := OptimizationResult(xNew, f(xNew), |history|, history, NewtonName);
        CloseRun(f, df, d2, x0, tol, maxIter, history, calls, r, calls + [Objective(xNew)]);
        return Ok(r), calls + [Objective(xNew)];
      }
      ContinueStep(f, df, d2, x0, tol, history, calls, xNew);
      x := xNew;
      i := i + 1;
    }
    var r := OptimizationResult(x, f(x), |history|, history, NewtonName);
    CloseRun(f, df, d2, x0, tol, maxIter, history, calls, r, calls + [Objective(x)]);
    res, calls := Ok(r), calls + [Objective(x)];
  }

  /** Two chains from the same x0 agree on every record both hold. */
  lemma {:induction false} ChainsAgree(f: real -> real, df: real -> real, d2f: real -> real, x0: real, tol: real,
                                       h1: seq<Record>, c1: seq<Call>, h2: seq<Record>, c2: seq<Call>, k: nat)
    requires Chain(f, df, d2f, x0, tol, h1, c1) && Chain(f, df, d2f, x0, tol, h2, c2)
    requires k < |h1| && k < |h2|
    ensures h1[k] == h2[k]
  {
    if k > 0 {
      ChainsAgree(f, df, d2f, x0, tol, h1, c1, h2, c2, k - 1);
    }
    assert IsNewtonRecord(f, df, d2f, h1[k]) && IsNewtonRecord(f, df, d2f, h2[k]);
  }

  /** Two chains from the same x0, each as long as c1's and c2's evaluations
      say, with the same length, make the same evaluations. */
  lemma ChainCallsAgree(f: real -> real, df: real -> real, d2f: real -> real, x0: real, tol: real,
                        h1: seq<Record>, c1: seq<Call>, h2: seq<Record>, c2: seq<Call>)
    requires Chain(f, df, d2f, x0, tol, h1, c1) && Chain(f, df, d2f, x0, tol, h2, c2)
    requires |h1| == |h2|
    ensures h1 == h2
    ensures forall i :: 0 <= i < 3 * |h1| ==> c1[i] == c2[i]
  {
    forall k: nat | k < |h1|
      ensures h1[k] == h2[k]
    {
      ChainsAgree(f, df, d2f, x0, tol, h1, c1, h2, c2, k);
    }
    forall i | 0 <= i < 3 * |h1|
      ensures c1[i] == c2[i]
    {
      var k := i / 3;
      assert h1[k] == h2[k];
      assert i == 3 * k || i == 3 * k + 1 || i == 3 * k + 2;
    }
  }

  /** A chain of a run is no longer than any other chain from x0 whose
      records all but the last went on, and whose length the budget allows. */
  lemma {:induction false} RunChainLength(f: real -> real, df: real -> real, d2f: real -> real, x0: real, tol: real, maxIter: int,
                                          r: OptimizationResult, calls: seq<Call>, h: seq<Record>, c: seq<Call>)
    requires NewtonRun(f, df, d2f, x0, tol, maxIter, r, calls)
    requires Chain(f, df, d2f, x0, tol, h, c) && 0 < |h| <= maxIter
    requires Abs(h[|h| - 1].df) >= tol
    ensures |r.history| >= |h|
  {
    var n := |r.history|;
    if n < |h| {
      if n > 0 {
        ChainsAgree(f, df, d2f, x0, tol, r.history, calls, h, c, n - 1);
      }
    }
  }

  /** The inputs decide the outcome: a Newton run cannot both succeed and fail,
      two successful runs agree on result and evaluations, and two failing
      runs make the same evaluations. */
  lemma NewtonOutcomeDetermined(f: real -> real, df: real -> real, d2f: real -> real, x0: real, tol: real, maxIter: int,
                                r1: OptimizationResult, c1: seq<Call>, r2: OptimizationResult, c2: seq<Call>, c3: seq<Call>)
    ensures NewtonRun(f, df, d2f, x0, tol, maxIter, r1, c1) ==> !NewtonFails(f, df, d2f, x0, tol, maxIter, c3)
    ensures NewtonRun(f, df, d2f, x0, tol, maxIter, r1, c1) && NewtonRun(f, df, d2f, x0, tol, maxIter, r2, c2) ==>
              r1 == r2 && c1 == c2
    ensures NewtonFails(f, df, d2f, x0, tol, maxIter, c1) && NewtonFails(f, df, d2f, x0, tol, maxIter, c2) ==>
              c1 == c2
  {
    if NewtonRun(f, df, d2f, x0, tol, maxIter, r1, c1) && NewtonFails(f, df, d2f, x0, tol, maxIter, c3) {
      var h :| FailedChain(f, df, d2f, x0, tol, maxIter, h, c3);
      RunExcludesFailure(f, df, d2f, x0, tol, maxIter, r1, c1, h, c3);
    }
    if NewtonRun(f, df, d2f, x0, tol, maxIter, r1, c1) && NewtonRun(f, df, d2f, x0, tol, maxIter, r2, c2) {
      RunsAgree(f, df, d2f, x0, tol, maxIter, r1, c1, r2, c2);
    }
    if NewtonFails(f, df, d2f, x0, tol, maxIter, c1) && NewtonFails(f, df, d2f, x0, tol, maxIter, c2) {
      var h1 :| FailedChain(f, df, d2f, x0, tol, maxIter, h1, c1);
      var h2 :| FailedChain(f, df, d2f, x0, tol, maxIter, h2, c2);
      FailuresAgree(f, df, d2f, x0, tol, h1, c1, h2, c2);
    }
  }

  /** Beside a successful run, every chain from x0 that the budget allows and
      whose last derivative is not small ends on non-zero curvature: the run's
      own chain passes through that record and went past it. */
  lemma RunExcludesFailure(f: real -> real, df: real -> real, d2f: real -> real, x0: real, tol: real, maxIter: int,
                           r: OptimizationResult, calls: seq<Call>, h: seq<Record>, c: seq<Call>)
    requires NewtonRun(f, df, d2f, x0, tol, maxIter, r, calls)
    requires Chain(f, df, d2f, x0, tol, h, c) && 0 < |h| <= maxIter
    requires Abs(h[|h| - 1].df) >= tol
    ensures h[|h| - 1].d2f != 0.0
  {
    RunChainLength(f, df, d2f, x0, tol, maxIter, r, calls, h, c);
    ChainsAgree(f, df, d2f, x0, tol, r.history, calls, h, c, |h| - 1);
  }

  /** Two failing chains from x0 have the same length, hence the same evaluations. */
  lemma FailuresAgree(f: real -> real, df: real -> real, d2f: real -> real, x0: real, tol: real,
                      h1: seq<Record>, c1: seq<Call>, h2: seq<Record>, c2: seq<Call>)
    requires Chain(f, df, d2f, x0, tol, h1, c1) && |c1| == 3 * |h1| && |h1| > 0 && h1[|h1| - 1].d2f == 0.0
    requires Chain(f, df, d2f, x0, tol, h2, c2) && |c2| == 3 * |h2| && |h2| > 0 && h2[|h2| - 1].d2f == 0.0
    ensures c1 == c2
  {
    var n1, n2 := |h1|, |h2|;
    if n1 < n2 {
      ChainsAgree(f, df, d2f, x0, tol, h1, c1, h2, c2, n1 - 1);
    } else if n2 < n1 {
      ChainsAgree(f, df, d2f, x0, tol, h1, c1, h2, c2, n2 - 1);
    }
    assert n1 == n2;
    ChainCallsAgree(f, df, d2f, x0, tol, h1, c1, h2, c2);
  }

  /** Two successful runs on the same inputs agree on result and evaluations. */
  lemma RunsAgree(f: real -> real, df: real -> real, d2f: real -> real, x0: real, tol: real, maxIter: int,
                  r1: OptimizationResult, c1: seq<Call>, r2: OptimizationResult, c2: seq<Call>)
    requires NewtonRun(f, df, d2f, x0, tol, maxIter, r1, c1)
    requires NewtonRun(f, df, d2f, x0, tol, maxIter, r2, c2)
    ensures r1 == r2 && c1 == c2
  {
    var n1, n2 := |r1.history|, |r2.history|;
    if n1 < n2 {
      if n1 > 0 {
        ChainsAgree(f, df, d2f, x0, tol, r1.history, c1, r2.history, c2, n1 - 1);
      }
    } else if n2 < n1 {
      if n2 > 0 {
        ChainsAgree(f, df, d2f, x0, tol, r1.history, c1, r2.history, c2, n2 - 1);
      }
    }
    assert n1 == n2;
    ChainCallsAgree(f, df, d2f, x0, tol, r1.history, c1, r2.history, c2);
    assert r1.xMin == r2.xMin;
  }

  /** A successful run's history never exceeds the budget, every recorded
      point but the last has derivative at least tol in absolute value, and a
      run that ends on a small derivative returns a stationary-point estimate
      with |df(xMin)| < tol. */
  lemma NewtonRunStops(f: real -> real, df: real -> real, d2f: real -> real, x0: real, tol: real, maxIter: int,
                       r: OptimizationResult, calls: seq<Call>)
    requires NewtonRun(f, df, d2f, x0, tol, maxIter, r, calls)
    ensures r.iterations == 0 || r.iterations <= maxIter
    ensures forall k: nat :: k + 1 < r.iterations ==> Abs(df(r.history[k].x)) >= tol
    ensures r.iterations > 0 && Abs(r.history[r.iterations - 1].df) < tol ==> Abs(df(r.xMin)) < tol
    ensures |calls| == 3 * r.iterations + 1
  {
    forall k: nat | k + 1 < r.iterations
      ensures Abs(df(r.history[k].x)) >= tol
    {
      assert Continues(tol, r.history[k]) && IsNewtonRecord(f, df, d2f, r.history[k]);
    }
    var n := r.iterations;
    if n > 0 {
      assert IsNewtonRecord(f, df, d2f, r.history[n - 1]);
    }
  }
}
