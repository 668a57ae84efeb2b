/** Dichotomy search, `dichotomy` in app/optim/methods.py: probe f at
    mid - delta and mid + delta, keep the part of [a, b] on the side of the
    smaller value, and repeat while the interval is wider than tol and the
    iteration budget lasts; finish with the midpoint of the last interval. */
module Dichotomy {
  import opened Results

  /** The probe offset: delta when given, tol / 2 otherwise. */
  function EffectiveDelta(tol: real, delta: Option<real>): (d: real)
    ensures delta.Some? ==> d == delta.value
    ensures delta.None? && tol > 0.0 ==> 0.0 < d < tol
  {
    if delta.None? then tol / 2.0 else delta.value
  }

  /** The record of one step on [a, b]: the two probes delta either side of the midpoint and their values. */
  function ProbePair(f: real -> real, a: real, b: real, delta: real): (s: Record)
    ensures s.Probe?
  {
    var m := (a + b) / 2.0;
    Probe(a, b, m - delta, m + delta, f(m - delta), f(m + delta))
  }

  /** The interval kept after one step: [a, x2] when f1 < f2, and [x1, b] otherwise, ties included. */
  function Narrowed(s: Record): Interval
    requires s.Probe?
  {
    if s.f1 < s.f2 then Interval(s.a, s.x2) else Interval(s.x1, s.b)
  }

  /** s is the record of one step: the probe pair on its own interval. */
  predicate IsStep(f: real -> real, delta: real, s: Record) {
    s.Probe? && s == ProbePair(f, s.a, s.b, delta)
  }

  /** A successful dichotomy run from [a0, b0]: the history starts on
      [a0, b0]; each of the first n records is the probe pair of its interval,
      written while the guard held, and the next record carries the interval
      that probe pair keeps; the last record is the midpoint of the interval
      on which the guard first failed, and the result is that midpoint. */
  ghost predicate DichotomyRun(f: real -> real, a0: real, b0: real, tol: real, delta: real, maxIter: int,
                               r: OptimizationResult, calls: seq<Call>)
  {
    var n := r.iterations;
    var h := r.history;
    && n >= 0
    && r.methodName == DichotomyName
    && |h| == n + 1
    && (forall k: nat :: k < n ==> IsStep(f, delta, h[k]) && Open(tol, maxIter, Ends(h[k]), k))
    && h[n].Final?
    && Ends(h[0]) == Interval(a0, b0)
    && (forall k: nat :: k < n ==> Ends(h[k + 1]) == Narrowed(h[k]))
    && h[n] == Midpoint(f, h[n].a, h[n].b)
    && !Open(tol, maxIter, Ends(h[n]), n)
    && r.xMin == h[n].x
    && r.fMin == h[n].fx
    && |calls| == 2 * n + 1
    && (forall k: nat :: k < n ==> calls[2 * k] == Objective(h[k].x1) && calls[2 * k + 1] == Objective(h[k].x2))
    && calls[2 * n] == Objective(r.xMin)
  }

  /** What `dichotomy` promises: bounds out of order, then a tolerance that
      is not positive, then a half-gap that is not positive are rejected before
      any evaluation; otherwise it is a dichotomy run with the effective delta. */
  ghost predicate DichotomyOutcome(f: real -> real, bounds: (real, real), tol: real, delta: Option<real>, maxIter: int,
                                   res: Outcome<OptimizationResult>, calls: seq<Call>)
  {
    if !(bounds.0 < bounds.1) then res == Err(InvalidBounds) && calls == []
    else if tol <= 0.0 then res == Err(InvalidTolerance) && calls == []
    else if EffectiveDelta(tol, delta) <= 0.0 then res == Err(InvalidDelta) && calls == []
    else res.Ok? && DichotomyRun(f, bounds.0, bounds.1, tol, EffectiveDelta(tol, delta), maxIter, res.value, calls)
  }

  method Dichotomy(f: real -> real, bounds: (real, real), tol: real, delta: Option<real>, maxIter: int)
    returns (res: Outcome<OptimizationResult>, calls: seq<Call>)
    ensures DichotomyOutcome(f, bounds, tol, delta, maxIter, res, calls)
  {
    var (a, b) := bounds;
    if !(a < b) {
      return Err(InvalidBounds), [];
    }
    if tol <= 0.0 {
      return Err(InvalidTolerance), [];
    }
    var d := EffectiveDelta(tol, delta);
    if d <= 0.0 {
      return Err(InvalidDelta), [];
    }
    var r;
    r, calls := Narrow(f, a, b, tol, d, maxIter);
    res := Ok(r);
  }

  /** The loop state after |h| steps: h holds the records of the steps taken
      so far, each written while the guard held, chained from [a0, b0], and ab
      is the interval the last of them kept; calls holds their evaluations,
      two per step at its probes, in order. */
  predicate Reached(f: real -> real, a0: real, b0: real, tol: real, delta: real, maxIter: int,
                    h: seq<Record>, ab: Interval, calls: seq<Call>)
  {
    && |calls| == 2 * |h|
    && (forall k: nat :: k < |h| ==>
          && IsStep(f, delta, h[k]) && Open(tol, maxIter, Ends(h[k]), k)
          && calls[2 * k] == Objective(h[k].x1) && calls[2 * k + 1] == Objective(h[k].x2))
    && (forall k: nat :: k + 1 < |h| ==> Ends(h[k + 1]) == Narrowed(h[k]))
    && (|h| == 0 ==> ab == Interval(a0, b0))
    && (|h| > 0 ==> Ends(h[0]) == Interval(a0, b0) && ab == Narrowed(h[|h| - 1]))
  }

  /** One more step from a reached state whose guard holds: probing at
      mid -/+ delta, recording the pair and keeping the side of the smaller
      value reaches the next state. */
  lemma ReachedStep(f: real -> real, a0: real, b0: real, tol: real, delta: real, maxIter: int,
                    h: seq<Record>, ab: Interval, calls: seq<Call>,
                    x1: real, x2: real, f1: real, f2: real,
                    h': seq<Record>, ab': Interval, calls': seq<Call>)
    requires Reached(f, a0, b0, tol, delta, maxIter, h, ab, calls)
    requires Open(tol, maxIter, ab, |h|)
    requires x1 == (ab.lo + ab.hi) / 2.0 - delta && x2 == (ab.lo + ab.hi) / 2.0 + delta
    requires f1 == f(x1) && f2 == f(x2)
    requires h' == h + [Probe(ab.lo, ab.hi, x1, x2, f1, f2)]
    requires calls' == calls + [Objective(x1), Objective(x2)]
    requires ab' == if f1 < f2 then Interval(ab.lo, x2) else Interval(x1, ab.hi)
    ensures Reached(f, a0, b0, tol, delta, maxIter, h', ab', calls')
  {
    var s := Probe(ab.lo, ab.hi, x1, x2, f1, f2);
    assert forall k: nat :: k < |h| ==> h'[k] == h[k];
    assert forall k: nat :: k < |h| ==> calls'[2 * k] == calls[2 * k] && calls'[2 * k + 1] == calls[2 * k + 1];
    assert IsStep(f, delta, s) && Ends(s) == ab && ab' == Narrowed(s);
  }

  /** A reached state whose guard fails, closed with the midpoint record and
      its evaluation, is a complete run. */
  lemma ReachedClose(f: real -> real, a0: real, b0: real, tol: real, delta: real, maxIter: int,
                     h: seq<Record>, ab: Interval, probeCalls: seq<Call>,
                     r: OptimizationResult, calls: seq<Call>)
    requires Reached(f, a0, b0, tol, delta, maxIter, h, ab, probeCalls)
    requires !Open(tol, maxIter, ab, |h|)
    requires r == OptimizationResult((ab.lo + ab.hi) / 2.0, f((ab.lo + ab.hi) / 2.0), |h|,
                                     h + [Midpoint(f, ab.lo, ab.hi)], DichotomyName)
    requires calls == probeCalls + [Objective(r.xMin)]
    ensures DichotomyRun(f, a0, b0, tol, delta, maxIter, r, calls)
  {
    assert forall k: nat :: k < |h| ==> r.history[k] == h[k];
    assert forall k: nat :: k < |h| ==> calls[2 * k] == probeCalls[2 * k] && calls[2 * k + 1] == probeCalls[2 * k + 1];
  }

  /** The loop of `dichotomy` after its argument checks. */
  method Narrow(f: real -> real, a0: real, b0: real, tol: real, d: real, maxIter: int)
    returns (r: OptimizationResult, calls: seq<Call>)
    ensures DichotomyRun(f, a0, b0, tol, d, maxIter, r, calls)
  {
    var a, b := a0, b0;
    var history: seq<Record> := [];
    calls := [];
    var iterations := 0;
    while b - a > tol && iterations < maxIter
      invariant iterations == |history|
      invariant Reached(f, a0, b0, tol, d, maxIter, history, Interval(a, b), calls)
      decreases maxIter - iterations
    {
      ghost var h0, ab0, c0 := history, Interval(a, b), calls;
      var m := (a + b) / 2.0;
      var x1 := m - d;
      var x2 := m + d;
      var f1 := f(x1);
      var f2 := f(x2);
      calls := calls + [Objective(x1), Objective(x2)];
      var s := Probe(a, b, x1, x2, f1, f2);
      history := history + [s];
      if f1 < f2 {
        b := x2;
      } else {
        a := x1;
      }
      ReachedStep(f, a0, b0, tol, d, maxIter, h0, ab0, c0, x1, x2, f1, f2, history, Interval(a, b), calls);
      iterations := iterations + 1;
    }
    var xMin := (a + b) / 2.0;
    var fMin := f(xMin);
    r := OptimizationResult(xMin, fMin, iterations, history + [Final(a, b, xMin, fMin)], DichotomyName);
    ReachedClose(f, a0, b0, tol, d, maxIter, history, Interval(a, b), calls, r, calls + [Objective(xMin)]);
    calls := calls + [Objective(xMin)];
  }

  /** One step on an interval wider than 2 delta: the kept interval has width
      half the old one plus delta, lies inside the old one, and is strictly
      narrower. */
  lemma NarrowedWidth(f: real -> real, a: real, b: real, delta: real)
    requires 0.0 < delta && 2.0 * delta < b - a
    ensures var ab := Narrowed(ProbePair(f, a, b, delta));
            && ab.hi - ab.lo == (b - a) / 2.0 + delta
            && a < ab.lo + delta && ab.hi - delta < b
            && a <= ab.lo < ab.hi <= b
            && ab.hi - ab.lo < b - a
  {
  }

  /** With delta at most tol / 2 (the default), every interval of a run lies
      inside [a0, b0] with lo < hi. */
  lemma {:induction false} RunNested(f: real -> real, a0: real, b0: real, tol: real, delta: real, maxIter: int,
                                     r: OptimizationResult, calls: seq<Call>, k: nat)
    requires a0 < b0 && 0.0 < delta && 2.0 * delta <= tol
    requires DichotomyRun(f, a0, b0, tol, delta, maxIter, r, calls)
    requires k <= r.iterations
    ensures a0 <= r.history[k].a < r.history[k].b <= b0
  {
    if k > 0 {
      RunNested(f, a0, b0, tol, delta, maxIter, r, calls, k - 1);
      var s := r.history[k - 1];
      assert IsStep(f, delta, s) && Open(tol, maxIter, Ends(s), k - 1);
      NarrowedWidth(f, s.a, s.b, delta);
      assert Ends(r.history[k]) == Narrowed(s);
    }
  }

  /** In the default case delta <= tol / 2, every recorded interval satisfies
      a < b inside the original bounds, each step keeps half the interval plus
      delta, strictly narrower and nested in the previous one, and the returned
      point lies strictly inside [a0, b0]. */
  lemma DichotomyRunInBounds(f: real -> real, a0: real, b0: real, tol: real, delta: real, maxIter: int,
                             r: OptimizationResult, calls: seq<Call>)
    requires a0 < b0 && 0.0 < delta && 2.0 * delta <= tol
    requires DichotomyRun(f, a0, b0, tol, delta, maxIter, r, calls)
    ensures forall k: nat :: k <= r.iterations ==> a0 <= r.history[k].a < r.history[k].b <= b0
    ensures forall k: nat :: k < r.iterations ==>
              && r.history[k].a <= r.history[k + 1].a && r.history[k + 1].b <= r.history[k].b
              && Width(r.history[k + 1]) == Width(r.history[k]) / 2.0 + delta
              && Width(r.history[k + 1]) < Width(r.history[k])
    ensures a0 < r.xMin < b0
  {
    var n := r.iterations;
    forall k: nat | k <= n
      ensures a0 <= r.history[k].a < r.history[k].b <= b0
    {
      RunNested(f, a0, b0, tol, delta, maxIter, r, calls, k);
    }
    forall k: nat | k < n
      ensures && r.history[k].a <= r.history[k + 1].a && r.history[k + 1].b <= r.history[k].b
              && Width(r.history[k + 1]) == Width(r.history[k]) / 2.0 + delta
              && Width(r.history[k + 1]) < Width(r.history[k])
    {
      var s := r.history[k];
      assert IsStep(f, delta, s) && Open(tol, maxIter, Ends(s), k);
      NarrowedWidth(f, s.a, s.b, delta);
      assert Ends(r.history[k + 1]) == Narrowed(s);
    }
    MidpointPlacement(f, r.history[n].a, r.history[n].b);
  }

  /** The run stops at the first step whose guard fails: either the interval is
      no wider than tol, or the budget is spent; the step count never exceeds a
      non-negative budget, and every interval probed was wider than tol. */
  lemma DichotomyRunStops(f: real -> real, a0: real, b0: real, tol: real, delta: real, maxIter: int,
                          r: OptimizationResult, calls: seq<Call>)
    requires DichotomyRun(f, a0, b0, tol, delta, maxIter, r, calls)
    ensures Width(r.history[r.iterations]) <= tol || r.iterations >= maxIter
    ensures r.iterations == 0 || r.iterations <= maxIter
    ensures forall k: nat :: k < r.iterations ==> Width(r.history[k]) > tol
  {
    var n := r.iterations;
    if n > 0 {
      assert Open(tol, maxIter, Ends(r.history[n - 1]), n - 1);
    }
  }

  /** Two runs on the same inputs carry the same interval at every step both reach. */
  lemma {:induction false} RunsAgree(f: real -> real, a0: real, b0: real, tol: real, delta: real, maxIter: int,
                                     r1: OptimizationResult, c1: seq<Call>, r2: OptimizationResult, c2: seq<Call>, k: nat)
    requires DichotomyRun(f, a0, b0, tol, delta, maxIter, r1, c1)
    requires DichotomyRun(f, a0, b0, tol, delta, maxIter, r2, c2)
    requires k <= r1.iterations && k <= r2.iterations
    ensures Ends(r1.history[k]) == Ends(r2.history[k])
  {
    if k > 0 {
      RunsAgree(f, a0, b0, tol, delta, maxIter, r1, c1, r2, c2, k - 1);
      var s1, s2 := r1.history[k - 1], r2.history[k - 1];
      assert IsStep(f, delta, s1) && IsStep(f, delta, s2);
      assert s1 == s2;
      assert Ends(r1.history[k]) == Narrowed(s1);
      assert Ends(r2.history[k]) == Narrowed(s2);
    }
  }

  /** Two runs on the same inputs agree on everything: result, history and evaluations. */
  lemma DichotomyRunUnique(f: real -> real, a0: real, b0: real, tol: real, delta: real, maxIter: int,
                           r1: OptimizationResult, c1: seq<Call>, r2: OptimizationResult, c2: seq<Call>)
    requires DichotomyRun(f, a0, b0, tol, delta, maxIter, r1, c1)
    requires DichotomyRun(f, a0, b0, tol, delta, maxIter, r2, c2)
    ensures r1 == r2 && c1 == c2
  {
    var n1, n2 := r1.iterations, r2.iterations;
    var n := if n1 < n2 then n1 else n2;
    RunsAgree(f, a0, b0, tol, delta, maxIter, r1, c1, r2, c2, n);
    assert Open(tol, maxIter, Ends(r1.history[n]), n) || Open(tol, maxIter, Ends(r2.history[n]), n) ==> n1 == n2;
    assert n1 == n2;
    forall k: nat | k <= n1
      ensures r1.history[k] == r2.history[k]
    {
      RunsAgree(f, a0, b0, tol, delta, maxIter, r1, c1, r2, c2, k);
    }
    assert r1.history == r2.history;
    forall i | 0 <= i < |c1|
      ensures c1[i] == c2[i]
    {
      var k: nat := i / 2;
      if k < n1 {
        assert r1.history[k] == r2.history[k];
        if i == 2 * k {
          assert c1[2 * k] == c2[2 * k];
        } else {
          assert c1[2 * k + 1] == c2[2 * k + 1];
        }
      } else {
        assert i == 2 * n1;
      }
    }
  }
}
