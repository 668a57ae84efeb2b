/** Golden-section search, `golden_section` in app/optim/methods.py: keep two
    probes at the golden ratio inside [a, b], drop the part beyond the probe of
    larger value, and reuse the surviving probe and its value, so that each
    step evaluates f only once; finish with the midpoint of the last interval. */
module Golden {
  import opened Results

  /** rho is 2 - phi, the ratio the source computes as 2 - (1 + sqrt 5) / 2:
      the root in (0, 1/2) of rho == (1 - rho)^2. Real arithmetic has no
      square root, so the ratio is a parameter of the model and the facts
      that depend on its value assume this characterisation. */
  predicate IsResphi(rho: real) {
    0.0 < rho < 0.5 && rho == (1.0 - rho) * (1.0 - rho)
  }

  /** The probe state before the first step: both probes placed on [a, b] and evaluated. */
  function GoldenStart(f: real -> real, a: real, b: real, rho: real): (s: Record)
    ensures s.Probe?
  {
    var x1 := a + rho * (b - a);
    var x2 := b - rho * (b - a);
    Probe(a, b, x1, x2, f(x1), f(x2))
  }

  /** The one point a step evaluates: the new left probe when the left part is
      kept (f1 < f2), the new right probe otherwise. */
  function FreshPoint(s: Record, rho: real): real
    requires s.Probe?
  {
    if s.f1 < s.f2 then s.a + rho * (s.x2 - s.a) else s.b - rho * (s.b - s.x1)
  }

  /** The probe state after one step from s: when f1 < f2 the interval becomes
      [a, x2], the old left probe and its value become the right probe, and a
      new left probe is evaluated; otherwise the interval becomes [x1, b], the
      old right probe becomes the left one, and a new right probe is evaluated. */
  function GoldenNext(f: real -> real, s: Record, rho: real): (t: Record)
    requires s.Probe?
    ensures t.Probe?
    ensures (t.a, t.b) == (s.a, s.x2) || (t.a, t.b) == (s.x1, s.b)
    ensures s.f1 < s.f2 ==> t.x2 == s.x1 && t.f2 == s.f1
    ensures !(s.f1 < s.f2) ==> t.x1 == s.x2 && t.f1 == s.f2
    ensures s.a <= s.x1 <= s.x2 <= s.b ==> s.a <= t.a <= t.b <= s.b
  {
    var p := FreshPoint(s, rho);
    if s.f1 < s.f2 then Probe(s.a, s.x2, p, s.x1, f(p), s.f1)
    else Probe(s.x1, s.b, s.x2, p, s.f2, f(p))
  }

  /** A successful golden-section run from [a0, b0]: the history starts with
      the initial probe state, each later record is the state one step after
      the previous one, every record was written while the guard held, and the
      last record is the midpoint of the state on which the guard first failed.
      The evaluations are the two initial probes, one fresh point per step, and
      the midpoint. */
  ghost predicate GoldenRun(f: real -> real, a0: real, b0: real, tol: real, rho: real, maxIter: int,
                            r: OptimizationResult, calls: seq<Call>)
  {
    var n := r.iterations;
    var h := r.history;
    var start := GoldenStart(f, a0, b0, rho);
    && n >= 0
    && r.methodName == GoldenName
    && |h| == n + 1
    && (forall k: nat :: k < n ==> h[k].Probe? && Open(tol, maxIter, Ends(h[k]), k))
    && (n > 0 ==> h[0] == start)
    && (forall k: nat :: k + 1 < n ==> h[k + 1] == GoldenNext(f, h[k], rho))
    && (var last := if n == 0 then start else GoldenNext(f, h[n - 1], rho);
        && !Open(tol, maxIter, Ends(last), n)
        && h[n] == Midpoint(f, last.a, last.b))
    && r.xMin == h[n].x
    && r.fMin == h[n].fx
    && |calls| == n + 3
    && calls[0] == Objective(start.x1) && calls[1] == Objective(start.x2)
    && (forall k: nat :: k < n ==> calls[k + 2] == Objective(FreshPoint(h[k], rho)))
    && calls[n + 2] == Objective(r.xMin)
  }

  /** What `golden_section` promises: bounds out of order, then a tolerance
      that is not positive, are rejected before any evaluation; otherwise it is
      a golden-section run. */
  ghost predicate GoldenOutcome(f: real -> real, bounds: (real, real), tol: real, maxIter: int, rho: real,
                                res: Outcome<OptimizationResult>, calls: seq<Call>)
  {
    if !(bounds.0 < bounds.1) then res == Err(InvalidBounds) && calls == []
    else if tol <= 0.0 then res == Err(InvalidTolerance) && calls == []
    else res.Ok? && GoldenRun(f, bounds.0, bounds.1, tol, rho, maxIter, res.value, calls)
  }

  /** `golden_section` with the golden ratio supplied as rho. There is no
      check on max_iter: a budget of zero or less runs no step. */
  method GoldenSection(f: real -> real, bounds: (real, real), tol: real, maxIter: int, rho: real)
    returns (res: Outcome<OptimizationResult>, calls: seq<Call>)
    ensures GoldenOutcome(f, bounds, tol, maxIter, rho, res, calls)
  {
    var (a, b) := bounds;
    if !(a < b) {
      return Err(InvalidBounds), [];
    }
    if tol <= 0.0 {
      return Err(InvalidTolerance), [];
    }
    var r;
    r, calls := Shrink(f, a, b, tol, rho, maxIter);
    res := Ok(r);
  }

  /** The loop state after |h| steps from [a0, b0]: h holds the states the
      steps started from, chained from the initial state, each with the guard
      holding; st is the current state; calls holds the two initial
      evaluations and one per step. */
  predicate Reached(f: real -> real, a0: real, b0: real, tol: real, rho: real, maxIter: int,
                    h: seq<Record>, st: Record, calls: seq<Call>)
  {
    var start := GoldenStart(f, a0, b0, rho);
    && st.Probe?
    && |calls| == |h| + 2
    && calls[0] == Objective(start.x1) && calls[1] == Objective(start.x2)
    && (forall k: nat :: k < |h| ==>
          && h[k].Probe? && Open(tol, maxIter, Ends(h[k]), k)
          && calls[k + 2] == Objective(FreshPoint(h[k], rho)))
    && (forall k: nat :: k + 1 < |h| ==> h[k + 1] == GoldenNext(f, h[k], rho))
    && (|h| == 0 ==> st == start)
    && (|h| > 0 ==> h[0] == start && st == GoldenNext(f, h[|h| - 1], rho))
  }

  /** Recording the current state, taking one step from it and evaluating its
      fresh point reaches the next state. */
  lemma ReachedStep(f: real -> real, a0: real, b0: real, tol: real, rho: real, maxIter: int,
                    h: seq<Record>, st: Record, calls: seq<Call>,
                    h': seq<Record>, st': Record, calls': seq<Call>)
    requires Reached(f, a0, b0, tol, rho, maxIter, h, st, calls)
    requires Open(tol, maxIter, Ends(st), |h|)
    requires h' == h + [st]
    requires st' == GoldenNext(f, st, rho)
    requires calls' == calls + [Objective(FreshPoint(st, rho))]
    ensures Reached(f, a0, b0, tol, rho, maxIter, h', st', calls')
  {
    assert forall k: nat :: k < |h| ==> h'[k] == h[k];
    assert forall i :: 2 <= i < |h| + 2 ==> calls'[i] == calls[i];
  }

  /** A reached state whose guard fails, closed with its midpoint record and
      that evaluation, is a complete run. */
  lemma ReachedClose(f: real -> real, a0: real, b0: real, tol: real, rho: real, maxIter: int,
                     h: seq<Record>, st: Record, probeCalls: seq<Call>,
                     r: OptimizationResult, calls: seq<Call>)
    requires Reached(f, a0, b0, tol, rho, maxIter, h, st, probeCalls)
    requires !Open(tol, maxIter, Ends(st), |h|)
    requires r == OptimizationResult((st.a + st.b) / 2.0, f((st.a + st.b) / 2.0), |h|,
                                     h + [Midpoint(f, st.a, st.b)], GoldenName)
    requires calls == probeCalls + [Objective(r.xMin)]
    ensures GoldenRun(f, a0, b0, tol, rho, maxIter, r, calls)
  {
    assert forall k: nat :: k < |h| ==> r.history[k] == h[k];
    assert forall i :: 2 <= i < |h| + 2 ==> calls[i] == probeCalls[i];
  }

  /** The loop of `golden_section` after its argument checks. */
  method Shrink(f: real -> real, a0: real, b0: real, tol: real, rho: real, maxIter: int)
    returns (r: OptimizationResult, calls: seq<Call>)
    ensures GoldenRun(f, a0, b0, tol, rho, maxIter, r, calls)
  {
    var a, b := a0, b0;
    var x1 := a + rho * (b - a);
    var x2 := b - rho * (b - a);
    var f1 := f(x1);
    var f2 := f(x2);
    calls := [Objective(x1), Objective(x2)];
    var history: seq<Record> := [];
    var iterations := 0;
    while b - a > tol && iterations < maxIter
      invariant iterations == |history|
      invariant Reached(f, a0, b0, tol, rho, maxIter, history, Probe(a, b, x1, x2, f1, f2), calls)
      decreases maxIter - iterations
    {
      ghost var h0, st0, c0 := history, Probe(a, b, x1, x2, f1, f2), calls;
      history := history + [Probe(a, b, x1, x2, f1, f2)];
      if f1 < f2 {
        b, x2, f2 := x2, x1, f1;
        x1 := a + rho * (b - a);
        f1 := f(x1);
        calls := calls + [Objective(x1)];
        assert x1 == FreshPoint(st0, rho);
      } else {
        a, x1, f1 := x1, x2, f2;
        x2 := b - rho * (b - a);
        f2 := f(x2);
        calls := calls + [Objective(x2)];
        assert x2 == FreshPoint(st0, rho);
      }
      ReachedStep(f, a0, b0, tol, rho, maxIter, h0, st0, c0, history, Probe(a, b, x1, x2, f1, f2), calls);
      iterations := iterations + 1;
    }
    var xMin := (a + b) / 2.0;
    var fMin := f(xMin);
    r := OptimizationResult(xMin, fMin, iterations, history + [Final(a, b, xMin, fMin)], GoldenName);
    ReachedClose(f, a0, b0, tol, rho, maxIter, history, Probe(a, b, x1, x2, f1, f2), calls, r,
                 calls + [Objective(xMin)]);
    calls := calls + [Objective(xMin)];
  }

  /** A probe state in golden position: x1 and x2 at ratio rho from the two
      ends, and f1, f2 the objective's values there. */
  predicate Placed(f: real -> real, rho: real, s: Record) {
    && s.Probe?
    && s.x1 == s.a + rho * (s.b - s.a)
    && s.x2 == s.b - rho * (s.b - s.a)
    && s.f1 == f(s.x1) && s.f2 == f(s.x2)
  }

  /** t's interval is s's scaled by 1 - rho (that is, by 1 / phi). */
  predicate ShrunkBy(rho: real, s: Record, t: Record) {
    HasBracket(s) && HasBracket(t) && t.b - t.a == (1.0 - rho) * (s.b - s.a)
  }

  /** The initial state is in golden position. */
  lemma StartPlaced(f: real -> real, a: real, b: real, rho: real)
    ensures Placed(f, rho, GoldenStart(f, a, b, rho))
  {
  }

  /** Probes in golden position on a non-empty interval are strictly inside it, in order. */
  lemma PlacedInside(f: real -> real, rho: real, s: Record)
    requires 0.0 < rho < 0.5 && Placed(f, rho, s) && s.a < s.b
    ensures s.a < s.x1 < s.x2 < s.b
  {
    Positive(rho, s.b - s.a);
    Positive(1.0 - 2.0 * rho, s.b - s.a);
  }

  lemma Positive(x: real, y: real)
    requires x > 0.0 && y > 0.0
    ensures x * y > 0.0
  {
  }

  /** The defining identity of the ratio, scaled: (1 - rho) of (1 - rho) of w is rho of w. */
  lemma Shrunk(rho: real, w: real)
    requires rho == (1.0 - rho) * (1.0 - rho)
    ensures (1.0 - rho) * ((1.0 - rho) * w) == rho * w
  {
    assert (1.0 - rho) * ((1.0 - rho) * w) == ((1.0 - rho) * (1.0 - rho)) * w;
  }

  /** The golden step: from a state in golden position, the probe carried over
      is exactly where a freshly placed probe on the new interval would be, so
      the next state is again in golden position; the new interval is the old
      one scaled by 1 - rho and lies inside it. */
  lemma NextPlaced(f: real -> real, rho: real, s: Record)
    requires IsResphi(rho) && Placed(f, rho, s) && s.a < s.b
    ensures var t := GoldenNext(f, s, rho);
            && Placed(f, rho, t)
            && ShrunkBy(rho, s, t)
            && s.a <= t.a < t.b <= s.b
  {
    var w := s.b - s.a;
    var u := (1.0 - rho) * w;
    var t := GoldenNext(f, s, rho);
    PlacedInside(f, rho, s);
    Shrunk(rho, w);
    assert rho * w + u == w;
    assert (1.0 - rho) * u == rho * w;
    assert rho * u + rho * w == u;
    if s.f1 < s.f2 {
      assert t.a == s.a && t.b == s.a + u;
      assert t.x1 == t.a + rho * (t.b - t.a);
      assert t.x2 == s.a + rho * w;
    } else {
      assert t.b == s.b && t.a == s.b - u;
      assert t.x2 == t.b - rho * (t.b - t.a);
      assert t.x1 == s.b - rho * w;
    }
  }

  /** The probe state after k steps from [a0, b0], whatever the guard says. */
  function Iterate(f: real -> real, a0: real, b0: real, rho: real, k: nat): (s: Record)
    ensures s.Probe?
  {
    if k == 0 then GoldenStart(f, a0, b0, rho) else GoldenNext(f, Iterate(f, a0, b0, rho, k - 1), rho)
  }

  /** Every state reached from a non-empty [a0, b0] is in golden position
      inside [a0, b0], and each step scales the interval by 1 - rho. */
  lemma {:induction false} IteratePlaced(f: real -> real, a0: real, b0: real, rho: real, k: nat)
    requires a0 < b0 && IsResphi(rho)
    ensures var s := Iterate(f, a0, b0, rho, k);
            && Placed(f, rho, s)
            && a0 <= s.a < s.b <= b0
    ensures k > 0 ==> ShrunkBy(rho, Iterate(f, a0, b0, rho, k - 1), Iterate(f, a0, b0, rho, k))
  {
    if k == 0 {
      StartPlaced(f, a0, b0, rho);
    } else {
      IteratePlaced(f, a0, b0, rho, k - 1);
      var p := Iterate(f, a0, b0, rho, k - 1);
      NextPlaced(f, rho, p);
    }
  }

  /** Record k of a run, for k below the step count, is the state after k steps. */
  lemma {:induction false} RunIteratesAt(f: real -> real, a0: real, b0: real, tol: real, rho: real, maxIter: int,
                                         r: OptimizationResult, calls: seq<Call>, k: nat)
    requires GoldenRun(f, a0, b0, tol, rho, maxIter, r, calls)
    requires k < r.iterations
    ensures r.history[k] == Iterate(f, a0, b0, rho, k)
  {
    if k > 0 {
      RunIteratesAt(f, a0, b0, tol, rho, maxIter, r, calls, k - 1);
      assert r.history[k] == GoldenNext(f, r.history[k - 1], rho);
    }
  }

  /** A run records the states after 0, 1, ..., n - 1 steps, the guard holds
      on each of them and fails on the state after n steps, whose midpoint
      closes the history. */
  lemma RunIterates(f: real -> real, a0: real, b0: real, tol: real, rho: real, maxIter: int,
                    r: OptimizationResult, calls: seq<Call>)
    requires GoldenRun(f, a0, b0, tol, rho, maxIter, r, calls)
    ensures forall k: nat :: k < r.iterations ==>
              r.history[k] == Iterate(f, a0, b0, rho, k) && Open(tol, maxIter, Ends(Iterate(f, a0, b0, rho, k)), k)
    ensures var last := Iterate(f, a0, b0, rho, r.iterations);
            && !Open(tol, maxIter, Ends(last), r.iterations)
            && r.history[r.iterations] == Midpoint(f, last.a, last.b)
  {
    var n := r.iterations;
    forall k: nat | k < n
      ensures r.history[k] == Iterate(f, a0, b0, rho, k)
    {
      RunIteratesAt(f, a0, b0, tol, rho, maxIter, r, calls, k);
    }
    if n > 0 {
      assert Iterate(f, a0, b0, rho, n) == GoldenNext(f, r.history[n - 1], rho);
    }
  }

  /** Every recorded state of a run keeps its probes in golden position
      strictly inside its interval and inside [a0, b0], each record's interval
      is the previous one scaled by 1 - rho, and the returned point lies
      strictly inside [a0, b0]. */
  lemma GoldenRunInBounds(f: real -> real, a0: real, b0: real, tol: real, rho: real, maxIter: int,
                          r: OptimizationResult, calls: seq<Call>)
    requires a0 < b0 && IsResphi(rho)
    requires GoldenRun(f, a0, b0, tol, rho, maxIter, r, calls)
    ensures forall k: nat :: k < r.iterations ==>
              && Placed(f, rho, r.history[k])
              && r.history[k].a < r.history[k].x1 < r.history[k].x2 < r.history[k].b
              && a0 <= r.history[k].a && r.history[k].b <= b0
    ensures forall k: nat :: 0 < k <= r.iterations ==> ShrunkBy(rho, r.history[k - 1], r.history[k])
    ensures a0 <= r.history[r.iterations].a < r.history[r.iterations].b <= b0
    ensures a0 < r.xMin < b0
  {
    var n := r.iterations;
    var h := r.history;
    RunIterates(f, a0, b0, tol, rho, maxIter, r, calls);
    forall k: nat | k < n
      ensures && Placed(f, rho, h[k])
              && h[k].a < h[k].x1 < h[k].x2 < h[k].b
              && a0 <= h[k].a && h[k].b <= b0
    {
      IteratePlaced(f, a0, b0, rho, k);
      PlacedInside(f, rho, h[k]);
    }
    forall k: nat | 0 < k < n
      ensures ShrunkBy(rho, h[k - 1], h[k])
    {
      IteratePlaced(f, a0, b0, rho, k);
    }
    IteratePlaced(f, a0, b0, rho, n);
    var last := Iterate(f, a0, b0, rho, n);
    MidpointPlacement(f, last.a, last.b);
    assert Ends(h[n]) == Ends(last);
  }

  /** The run stops at the first state whose guard fails, every interval
      probed was wider than tol, the step count never exceeds a non-negative
      budget, and each step costs exactly one evaluation of f. */
  lemma GoldenRunStops(f: real -> real, a0: real, b0: real, tol: real, rho: real, maxIter: int,
                       r: OptimizationResult, calls: seq<Call>)
    requires GoldenRun(f, a0, b0, tol, rho, maxIter, r, calls)
    ensures Width(r.history[r.iterations]) <= tol || r.iterations >= maxIter
    ensures forall k: nat :: k < r.iterations ==> Width(r.history[k]) > tol
    ensures r.iterations == 0 || r.iterations <= maxIter
    ensures |calls| == r.iterations + 3
  {
    var n := r.iterations;
    if n > 0 {
      assert Open(tol, maxIter, Ends(r.history[n - 1]), n - 1);
    }
  }

  /** Two runs on the same inputs agree on everything: result, history and evaluations. */
  lemma GoldenRunUnique(f: real -> real, a0: real, b0: real, tol: real, rho: real, maxIter: int,
                        r1: OptimizationResult, c1: seq<Call>, r2: OptimizationResult, c2: seq<Call>)
    requires GoldenRun(f, a0, b0, tol, rho, maxIter, r1, c1)
    requires GoldenRun(f, a0, b0, tol, rho, maxIter, r2, c2)
    ensures r1 == r2 && c1 == c2
  {
    RunIterates(f, a0, b0, tol, rho, maxIter, r1, c1);
    RunIterates(f, a0, b0, tol, rho, maxIter, r2, c2);
    var n1, n2 := r1.iterations, r2.iterations;
    assert n1 == n2;
    assert r1.history == r2.history;
    forall i | 0 <= i < |c1|
      ensures c1[i] == c2[i]
    {
      if 2 <= i < n1 + 2 {
        assert r1.history[i - 2] == r2.history[i - 2];
      }
    }
  }
}
