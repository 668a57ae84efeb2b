/** Passive (uniform grid) search, `passive_search` in app/optim/methods.py:
    evaluate f at `samples` evenly spaced points of [a, b], both ends included,
    and return the first point of least value. */
module Passive {
  import opened Results

  /** Point i of the uniform grid of n points over [a, b] (the spacing of np.linspace). */
  function GridPoint(a: real, b: real, n: int, i: int): (x: real)
    requires n >= 2
    ensures i == 0 ==> x == a
    ensures i == n - 1 ==> x == b
    ensures a <= b && 0 <= i < n ==> a <= x <= b
  {
    a + (i as real) * ((b - a) / ((n - 1) as real))
  }

  /** The objective's values on the grid, in grid order. */
  function GridValues(f: real -> real, a: real, b: real, n: int): seq<real>
    requires n >= 2
  {
    seq(n, i requires 0 <= i < n => f(GridPoint(a, b, n, i)))
  }

  /** The grid starts at a, ends at b and climbs strictly in between. */
  lemma GridSpansInterval(a: real, b: real, n: int, i: int, j: int)
    requires a < b && n >= 2
    requires 0 <= i < j < n
    ensures GridPoint(a, b, n, 0) == a && GridPoint(a, b, n, n - 1) == b
    ensures a <= GridPoint(a, b, n, i) < GridPoint(a, b, n, j) <= b
  {
    var step := (b - a) / ((n - 1) as real);
    assert step > 0.0;
    assert ((n - 1) as real) * step == b - a;
    assert (i as real) * step >= 0.0;
    assert ((j - i) as real) * step > 0.0;
    assert (j as real) * step - (i as real) * step == ((j - i) as real) * step;
    assert GridPoint(a, b, n, j) - GridPoint(a, b, n, i) == ((j - i) as real) * step;
    assert ((n - 1 - j) as real) * step >= 0.0;
    assert ((n - 1) as real) * step - (j as real) * step == ((n - 1 - j) as real) * step;
  }

  /** k is the first index holding the least value of vals. */
  predicate IsFirstMin(vals: seq<real>, k: int) {
    && 0 <= k < |vals|
    && (forall j :: 0 <= j < |vals| ==> vals[k] <= vals[j])
    && (forall j :: 0 <= j < k ==> vals[j] > vals[k])
  }

  /** At most one index is the first index of the least value. */
  lemma FirstMinUnique(vals: seq<real>, k1: int, k2: int)
    requires IsFirstMin(vals, k1) && IsFirstMin(vals, k2)
    ensures k1 == k2
  {
    assert vals[k1] <= vals[k2] && vals[k2] <= vals[k1];
  }

  /** First-index argmin, the index np.argmin returns. */
  method FirstArgMin(vals: seq<real>) returns (k: int)
    requires |vals| > 0
    ensures IsFirstMin(vals, k)
  {
    k := 0;
    var i := 1;
    while i < |vals|
      invariant 1 <= i <= |vals|
      invariant 0 <= k < i
      invariant forall j :: 0 <= j < i ==> vals[k] <= vals[j]
      invariant forall j :: 0 <= j < k ==> vals[j] > vals[k]
    {
      if vals[i] < vals[k] {
        k := i;
      }
      i := i + 1;
    }
  }

  /** A successful passive search over [a, b] with n samples: one record per
      grid point, in grid order, one evaluation per point, and the result is
      the first grid point of least value. */
  ghost predicate PassiveRun(f: real -> real, a: real, b: real, n: int,
                             r: OptimizationResult, calls: seq<Call>)
    requires n >= 2
  {
    && r.methodName == PassiveName
    && r.iterations == n
    && |r.history| == n
    && (forall i :: 0 <= i < n ==> r.history[i] == Sample(GridPoint(a, b, n, i), f(GridPoint(a, b, n, i))))
    && |calls| == n
    && (forall i :: 0 <= i < n ==> calls[i] == Objective(GridPoint(a, b, n, i)))
    && exists k :: IsFirstMin(GridValues(f, a, b, n), k)
                   && r.xMin == GridPoint(a, b, n, k)
                   && r.fMin == f(r.xMin)
  }

  /** What `passive_search` promises: bounds out of order, then a sample
      count below two, are rejected before any evaluation; otherwise it is a
      passive run. */
  ghost predicate PassiveOutcome(f: real -> real, bounds: (real, real), samples: int,
                                 res: Outcome<OptimizationResult>, calls: seq<Call>)
  {
    if !(bounds.0 < bounds.1) then res == Err(InvalidBounds) && calls == []
    else if samples < 2 then res == Err(InvalidSampleCount) && calls == []
    else res.Ok? && PassiveRun(f, bounds.0, bounds.1, samples, res.value, calls)
  }

  method PassiveSearch(f: real -> real, bounds: (real, real), samples: int)
    returns (res: Outcome<OptimizationResult>, calls: seq<Call>)
    ensures PassiveOutcome(f, bounds, samples, res, calls)
  {
    var (a, b) := bounds;
    if !(a < b) {
      return Err(InvalidBounds), [];
    }
    if samples < 2 {
      return Err(InvalidSampleCount), [];
    }
    var history: seq<Record> := [];
    var fVals: seq<real> := [];
    calls := [];
    var i := 0;
    while i < samples
      invariant 0 <= i <= samples
      invariant |history| == i && |fVals| == i && |calls| == i
      invariant forall j :: 0 <= j < i ==> fVals[j] == f(GridPoint(a, b, samples, j))
      invariant forall j :: 0 <= j < i ==> history[j] == Sample(GridPoint(a, b, samples, j), fVals[j])
      invariant forall j :: 0 <= j < i ==> calls[j] == Objective(GridPoint(a, b, samples, j))
    {
      var x := GridPoint(a, b, samples, i);
      var fx := f(x);
      calls := calls + [Objective(x)];
      fVals := fVals + [fx];
      history := history + [Sample(x, fx)];
      i := i + 1;
    }
    var idx := FirstArgMin(fVals);
    assert fVals == GridValues(f, a, b, samples);
    res := Ok(OptimizationResult(GridPoint(a, b, samples, idx), fVals[idx], samples, history, PassiveName));
  }

  /** Every recorded point and the reported minimiser lie in [a, b], and the
      reported value is no larger than any recorded value. */
  lemma PassiveRunInBounds(f: real -> real, a: real, b: real, n: int,
                           r: OptimizationResult, calls: seq<Call>)
    requires a < b && n >= 2
    requires PassiveRun(f, a, b, n, r, calls)
    ensures a <= r.xMin <= b
    ensures forall i :: 0 <= i < n ==> a <= r.history[i].x <= b
    ensures forall i, j :: 0 <= i < j < n ==> r.history[i].x < r.history[j].x
    ensures forall i :: 0 <= i < n ==> r.fMin <= r.history[i].fx
  {
    var k :| IsFirstMin(GridValues(f, a, b, n), k) && r.xMin == GridPoint(a, b, n, k) && r.fMin == f(r.xMin);
    forall i, j | 0 <= i < j < n
      ensures r.history[i].x < r.history[j].x
    {
      GridSpansInterval(a, b, n, i, j);
    }
    forall i | 0 <= i < n
      ensures a <= r.history[i].x <= b
    {
      if i < n - 1 { GridSpansInterval(a, b, n, i, n - 1); } else { GridSpansInterval(a, b, n, 0, i); }
    }
    assert a <= r.history[k].x <= b;
    forall i | 0 <= i < n
      ensures r.fMin <= r.history[i].fx
    {
      assert GridValues(f, a, b, n)[i] == r.history[i].fx;
    }
  }

  /** Two passive searches on the same inputs return the same result and make
      the same evaluations: the result is a function of the inputs. */
  lemma PassiveRunUnique(f: real -> real, a: real, b: real, n: int,
                         r1: OptimizationResult, c1: seq<Call>,
                         r2: OptimizationResult, c2: seq<Call>)
    requires n >= 2
    requires PassiveRun(f, a, b, n, r1, c1) && PassiveRun(f, a, b, n, r2, c2)
    ensures r1 == r2 && c1 == c2
  {
    var k1 :| IsFirstMin(GridValues(f, a, b, n), k1) && r1.xMin == GridPoint(a, b, n, k1) && r1.fMin == f(r1.xMin);
    var k2 :| IsFirstMin(GridValues(f, a, b, n), k2) && r2.xMin == GridPoint(a, b, n, k2) && r2.fMin == f(r2.xMin);
    FirstMinUnique(GridValues(f, a, b, n), k1, k2);
    assert r1.history == r2.history;
    assert c1 == c2;
  }
}
