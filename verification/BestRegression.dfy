/** RGR_FindBestRegression of regress.c: the fit to the longest run of recent samples whose residuals
    change sign often enough. */
module BestRegression {
  import opened LeastSquares

  const MIN_SAMPLES_FOR_REGRESS: nat := 3
  const N_CRITICAL: nat := 130

  // ---------- runs of residuals ----------

  /** Neighbouring residuals of one run: both negative or both positive. */
  predicate SameRun(r: real, s: real) { (r < 0.0 && s < 0.0) || (r > 0.0 && s > 0.0) }

  /** Number of runs. */
  function Runs(r: seq<real>): nat {
    if |r| <= 1 then 1
    else Runs(r[..|r| - 1]) + if SameRun(r[|r| - 2], r[|r| - 1]) then 0 else 1
  }

  /** n_runs_from_residuals. */
  method CountRuns(r: seq<real>) returns (nruns: nat)
    ensures nruns == Runs(r)
  {
    nruns := 1;
    if r == [] {
      return;
    }
    for i := 1 to |r|
      invariant nruns == Runs(r[..i])
    {
      assert r[..i + 1][..i] == r[..i];
      if !SameRun(r[i - 1], r[i]) {
        nruns := nruns + 1;
      }
    }
    assert r[..|r|] == r;
  }

  /** There are never more runs than residuals. */
  lemma {:induction false} RunsAreFew(r: seq<real>)
    ensures 1 <= Runs(r) && (r != [] ==> Runs(r) <= |r|)
  {
    if |r| > 1 {
      RunsAreFew(r[..|r| - 1]);
    }
  }

  // ---------- the window ----------

  /** Where the residuals begin: twice as far back as the fitted samples, as far as there are extra ones. */
  function ResidStart(n: int, m: int, start: int): int {
    if n - (n - start) * 2 < -m then -m else n - (n - start) * 2
  }

  /** The window lies inside the m extra and n regular samples, contains the fitted ones, and its length
      is an index of the table of critical values. */
  lemma WindowIsInside(n: int, m: int, start: int)
    requires 0 <= start <= n && 0 <= m && n * 2 < N_CRITICAL
    ensures -m <= ResidStart(n, m, start) <= start
    ensures n - start <= n - ResidStart(n, m, start) <= 2 * (n - start) < N_CRITICAL
  {
  }

  function Residuals(x: seq<real>, y: seq<real>, l: Line): (r: seq<real>)
    requires |x| == |y|
    ensures |r| == |x|
  {
    seq(|x|, i requires 0 <= i < |x| => y[i] - l.b0 - l.b1 * x[i])
  }

  // ---------- the samples ----------

  /** n samples, the last of x and y, with their weights; the first m of x and y only extend the runs test. */
  datatype Samples = Samples(x: seq<real>, y: seq<real>, w: seq<real>, n: nat, m: nat)

  /** The samples that every fit includes are not all at the same x, so that it has a slope. */
  predicate Spread(x: seq<real>, n: nat)
    requires n <= |x|
  {
    n >= MIN_SAMPLES_FOR_REGRESS ==> x[|x| - 1] != x[|x| - 2] || x[|x| - 1] != x[|x| - 3]
  }

  ghost predicate Usable(s: Samples) {
    && |s.x| == |s.y| == s.m + s.n && |s.w| == s.n && s.n * 2 < N_CRITICAL
    && PositiveWeights(s.w) && Spread(s.x, s.n)
  }

  predicate Enough(s: Samples, start: nat) { start + MIN_SAMPLES_FOR_REGRESS <= s.n }

  /** The samples from `start` on. */
  ghost function Suffix(s: Samples, start: nat): (p: seq<Point>)
    requires Usable(s) && Enough(s, start)
    ensures |p| == s.n - start
  {
    Points(s.x[s.m + start..], s.y[s.m + start..], s.w[start..])
  }

  /** Every suffix the search can come to has a defined fit exactly when the last three samples do. */
  lemma SpreadIsNeeded(x: seq<real>, y: seq<real>, w: seq<real>)
    requires |x| == |y| == |w| >= MIN_SAMPLES_FOR_REGRESS && PositiveWeights(w)
    ensures Spread(x, |x|) <==> Fittable(Points(x, y, w)[|x| - MIN_SAMPLES_FOR_REGRESS..])
  {
    var p, k := Points(x, y, w)[|x| - MIN_SAMPLES_FOR_REGRESS..], |x|;
    assert p[0].x == x[k - 3] && p[1].x == x[k - 2] && p[2].x == x[k - 1];
  }

  lemma SuffixIsFittable(s: Samples, start: nat)
    requires Usable(s) && Enough(s, start)
    ensures Fittable(Suffix(s, start)) && WeightSums(Suffix(s, start)).W > 0.0
  {
    var p := Suffix(s, start);
    var k, e := |s.x|, |p|;
    assert p[e - 1].x == s.x[k - 1] && p[e - 2].x == s.x[k - 2] && p[e - 3].x == s.x[k - 3];
    FitIsDefined(p, 0.0);
  }

  /** The least-squares line of the samples from `start` on. */
  ghost function FitAt(s: Samples, start: nat): Line
    requires Usable(s) && Enough(s, start)
  {
    SuffixIsFittable(s, start);
    Fit(Suffix(s, start))
  }

  ghost function WeightAt(s: Samples, start: nat): (W: real)
    requires Usable(s) && Enough(s, start)
    ensures W > 0.0
  {
    SuffixIsFittable(s, start);
    WeightSums(Suffix(s, start)).W
  }

  /** Runs of the residuals that the fit from `start` on leaves in its window. */
  ghost function RunsFrom(s: Samples, start: nat): nat
    requires Usable(s) && Enough(s, start)
  {
    WindowIsInside(s.n, s.m, start);
    var k := s.m + ResidStart(s.n, s.m, start);
    Runs(Residuals(s.x[k..], s.y[k..], FitAt(s, start)))
  }

  /** Runs among the residuals of the fitted samples alone. */
  ghost function OwnRuns(s: Samples, start: nat): nat
    requires Usable(s) && Enough(s, start)
  {
    Runs(Residuals(s.x[s.m + start..], s.y[s.m + start..], FitAt(s, start)))
  }

  /** The critical value for the window of a fit. */
  function CriticalAt(s: Samples, critical: seq<int>, start: nat): int
    requires |critical| == N_CRITICAL && s.n * 2 < N_CRITICAL && start <= s.n
  {
    WindowIsInside(s.n, s.m, start);
    critical[s.n - ResidStart(s.n, s.m, start)]
  }

  /** The fit from `start` on is taken: its runs pass the test, or no sample can be spared. */
  ghost predicate Accepted(s: Samples, critical: seq<int>, start: nat)
    requires Usable(s) && Enough(s, start) && |critical| == N_CRITICAL
  {
    RunsFrom(s, start) > CriticalAt(s, critical, start) || s.n - start == MIN_SAMPLES_FOR_REGRESS
  }

  /** Variance over the degrees of freedom, rescaled by the mean weight. */
  ghost function VarianceAt(s: Samples, start: nat): real
    requires Usable(s) && Enough(s, start)
  {
    var l := FitAt(s, start);
    SquaredError(Suffix(s, start), l.b0, l.b1) / (s.n - start - 2) as real * (s.n - start) as real / WeightAt(s, start)
  }

  // ---------- the search ----------

  /** The regression of the samples from `start` on. */
  method FitFrom(s: Samples, start: nat) returns (l: Line, W: real)
    requires Usable(s) && Enough(s, start)
    ensures l == FitAt(s, start) && W == WeightAt(s, start)
  {
    SuffixIsFittable(s, start);
    hide Fit, Fittable, WeightSums;
    l, W := FitLine(s.x[s.m + start..], s.y[s.m + start..], s.w[start..]);
  }

  /** The runs of its residuals. */
  method RunsOfFit(s: Samples, start: nat, l: Line) returns (nruns: nat)
    requires Usable(s) && Enough(s, start) && l == FitAt(s, start)
    ensures nruns == RunsFrom(s, start)
  {
    hide FitAt, Runs, Residuals;
    WindowIsInside(s.n, s.m, start);
    var k := s.m + ResidStart(s.n, s.m, start);
    nruns := CountRuns(Residuals(s.x[k..], s.y[k..], l));
  }

  lemma UsableSize(s: Samples)
    requires Usable(s)
    ensures s.n * 2 < N_CRITICAL
  {
  }

  /** No earlier start is accepted. */
  ghost predicate NoneBefore(s: Samples, critical: seq<int>, start: nat)
    requires Usable(s) && Enough(s, start) && |critical| == N_CRITICAL
  {
    forall k: nat :: k < start ==> !Accepted(s, critical, k)
  }

  lemma NextStart(s: Samples, critical: seq<int>, start: nat)
    requires Usable(s) && Enough(s, start + 1) && |critical| == N_CRITICAL
    requires NoneBefore(s, critical, start) && !Accepted(s, critical, start)
    ensures NoneBefore(s, critical, start + 1)
  {
    hide Usable, Accepted;
  }

  /** The loop of RGR_FindBestRegression. */
  method Search(s: Samples, critical: seq<int>) returns (start: nat, l: Line, W: real, nruns: nat)
    requires Usable(s) && Enough(s, 0) && |critical| == N_CRITICAL
    ensures Enough(s, start) && Accepted(s, critical, start) && NoneBefore(s, critical, start)
    ensures l == FitAt(s, start) && W == WeightAt(s, start) && nruns == RunsFrom(s, start)
  {
    UsableSize(s);
    start := 0;
    assert NoneBefore(s, critical, 0);
    hide Usable, RunsFrom, FitAt, WeightAt, CriticalAt, NoneBefore;
    l, W := FitFrom(s, start);
    nruns := RunsOfFit(s, start, l);
    while nruns <= CriticalAt(s, critical, start) && s.n - start > MIN_SAMPLES_FOR_REGRESS
      invariant Enough(s, start) && NoneBefore(s, critical, start)
      invariant l == FitAt(s, start) && W == WeightAt(s, start) && nruns == RunsFrom(s, start)
      decreases s.n - start
    {
      NextStart(s, critical, start);
      start := start + 1;
      l, W := FitFrom(s, start);
      nruns := RunsOfFit(s, start, l);
    }
  }

  /** The result is the least-squares line of the longest suffix of samples that is accepted. */
  method FindBestRegression(s: Samples, critical: seq<int>)
    returns (ok: bool, start: nat, l: Line, s2: real, nruns: nat, dof: int)
    requires Usable(s) && |critical| == N_CRITICAL
    ensures ok <==> s.n >= MIN_SAMPLES_FOR_REGRESS
    ensures ok ==> Enough(s, start) && Accepted(s, critical, start) && NoneBefore(s, critical, start)
    ensures ok ==> l == FitAt(s, start) && s2 == VarianceAt(s, start) && nruns == OwnRuns(s, start)
    ensures ok ==> dof == s.n - start - 2
  {
    ok, start, l, s2, nruns, dof := false, 0, Line(0.0, 0.0), 0.0, 0, 0;
    if s.n < MIN_SAMPLES_FOR_REGRESS {
      return;
    }
    hide Usable, RunsFrom, OwnRuns, FitAt, WeightAt, VarianceAt, CriticalAt, NoneBefore, Accepted;
    var W: real;
    start, l, W, nruns := Search(s, critical);
    ok := true;
    dof := s.n - start - 2;
    s2, nruns := Statistics(s, start, l, W, nruns);
  }

  /** The statistics of the chosen samples alone. */
  method Statistics(s: Samples, start: nat, l: Line, W: real, windowRuns: nat) returns (s2: real, nruns: nat)
    requires Usable(s) && Enough(s, start)
    requires l == FitAt(s, start) && W == WeightAt(s, start) && windowRuns == RunsFrom(s, start)
    ensures s2 == VarianceAt(s, start) && nruns == OwnRuns(s, start)
  {
    hide FitAt, WeightAt, SquaredError, Runs, Residuals;
    WindowIsInside(s.n, s.m, start);
    nruns := windowRuns;
    if start != ResidStart(s.n, s.m, start) {
      nruns := CountRuns(Residuals(s.x[s.m + start..], s.y[s.m + start..], l));
    }
    var ss := ResidualVariance(s.x[s.m + start..], s.y[s.m + start..], s.w[start..], l);
    ss := ss / (s.n - start - 2) as real;
    s2 := ss * (s.n - start) as real / W;
  }
}
