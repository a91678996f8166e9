/** The truncating running mean of int64 durations kept by pkg/backoff/effectiveness_tracker.go and
    by the per-command averages of pkg/storage/storage.go, and the tracker built on it. */
module RunningMean {
  import opened GoNumbers

  function MeanStep(mean: int, n: nat, x: int): int {
    GoDiv(mean * n + x, n + 1)
  }

  /** What the running average shows after these samples. */
  function Mean(xs: seq<int>): int {
    if xs == [] then 0
    else MeanStep(Mean(xs[..|xs| - 1]), |xs| - 1, xs[|xs| - 1])
  }

  function Sum(xs: seq<int>): int {
    if xs == [] then 0 else Sum(xs[..|xs| - 1]) + xs[|xs| - 1]
  }

  lemma DivBounds(a: int, b: int)
    requires b > 0 && a >= 0
    ensures b * GoDiv(a, b) <= a <= b * GoDiv(a, b) + (b - 1)
  {
  }

  lemma StepBounds(mean: int, n: nat, x: int)
    requires mean >= 0 && x >= 0
    ensures MeanStep(mean, n, x) >= 0
    ensures (n + 1) * MeanStep(mean, n, x) <= n * mean + x <= (n + 1) * MeanStep(mean, n, x) + n
  {
    DivBounds(mean * n + x, n + 1);
  }

  /** n (n - 1) / 2 */
  function Triangle(n: nat): nat {
    if n == 0 then 0 else Triangle(n - 1) + (n - 1)
  }

  lemma {:induction false} TriangleIsHalfProduct(n: nat)
    ensures 2 * Triangle(n) == n * (n - 1)
  {
    if n > 0 {
      TriangleIsHalfProduct(n - 1);
      assert n * (n - 1) == (n - 1) * (n - 2) + 2 * (n - 1);
    }
  }

  /** Each step loses at most n - 1 to truncation, so the mean of n non-negative samples is never
      high, and n times it is low by at most n (n - 1) / 2. */
  lemma DriftBound(xs: seq<int>)
    requires forall i :: 0 <= i < |xs| ==> xs[i] >= 0
    ensures |xs| * Mean(xs) <= Sum(xs) <= |xs| * Mean(xs) + |xs| * (|xs| - 1) / 2
  {
    Drift(xs);
    TriangleIsHalfProduct(|xs|);
  }

  lemma {:induction false} Drift(xs: seq<int>)
    requires forall i :: 0 <= i < |xs| ==> xs[i] >= 0
    ensures Mean(xs) >= 0
    ensures |xs| * Mean(xs) <= Sum(xs) <= |xs| * Mean(xs) + Triangle(|xs|)
  {
    if xs != [] {
      var init, last, n := xs[..|xs| - 1], xs[|xs| - 1], |xs| - 1;
      Drift(init);
      StepBounds(Mean(init), n, last);
    }
  }

  /** The mean stays between the smallest and the largest sample; and what is divided at each step
      stays below n times the largest, so with that below 2^63 no step overflows. */
  lemma {:induction false} MeanBetween(xs: seq<int>, lo: int, hi: int)
    requires xs != [] && 0 <= lo && forall i :: 0 <= i < |xs| ==> lo <= xs[i] <= hi
    ensures lo <= Mean(xs) <= hi
    ensures 0 <= Mean(xs[..|xs| - 1]) * (|xs| - 1) + xs[|xs| - 1] <= |xs| * hi
  {
    var init, last, n := xs[..|xs| - 1], xs[|xs| - 1], |xs| - 1;
    if n > 0 {
      MeanBetween(init, lo, hi);
      Scaled(lo, Mean(init), hi, n);
    }
    var a := Mean(init) * n + last;
    assert (n + 1) * lo <= a <= (n + 1) * hi;
    QuotientBetween(a, n + 1, lo, hi);
  }

  lemma Scaled(lo: int, m: int, hi: int, n: nat)
    requires lo <= m <= hi
    ensures lo * n <= m * n <= hi * n
  {
  }

  lemma QuotientBetween(a: int, b: int, lo: int, hi: int)
    requires b > 0 && 0 <= lo && b * lo <= a <= b * hi
    ensures lo <= GoDiv(a, b) <= hi
  {
    Scaled(0, lo, lo, b);
    DivBounds(a, b);
    var q := GoDiv(a, b);
    if q < lo { Gap(q, lo, b); }
    if q > hi { Gap(hi, q, b); }
  }

  lemma Gap(x: int, y: int, b: int)
    requires b > 0 && x < y
    ensures b * x + b <= b * y
  {
    Scaled(x + 1, y, y, b);
  }

  function Staircase(n: nat): seq<int> {
    seq(n, i => i)
  }

  /** The bound is exact: on 0, 1, ..., n-1 every step truncates as much as it can. */
  lemma DriftIsAttained(n: nat)
    ensures Mean(Staircase(n)) == 0 && Sum(Staircase(n)) == n * (n - 1) / 2
  {
    StaircaseTotals(n);
    TriangleIsHalfProduct(n);
  }

  lemma {:induction false} StaircaseTotals(n: nat)
    ensures Mean(Staircase(n)) == 0 && Sum(Staircase(n)) == Triangle(n)
  {
    if n > 0 {
      StaircaseTotals(n - 1);
      assert Staircase(n)[..n - 1] == Staircase(n - 1);
      assert MeanStep(0, n - 1, n - 1) == 0 by { SmallQuotient(n - 1, n); }
    }
  }

  lemma SmallQuotient(a: nat, b: nat)
    requires a < b
    ensures GoDiv(0 * a + a, b) == 0
  {
  }

  lemma FirstMean(x: int)
    ensures Mean([x]) == x
  {
    assert [x][..0] == [];
    assert GoDiv(0 * 0 + x, 1) == x;
  }

  // ---- the tracker ----

  datatype Sample = Sample(success: bool, delay: int)

  datatype StrategyMetrics = StrategyMetrics(totalAttempts: int, successfulRetries: int, averageDelay: int,
      successRate: real)

  function Delays(ss: seq<Sample>): (ds: seq<int>)
    ensures |ds| == |ss| && forall i :: 0 <= i < |ds| ==> ds[i] == ss[i].delay
  {
    seq(|ss|, i requires 0 <= i < |ss| => ss[i].delay)
  }

  function Successes(ss: seq<Sample>): nat {
    if ss == [] then 0 else Successes(ss[..|ss| - 1]) + if ss[|ss| - 1].success then 1 else 0
  }

  ghost predicate Summarises(m: StrategyMetrics, ss: seq<Sample>) {
    && ss != []
    && m.totalAttempts == |ss| && m.successfulRetries == Successes(ss)
    && m.averageDelay == Mean(Delays(ss))
    && m.successRate == Successes(ss) as real / |ss| as real
  }

  lemma SummariseOneMore(m: StrategyMetrics, ss: seq<Sample>, s: Sample)
    requires if ss == [] then m == StrategyMetrics(0, 0, 0, 0.0) else Summarises(m, ss)
    ensures Successes(ss + [s]) == m.successfulRetries + if s.success then 1 else 0
    ensures |ss + [s]| == m.totalAttempts + 1
    ensures Mean(Delays(ss + [s])) == if ss == [] then s.delay else MeanStep(m.averageDelay, m.totalAttempts, s.delay)
  {
    assert (ss + [s])[..|ss|] == ss;
    if ss == [] {
      FirstMean(s.delay);
      assert Delays(ss + [s]) == [s.delay];
    } else {
      assert Delays(ss + [s])[..|ss|] == Delays(ss);
    }
  }

  /** One more sample in the record of a strategy. */
  method CountAttempt(m: StrategyMetrics, success: bool, delay: int, ghost before: seq<Sample>)
      returns (metrics: StrategyMetrics)
    requires if before == [] then m == StrategyMetrics(0, 0, 0, 0.0) else Summarises(m, before)
    ensures Summarises(metrics, before + [Sample(success, delay)])
  {
    SummariseOneMore(m, before, Sample(success, delay));
    metrics := m.(totalAttempts := m.totalAttempts + 1);
    if success {
      metrics := metrics.(successfulRetries := metrics.successfulRetries + 1);
    }
    if metrics.totalAttempts == 1 {
      metrics := metrics.(averageDelay := delay);
    } else {
      metrics := metrics.(averageDelay := MeanStep(metrics.averageDelay, metrics.totalAttempts - 1, delay));
    }
    metrics := metrics.(successRate := metrics.successfulRetries as real / metrics.totalAttempts as real);
  }

  class EffectivenessTracker {
    var strategyMetrics: map<string, StrategyMetrics>
    ghost var samples: map<string, seq<Sample>>  // everything recorded since the last Reset

    ghost predicate Valid()
      reads this
    {
      && strategyMetrics.Keys == samples.Keys
      && forall s :: s in samples ==> Summarises(strategyMetrics[s], samples[s])
    }

    constructor ()
      ensures Valid() && samples == map[]
    {
      strategyMetrics := map[];
      samples := map[];
    }

    method RecordAttempt(strategy: string, success: bool, delay: int)
      requires Valid()
      modifies this
      ensures Valid()
      ensures samples == old(samples)[strategy :=
        (if strategy in old(samples) then old(samples)[strategy] else []) + [Sample(success, delay)]]
    {
      var metrics := if strategy in strategyMetrics then strategyMetrics[strategy] else StrategyMetrics(0, 0, 0, 0.0);
      ghost var before := if strategy in samples then samples[strategy] else [];
      metrics := CountAttempt(metrics, success, delay, before);
      strategyMetrics := strategyMetrics[strategy := metrics];
      samples := samples[strategy := before + [Sample(success, delay)]];
    }

    method Reset()
      modifies this
      ensures Valid() && samples == map[]
    {
      strategyMetrics := map[];
      samples := map[];
    }
  }
}
