/** The adaptive strategy of pkg/backoff/adaptive.go: a first-in first-out memory of outcomes and
    seven delay buckets rebuilt from it in place. float64 is modelled as real. */
module Adaptive {
  import opened Filters
  import opened GoNumbers
  import opened Wrappers

  const BUCKETS: nat := 7
  const RANGES: seq<(int, int)> :=
    [(0, 1 * SECOND), (1 * SECOND, 2 * SECOND), (2 * SECOND, 5 * SECOND), (5 * SECOND, 10 * SECOND),
     (10 * SECOND, 30 * SECOND), (30 * SECOND, 60 * SECOND), (60 * SECOND, 300 * SECOND)]

  datatype Bucket = Bucket(minDelay: int, maxDelay: int, successRate: real, sampleCount: nat, totalLatency: int)
  datatype Outcome = Outcome(delay: int, success: bool, latency: int)

  type Buckets = map<int, Bucket>

  // ---- the meaning: a fold over the remembered outcomes ----

  /** The bucket a delay belongs to; the last one also takes everything above its range. */
  function BucketOf(delay: int): (i: int)
    ensures -1 <= i < BUCKETS
    ensures i == -1 <==> delay < 0
  {
    if delay < 0 then -1
    else if delay < 1 * SECOND then 0
    else if delay < 2 * SECOND then 1
    else if delay < 5 * SECOND then 2
    else if delay < 10 * SECOND then 3
    else if delay < 30 * SECOND then 4
    else if delay < 60 * SECOND then 5
    else 6
  }

  function EmptyBucket(i: nat): Bucket
    requires i < BUCKETS
  {
    Bucket(RANGES[i].0, RANGES[i].1, 0.0, 0, 0)
  }

  function Sampled(b: Bucket, o: Outcome, rate: real): Bucket {
    b.(sampleCount := b.sampleCount + 1, totalLatency := b.totalLatency + o.latency,
       successRate := (1.0 - rate) * b.successRate + rate * (if o.success then 1.0 else 0.0))
  }

  /** What bucket `i` says about these outcomes: how many fell into it, their latency, and the
      exponential moving average of their successes. */
  function Folded(i: nat, os: seq<Outcome>, rate: real): Bucket
    requires i < BUCKETS
  {
    if os == [] then EmptyBucket(i)
    else
      var b, last := Folded(i, os[..|os| - 1], rate), os[|os| - 1];
      if BucketOf(last.delay) == i then Sampled(b, last, rate) else b
  }

  function Learned(os: seq<Outcome>, rate: real): Buckets {
    map i: int | 0 <= i < BUCKETS :: Folded(i, os, rate)
  }

  function LastN<T>(all: seq<T>, n: nat): seq<T> {
    if |all| <= n then all else all[|all| - n..]
  }

  // ---- choosing a delay ----

  function Mix(x: real, y: real, rate: real): real {
    x * rate + y * (1.0 - rate)
  }

  function Blend(optimal: int, fallback: int, rate: real): int {
    Truncate(Mix(optimal as real, fallback as real, rate))
  }

  function Midpoint(b: Bucket): int
  {
    b.minDelay + (b.maxDelay - b.minDelay) / 2
  }

  ghost predicate Best(bs: Buckets, i: int) {
    && i in bs && bs[i].sampleCount >= 2
    && forall j :: j in bs && bs[j].sampleCount >= 2 ==> bs[j].successRate <= bs[i].successRate
  }

  ghost predicate SomeEligible(bs: Buckets) {
    exists i :: i in bs && bs[i].sampleCount >= 2
  }

  /** What calculateOptimalDelay may return: ties are broken by map iteration order. */
  ghost predicate MayBeOptimal(bs: Buckets, rate: real, fallback: int, d: int) {
    if SomeEligible(bs) then exists i :: Best(bs, i) && d == Blend(Midpoint(bs[i]), fallback, rate)
    else d == 0
  }

  /** What Delay may return for this attempt. */
  ghost predicate MayDelay(bs: Buckets, total: nat, rate: real, attempt: int, fallback: int -> int, d: int) {
    if attempt <= 0 || total < 3 then d == fallback(attempt)
    else exists o :: MayBeOptimal(bs, rate, fallback(attempt), o) && d == if o > 0 then o else fallback(attempt)
  }

  ghost predicate StandardRanges(bs: Buckets) {
    && (forall i :: i in bs <==> 0 <= i < BUCKETS)
    && forall i :: 0 <= i < BUCKETS ==> bs[i].minDelay == RANGES[i].0 && bs[i].maxDelay == RANGES[i].1
  }

  /** `fallback` is None for a nil strategy; the learner is handed it again with every question. */
  method NewAdaptive(fallback: Option<int -> int>, learningRate: real, memoryWindow: int) returns (r: Option<Adaptive>)
    ensures r.Some? <==> fallback.Some? && 0.0 < learningRate <= 1.0 && 0 < memoryWindow <= 10000
    ensures r.Some? ==> fresh(r.value) && r.value.Valid() && r.value.recorded == []
                        && r.value.learningRate == learningRate && r.value.memoryWindow == memoryWindow
  {
    if fallback.None? {
      return None;
    }
    if learningRate <= 0.0 || learningRate > 1.0 {
      return None;
    }
    if memoryWindow <= 0 || memoryWindow > 10000 {
      return None;
    }
    var a := new Adaptive(learningRate, memoryWindow);
    return Some(a);
  }

  class Adaptive {
    const learningRate: real
    const memoryWindow: nat
    var delayBuckets: Buckets
    var recentOutcomes: seq<Outcome>
    var totalOutcomes: nat
    ghost var recorded: seq<Outcome>  // everything ever recorded

    ghost predicate Valid()
      reads this
    {
      && 0.0 < learningRate <= 1.0 && memoryWindow > 0
      && totalOutcomes == |recorded|
      && recentOutcomes == LastN(recorded, memoryWindow)
      && delayBuckets == (if recorded == [] then map[] else Learned(recentOutcomes, learningRate))
    }

    constructor (learningRate: real, memoryWindow: nat)
      requires 0.0 < learningRate <= 1.0 && memoryWindow > 0
      ensures Valid() && recorded == []
      ensures this.learningRate == learningRate && this.memoryWindow == memoryWindow
    {
      this.learningRate := learningRate;
      this.memoryWindow := memoryWindow;
      delayBuckets := map[];
      recentOutcomes := [];
      totalOutcomes := 0;
      recorded := [];
    }

    method RecordOutcome(delay: int, success: bool, latency: int)
      requires Valid()
      modifies this
      ensures Valid() && recorded == old(recorded) + [Outcome(delay, success, latency)]
      ensures BucketsSumUp(delayBuckets, LastN(recorded, memoryWindow), learningRate)
    {
      var outcome := Outcome(delay, success, latency);
      if |recentOutcomes| >= memoryWindow {
        recentOutcomes := recentOutcomes[1..];
      }
      recentOutcomes := recentOutcomes + [outcome];
      totalOutcomes := totalOutcomes + 1;
      recorded := recorded + [outcome];
      LearnedIsStandard(old(recentOutcomes), learningRate);
      UpdateDelayBuckets();
      LearnedSumsUp(recentOutcomes, learningRate);
    }

    method UpdateDelayBuckets()
      requires delayBuckets == map[] || StandardRanges(delayBuckets)
      modifies this`delayBuckets
      ensures delayBuckets == Learned(recentOutcomes, learningRate)
    {
      if |delayBuckets| == 0 {
        InitializeBuckets();
      } else {
        ResetBuckets();
      }
      assert delayBuckets == Learned(recentOutcomes[..0], learningRate);
      for k := 0 to |recentOutcomes|
        invariant delayBuckets == Learned(recentOutcomes[..k], learningRate)
      {
        var outcome := recentOutcomes[k];
        ghost var seen := recentOutcomes[..k + 1];
        assert seen[..|seen| - 1] == recentOutcomes[..k];
        LearnedIsStandard(recentOutcomes[..k], learningRate);
        var index := FindBucketIndex(outcome.delay);
        if index >= 0 {
          var bucket := delayBuckets[index];
          delayBuckets := delayBuckets[index := Sampled(bucket, outcome, learningRate)];
        }
        assert delayBuckets == Learned(seen, learningRate);
      }
      assert recentOutcomes[..|recentOutcomes|] == recentOutcomes;
    }

    method InitializeBuckets()
      modifies this`delayBuckets
      ensures delayBuckets == Learned([], learningRate)
    {
      delayBuckets := map[];
      for i := 0 to BUCKETS
        invariant delayBuckets == map j: int | 0 <= j < i :: EmptyBucket(j)
      {
        delayBuckets := delayBuckets[i := EmptyBucket(i)];
      }
    }

    method ResetBuckets()
      requires StandardRanges(delayBuckets)
      modifies this`delayBuckets
      ensures delayBuckets == Learned([], learningRate)
    {
      var pending: set<int> := delayBuckets.Keys;
      while pending != {}
        invariant pending <= delayBuckets.Keys
        invariant StandardRanges(delayBuckets)
        invariant forall i :: 0 <= i < BUCKETS && i !in pending ==> delayBuckets[i] == EmptyBucket(i)
      {
        var i := Pick(pending);
        delayBuckets := delayBuckets[i := delayBuckets[i].(successRate := 0.0, sampleCount := 0, totalLatency := 0)];
        pending := pending - {i};
      }
    }

    /** The map is searched in any order; the ranges are disjoint, so the order does not matter. */
    method FindBucketIndex(delay: int) returns (index: int)
      requires StandardRanges(delayBuckets)
      ensures index == BucketOf(delay)
    {
      var pending: set<int> := delayBuckets.Keys;
      while pending != {}
        invariant pending <= delayBuckets.Keys
        invariant forall i :: 0 <= i < BUCKETS && i !in pending ==> !(RANGES[i].0 <= delay < RANGES[i].1)
      {
        var i := Pick(pending);
        if delayBuckets[i].minDelay <= delay < delayBuckets[i].maxDelay {
          RangeDecides(delay, i);
          return i;
        }
        pending := pending - {i};
      }
      NoRangeLeft(delay);
      KeysAreSeven(delayBuckets);
      if delay >= 300 * SECOND {
        return |delayBuckets| - 1;
      }
      return -1;
    }

    method CalculateOptimalDelay(attempt: int, fallback: int -> int) returns (d: int)
      requires forall i :: i in delayBuckets ==> delayBuckets[i].successRate >= 0.0
      ensures MayBeOptimal(delayBuckets, learningRate, fallback(attempt), d)
    {
      var best: Option<int>, bestSuccessRate := None, -1.0;
      var pending: set<int> := delayBuckets.Keys;
      while pending != {}
        invariant pending <= delayBuckets.Keys
        invariant best.None? ==> bestSuccessRate == -1.0
        invariant best.Some? ==> best.value in delayBuckets && delayBuckets[best.value].sampleCount >= 2
                                 && bestSuccessRate == delayBuckets[best.value].successRate
        invariant forall j :: j in delayBuckets && j !in pending && delayBuckets[j].sampleCount >= 2 ==>
                    best.Some? && delayBuckets[j].successRate <= bestSuccessRate
      {
        var i := Pick(pending);
        if delayBuckets[i].sampleCount >= 2 && delayBuckets[i].successRate > bestSuccessRate {
          bestSuccessRate := delayBuckets[i].successRate;
          best := Some(i);
        }
        pending := pending - {i};
      }
      if best.None? {
        return 0;
      }
      var bucket := delayBuckets[best.value];
      assert Best(delayBuckets, best.value);
      return Blend(Midpoint(bucket), fallback(attempt), learningRate);
    }

    method Delay(attempt: int, fallback: int -> int) returns (d: int)
      requires Valid()
      ensures MayDelay(delayBuckets, totalOutcomes, learningRate, attempt, fallback, d)
    {
      if attempt <= 0 {
        return fallback(attempt);
      }
      if totalOutcomes < 3 {
        return fallback(attempt);
      }
      forall i | i in delayBuckets ensures delayBuckets[i].successRate >= 0.0 {
        RateBounds(i, recentOutcomes, learningRate);
      }
      var optimalDelay := CalculateOptimalDelay(attempt, fallback);
      if optimalDelay > 0 {
        return optimalDelay;
      }
      return fallback(attempt);
    }
  }

  // ---- the search ----

  /** The next key of a map iteration: any key not yet seen. */
  method Pick<T>(pending: set<T>) returns (key: T)
    requires pending != {}
    ensures key in pending
  {
    key :| key in pending;
  }

  lemma RangeDecides(delay: int, i: nat)
    requires i < BUCKETS && RANGES[i].0 <= delay < RANGES[i].1
    ensures BucketOf(delay) == i
  {
    if i == 0 {} else if i == 1 {} else if i == 2 {} else if i == 3 {} else if i == 4 {} else if i == 5 {}
  }

  lemma NoRangeLeft(delay: int)
    requires forall i :: 0 <= i < BUCKETS ==> !(RANGES[i].0 <= delay < RANGES[i].1)
    ensures BucketOf(delay) == if delay >= 300 * SECOND then 6 else -1
  {
    assert RANGES[0] == (0, 1 * SECOND) && RANGES[1] == (1 * SECOND, 2 * SECOND)
        && RANGES[2] == (2 * SECOND, 5 * SECOND);
    assert RANGES[3] == (5 * SECOND, 10 * SECOND) && RANGES[4] == (10 * SECOND, 30 * SECOND);
    assert RANGES[5] == (30 * SECOND, 60 * SECOND) && RANGES[6] == (60 * SECOND, 300 * SECOND);
  }

  lemma KeysAreSeven(bs: Buckets)
    requires StandardRanges(bs)
    ensures |bs| == BUCKETS
  {
    var seven: set<int> := {0, 1, 2, 3, 4, 5, 6};
    assert forall i: int :: i in bs.Keys <==> i in seven;
    assert bs.Keys == seven;
  }

  lemma {:induction false} FoldedRange(i: nat, os: seq<Outcome>, rate: real)
    requires i < BUCKETS
    ensures Folded(i, os, rate).minDelay == RANGES[i].0 && Folded(i, os, rate).maxDelay == RANGES[i].1
  {
    if os != [] { FoldedRange(i, os[..|os| - 1], rate); }
  }

  lemma LearnedIsStandard(os: seq<Outcome>, rate: real)
    ensures StandardRanges(Learned(os, rate))
  {
    forall i: int | 0 <= i < BUCKETS
      ensures Folded(i, os, rate).minDelay == RANGES[i].0 && Folded(i, os, rate).maxDelay == RANGES[i].1
    {
      FoldedRange(i, os, rate);
    }
  }

  // ---- what a bucket holds, as sums over its own outcomes ----

  /** The delays of bucket `i`: its range, and for the last one everything longer. */
  function InBucket(i: nat): Outcome -> bool
    requires i < BUCKETS
  {
    (o: Outcome) => RANGES[i].0 <= o.delay && (o.delay < RANGES[i].1 || i == 6)
  }

  /** What an outcome weighs with `later` outcomes after it: a success rate * (1 - rate)^later. */
  function Weight(o: Outcome, rate: real, later: nat): real {
    if o.success then rate * Pow(1.0 - rate, later) else 0.0
  }

  function WeightedSuccesses(os: seq<Outcome>, rate: real): real {
    if os == [] then 0.0 else Weight(os[0], rate, |os| - 1) + WeightedSuccesses(os[1..], rate)
  }

  function TotalLatency(os: seq<Outcome>): int {
    if os == [] then 0 else os[0].latency + TotalLatency(os[1..])
  }

  /** The bucket of these outcomes, which are all its own. */
  ghost predicate SumsUp(b: Bucket, own: seq<Outcome>, rate: real) {
    && b.sampleCount == |own| && b.totalLatency == TotalLatency(own)
    && b.successRate == WeightedSuccesses(own, rate)
  }

  ghost predicate BucketsSumUp(bs: Buckets, os: seq<Outcome>, rate: real) {
    && StandardRanges(bs)
    && forall i: nat :: i < BUCKETS ==> SumsUp(bs[i], Filter(os, InBucket(i)), rate)
  }

  lemma LearnedSumsUp(os: seq<Outcome>, rate: real)
    ensures BucketsSumUp(Learned(os, rate), os, rate)
  {
    LearnedIsStandard(os, rate);
    forall i: nat | i < BUCKETS ensures SumsUp(Folded(i, os, rate), Filter(os, InBucket(i)), rate) {
      FoldedSumsUp(i, os, rate);
    }
  }

  lemma {:induction false} FoldedSumsUp(i: nat, os: seq<Outcome>, rate: real)
    requires i < BUCKETS
    ensures SumsUp(Folded(i, os, rate), Filter(os, InBucket(i)), rate)
  {
    if os != [] {
      var init, last := os[..|os| - 1], os[|os| - 1];
      FoldedSumsUp(i, init, rate);
      var own := Filter(init, InBucket(i));
      InBucketMeans(i, last);
      if BucketOf(last.delay) == i {
        SampledSumsUp(Folded(i, init, rate), own, last, rate);
        assert Filter(os, InBucket(i)) == own + [last];
      } else {
        assert Filter(os, InBucket(i)) == own;
      }
    }
  }

  lemma InBucketMeans(i: nat, o: Outcome)
    requires i < BUCKETS
    ensures InBucket(i)(o) <==> BucketOf(o.delay) == i
  {
    if i == 0 {} else if i == 1 {} else if i == 2 {} else if i == 3 {} else if i == 4 {} else if i == 5 {}
  }

  lemma SampledSumsUp(b: Bucket, own: seq<Outcome>, o: Outcome, rate: real)
    requires SumsUp(b, own, rate)
    ensures SumsUp(Sampled(b, o, rate), own + [o], rate)
  {
    WeightOneMore(own, o, rate);
    LatencyOneMore(own, o);
    assert Weight(o, rate, 0) == if o.success then rate else 0.0;
  }

  /** A later outcome discounts every earlier one by 1 - rate. */
  lemma {:induction false} WeightOneMore(os: seq<Outcome>, o: Outcome, rate: real)
    ensures WeightedSuccesses(os + [o], rate) == Times(1.0 - rate, WeightedSuccesses(os, rate)) + Weight(o, rate, 0)
  {
    if os == [] {
      assert os + [o] == [o] && WeightedSuccesses([o][1..], rate) == 0.0;
    } else {
      assert (os + [o])[1..] == os[1..] + [o];
      WeightOneMore(os[1..], o, rate);
      WeightAges(os[0], rate, |os| - 1);
      TimesSum(1.0 - rate, Weight(os[0], rate, |os| - 1), WeightedSuccesses(os[1..], rate));
    }
  }

  function Times(x: real, y: real): real { x * y }

  lemma TimesSum(k: real, x: real, y: real)
    ensures Times(k, x + y) == Times(k, x) + Times(k, y)
  {
  }

  lemma WeightAges(o: Outcome, rate: real, later: nat)
    ensures Weight(o, rate, later + 1) == Times(1.0 - rate, Weight(o, rate, later))
  {
    assert rate * ((1.0 - rate) * Pow(1.0 - rate, later)) == (1.0 - rate) * (rate * Pow(1.0 - rate, later));
  }

  lemma {:induction false} LatencyOneMore(os: seq<Outcome>, o: Outcome)
    ensures TotalLatency(os + [o]) == TotalLatency(os) + o.latency
  {
    if os == [] {
      assert os + [o] == [o];
    } else {
      assert (os + [o])[1..] == os[1..] + [o];
      LatencyOneMore(os[1..], o);
    }
  }

  // ---- what holds in every reachable learner state ----

  ghost predicate AllSucceeded(i: int, os: seq<Outcome>) {
    forall k :: 0 <= k < |os| && BucketOf(os[k].delay) == i ==> os[k].success
  }

  lemma {:induction false} PowPositive(x: real, n: nat)
    requires 0.0 <= x <= 1.0
    ensures 0.0 <= Pow(x, n) <= 1.0
    ensures x > 0.0 ==> Pow(x, n) > 0.0
  {
    if n > 0 {
      PowPositive(x, n - 1);
      var y := Pow(x, n - 1);
      ProductBounds(x, y);
      assert Pow(x, n) == x * y;
    }
  }

  lemma ProductBounds(x: real, y: real)
    requires 0.0 <= x <= 1.0 && 0.0 <= y <= 1.0
    ensures 0.0 <= x * y <= y
    ensures x > 0.0 && y > 0.0 ==> x * y > 0.0
  {
  }

  /** One moving-average step under the ceiling 1 - q: the new ceiling is 1 - (1-rate)*q, and it is
      met only by a success on top of a met ceiling (a rate of 1 forgets what was there). */
  lemma StepUnderCeiling(rate: real, r: real, q: real, v: real)
    requires 0.0 < rate <= 1.0 && 0.0 <= r <= 1.0 - q && q >= 0.0 && (v == 0.0 || v == 1.0)
    ensures 0.0 <= (1.0 - rate) * r + rate * v <= 1.0 - (1.0 - rate) * q
    ensures v == 1.0 && r == 1.0 - q ==> (1.0 - rate) * r + rate * v == 1.0 - (1.0 - rate) * q
    ensures v == 0.0 ==> (1.0 - rate) * r + rate * v < 1.0 - (1.0 - rate) * q
    ensures rate < 1.0 && r < 1.0 - q ==> (1.0 - rate) * r + rate * v < 1.0 - (1.0 - rate) * q
  {
    var k, slack := 1.0 - rate, 1.0 - q - r;
    Monotone(k, slack);
    Monotone(k, r);
    Distribute(k, q, r);
    assert rate * v == if v == 1.0 then rate else 0.0;
  }

  lemma Distribute(k: real, q: real, r: real)
    ensures k * (1.0 - q - r) == k - k * q - k * r
  {
  }

  lemma Monotone(k: real, x: real)
    requires k >= 0.0 && x >= 0.0
    ensures k * x >= 0.0
    ensures k > 0.0 && x > 0.0 ==> k * x > 0.0
  {
  }

  lemma OneMoreSucceeded(i: int, os: seq<Outcome>)
    requires os != []
    ensures var init, last := os[..|os| - 1], os[|os| - 1];
      AllSucceeded(i, os) <==> AllSucceeded(i, init) && (BucketOf(last.delay) == i ==> last.success)
  {
    var init := os[..|os| - 1];
    assert forall k :: 0 <= k < |init| ==> init[k] == os[k];
  }

  /** A success rate lies between 0 and 1 - (1-rate)^n for n samples. All successes reach the top;
      below a learning rate of 1 nothing else does. */
  lemma {:induction false} RateBounds(i: nat, os: seq<Outcome>, rate: real)
    requires i < BUCKETS && 0.0 < rate <= 1.0
    ensures var b := Folded(i, os, rate); 0.0 <= b.successRate <= 1.0 - Pow(1.0 - rate, b.sampleCount)
    ensures var b := Folded(i, os, rate); AllSucceeded(i, os) ==> b.successRate == 1.0 - Pow(1.0 - rate, b.sampleCount)
    ensures var b := Folded(i, os, rate);
      rate < 1.0 && b.successRate == 1.0 - Pow(1.0 - rate, b.sampleCount) ==> AllSucceeded(i, os)
  {
    if os != [] {
      var init, last := os[..|os| - 1], os[|os| - 1];
      var b := Folded(i, init, rate);
      RateBounds(i, init, rate);
      PowPositive(1.0 - rate, b.sampleCount);
      OneMoreSucceeded(i, os);
      if BucketOf(last.delay) == i {
        StepUnderCeiling(rate, b.successRate, Pow(1.0 - rate, b.sampleCount), if last.success then 1.0 else 0.0);
      }
    }
  }

  function SumCounts(os: seq<Outcome>, rate: real, n: nat): nat
    requires n <= BUCKETS
  {
    if n == 0 then 0 else SumCounts(os, rate, n - 1) + Folded(n - 1, os, rate).sampleCount
  }

  function NonNegative(os: seq<Outcome>): nat {
    if os == [] then 0 else NonNegative(os[..|os| - 1]) + if os[|os| - 1].delay >= 0 then 1 else 0
  }

  /** Every remembered outcome with a non-negative delay is counted in exactly one bucket. */
  lemma {:induction false} SamplesAddUp(os: seq<Outcome>, rate: real)
    ensures SumCounts(os, rate, BUCKETS) == NonNegative(os)
  {
    if os == [] {
      EmptyCounts(rate, BUCKETS);
    } else {
      SamplesAddUp(os[..|os| - 1], rate);
      OneMoreSample(os, rate, BUCKETS);
    }
  }

  lemma {:induction false} EmptyCounts(rate: real, n: nat)
    requires n <= BUCKETS
    ensures SumCounts([], rate, n) == 0
  {
    if n > 0 { EmptyCounts(rate, n - 1); }
  }

  lemma {:induction false} OneMoreSample(os: seq<Outcome>, rate: real, n: nat)
    requires os != [] && n <= BUCKETS
    ensures SumCounts(os, rate, n)
         == SumCounts(os[..|os| - 1], rate, n) + if 0 <= BucketOf(os[|os| - 1].delay) < n then 1 else 0
  {
    if n > 0 { OneMoreSample(os, rate, n - 1); }
  }

  /** A blend of two non-negative delays lies between them. */
  lemma BlendBetween(optimal: int, fallback: int, rate: real)
    requires optimal >= 0 && fallback >= 0 && 0.0 <= rate <= 1.0
    ensures (if optimal <= fallback then optimal else fallback) <= Blend(optimal, fallback, rate)
         <= (if optimal <= fallback then fallback else optimal)
  {
    var z := Mix(optimal as real, fallback as real, rate);
    if optimal <= fallback {
      BlendUp(optimal as real, fallback as real, rate);
      FloorBetween(z, optimal, fallback);
    } else {
      BlendDown(optimal as real, fallback as real, rate);
      FloorBetween(z, fallback, optimal);
    }
  }

  lemma BlendUp(x: real, y: real, rate: real)
    requires x <= y && 0.0 <= rate <= 1.0
    ensures x <= Mix(x, y, rate) <= y
  {
    Monotone(y - x, rate);
    Monotone(y - x, 1.0 - rate);
    assert y - (x * rate + y * (1.0 - rate)) == (y - x) * rate;
    assert x * rate + y * (1.0 - rate) - x == (y - x) * (1.0 - rate);
  }

  lemma BlendDown(x: real, y: real, rate: real)
    requires x >= y && 0.0 <= rate <= 1.0
    ensures y <= Mix(x, y, rate) <= x
  {
    BlendUp(y, x, 1.0 - rate);
    assert Mix(x, y, rate) == Mix(y, x, 1.0 - rate);
  }

  lemma FloorBetween(z: real, lo: int, hi: int)
    requires 0 <= lo && lo as real <= z <= hi as real
    ensures lo <= Truncate(z) <= hi
  {
  }

  /** A delay learned from any memory lies between the midpoint of a best eligible bucket and the
      fallback delay; with no eligible bucket it is the fallback delay. */
  lemma LearnedDelayIsBetween(os: seq<Outcome>, rate: real, total: nat, attempt: int, fallback: int -> int, d: int)
    requires 0.0 < rate <= 1.0 && fallback(attempt) >= 0
    requires MayDelay(Learned(os, rate), total, rate, attempt, fallback, d)
    ensures attempt <= 0 || total < 3 || !SomeEligible(Learned(os, rate)) ==> d == fallback(attempt)
    ensures attempt > 0 && total >= 3 && SomeEligible(Learned(os, rate)) ==>
      exists i :: Best(Learned(os, rate), i) && Between(Midpoint(Learned(os, rate)[i]), fallback(attempt), d)
  {
    var bs := Learned(os, rate);
    if attempt > 0 && total >= 3 && SomeEligible(bs) {
      var o :| MayBeOptimal(bs, rate, fallback(attempt), o) && d == if o > 0 then o else fallback(attempt);
      var i :| Best(bs, i) && o == Blend(Midpoint(bs[i]), fallback(attempt), rate);
      LearnedIsStandard(os, rate);
      assert RANGES[i].0 >= 0 && RANGES[i].1 >= RANGES[i].0;
      BlendBetween(Midpoint(bs[i]), fallback(attempt), rate);
    }
  }

  ghost predicate Between(x: int, y: int, d: int) {
    (if x <= y then x else y) <= d <= (if x <= y then y else x)
  }

  // ---- the learner inside the retry loop (pkg/executor/executor.go) ----

  /** A learner as a value: what it has been told so far. */
  datatype Learner = Learner(recorded: seq<Outcome>, rate: real, memory: nat)

  ghost function BucketsOf(l: Learner): Buckets {
    if l.recorded == [] then map[] else Learned(LastN(l.recorded, l.memory), l.rate)
  }

  ghost predicate MayAnswer(l: Learner, attempt: int, fallback: int -> int, d: int) {
    MayDelay(BucketsOf(l), |l.recorded|, l.rate, attempt, fallback, d)
  }

  /** One attempt of the executor: the delay it reports to the learner with the result, and the
      delay it computes and sleeps before the next attempt. */
  datatype Attempt = Attempt(reported: int, success: bool, latency: int, computed: int)

  /** A delay that is not positive is not slept. */
  function Pause(computed: int): int { if computed > 0 then computed else 0 }

  function Slept(a: Attempt): int { Pause(a.computed) }

  function Told(l: Learner, a: Attempt): Learner {
    l.(recorded := l.recorded + [Outcome(a.reported, a.success, a.latency)])
  }

  function After(l: Learner, run: seq<Attempt>): Learner {
    if run == [] then l else Told(After(l, run[..|run| - 1]), run[|run| - 1])
  }

  /** The pause before attempt n + 1 and the report after it ask Delay(n) of the same learner: the
      one that has been told of the first n attempts. */
  ghost predicate AsksTwice(l: Learner, run: seq<Attempt>, fallback: int -> int, n: nat)
    requires 1 <= n < |run|
  {
    && MayAnswer(After(l, run[..n]), n, fallback, run[n - 1].computed)
    && MayAnswer(After(l, run[..n]), n, fallback, run[n].reported)
  }

  /** What the retry loop does to a learner; the first attempt reports 0. */
  ghost predicate Attempts(l: Learner, run: seq<Attempt>, fallback: int -> int) {
    && (run != [] ==> run[0].reported == 0)
    && forall n: nat :: 1 <= n < |run| ==> AsksTwice(l, run, fallback, n)
  }

  /** The run with another pause computed after its last attempt. */
  function Repaused(run: seq<Attempt>, computed: int): (r: seq<Attempt>)
    requires run != []
    ensures |r| == |run|
  {
    var n := |run| - 1;
    run[n := run[n].(computed := computed)]
  }

  lemma {:induction false} AfterIgnoresPause(l: Learner, run: seq<Attempt>, computed: int)
    requires run != []
    ensures After(l, Repaused(run, computed)) == After(l, run)
  {
    var n := |run| - 1;
    assert Repaused(run, computed)[..n] == run[..n];
  }

  lemma AttemptsIgnorePause(l: Learner, run: seq<Attempt>, fallback: int -> int, computed: int)
    requires run != [] && Attempts(l, run, fallback)
    ensures Attempts(l, Repaused(run, computed), fallback)
  {
    var run' := Repaused(run, computed);
    forall n: nat | 1 <= n < |run'| ensures AsksTwice(l, run', fallback, n) {
      assert AsksTwice(l, run, fallback, n);
      assert run'[..n] == run[..n];
    }
  }

  lemma AttemptsGrow(l: Learner, run: seq<Attempt>, fallback: int -> int, a: Attempt)
    requires Attempts(l, run, fallback)
    requires if run == [] then a.reported == 0
             else MayAnswer(After(l, run), |run|, fallback, run[|run| - 1].computed)
                  && MayAnswer(After(l, run), |run|, fallback, a.reported)
    ensures Attempts(l, run + [a], fallback) && After(l, run + [a]) == Told(After(l, run), a)
  {
    var run' := run + [a];
    assert run'[..|run|] == run;
    forall n: nat | 1 <= n < |run'| ensures AsksTwice(l, run', fallback, n) {
      if n < |run| {
        assert AsksTwice(l, run, fallback, n);
        assert run'[..n] == run[..n];
      }
    }
  }

  /** No two buckets tie for the best. */
  ghost predicate UniqueBest(l: Learner) {
    forall i, j :: Best(BucketsOf(l), i) && Best(BucketsOf(l), j) ==> i == j
  }

  /** The map iteration order cannot show in the delay. */
  ghost predicate Determined(l: Learner, attempt: int, fallback: int -> int) {
    forall d, d' :: MayAnswer(l, attempt, fallback, d) && MayAnswer(l, attempt, fallback, d') ==> d == d'
  }

  /** The delay that bucket `i` leads to. */
  function Chosen(b: Bucket, fallback: int, rate: real): int {
    var optimal := Blend(Midpoint(b), fallback, rate);
    if optimal > 0 then optimal else fallback
  }

  /** All buckets that tie for the best lead to one delay. */
  ghost predicate TiesAgree(l: Learner, fallback: int) {
    var bs := BucketsOf(l);
    forall i, j :: Best(bs, i) && Best(bs, j) ==> Chosen(bs[i], fallback, l.rate) == Chosen(bs[j], fallback, l.rate)
  }

  /** Whenever the buckets are asked, the delay is determined if and only if the ties agree. For a
      learning rate of at least two in a billion and a fallback delay that is not negative, ties
      never agree: then there must be none. */
  lemma DeterminedExactly(l: Learner, attempt: int, fallback: int -> int)
    ensures Determined(l, attempt, fallback)
       <==> attempt <= 0 || |l.recorded| < 3 || TiesAgree(l, fallback(attempt))
    ensures 2.0 <= l.rate * SECOND as real && l.rate <= 1.0 && fallback(attempt) >= 0 ==>
      (TiesAgree(l, fallback(attempt)) <==> l.recorded == [] || UniqueBest(l))
  {
    var bs, f := BucketsOf(l), fallback(attempt);
    if attempt > 0 && |l.recorded| >= 3 {
      if TiesAgree(l, f) {
        forall d, d' | MayAnswer(l, attempt, fallback, d) && MayAnswer(l, attempt, fallback, d') ensures d == d' {
          AnswerIsChosen(l, attempt, fallback, d);
          AnswerIsChosen(l, attempt, fallback, d');
        }
      } else {
        var i, j :| Best(bs, i) && Best(bs, j) && Chosen(bs[i], f, l.rate) != Chosen(bs[j], f, l.rate);
        ChosenIsAnswer(l, attempt, fallback, i);
        ChosenIsAnswer(l, attempt, fallback, j);
      }
    }
    if 2.0 <= l.rate * SECOND as real && l.rate <= 1.0 && f >= 0 && l.recorded != [] {
      forall i, j | Best(bs, i) && Best(bs, j) && i < j ensures Chosen(bs[i], f, l.rate) != Chosen(bs[j], f, l.rate) {
        TieShows(l, f, i, j);
      }
    }
  }

  lemma AnswerIsChosen(l: Learner, attempt: int, fallback: int -> int, d: int)
    requires attempt > 0 && |l.recorded| >= 3 && MayAnswer(l, attempt, fallback, d)
    ensures if SomeEligible(BucketsOf(l))
            then exists i :: Best(BucketsOf(l), i) && d == Chosen(BucketsOf(l)[i], fallback(attempt), l.rate)
            else d == fallback(attempt)
  {
  }

  lemma ChosenIsAnswer(l: Learner, attempt: int, fallback: int -> int, i: int)
    requires attempt > 0 && |l.recorded| >= 3 && Best(BucketsOf(l), i)
    ensures MayAnswer(l, attempt, fallback, Chosen(BucketsOf(l)[i], fallback(attempt), l.rate))
  {
    var o := Blend(Midpoint(BucketsOf(l)[i]), fallback(attempt), l.rate);
    assert MayBeOptimal(BucketsOf(l), l.rate, fallback(attempt), o);
  }

  lemma TieShows(l: Learner, fallback: int, i: int, j: int)
    requires 2.0 <= l.rate * SECOND as real && l.rate <= 1.0 && fallback >= 0
    requires l.recorded != [] && i < j && Best(BucketsOf(l), i) && Best(BucketsOf(l), j)
    ensures Chosen(BucketsOf(l)[i], fallback, l.rate) != Chosen(BucketsOf(l)[j], fallback, l.rate)
  {
    var bs := BucketsOf(l);
    LearnedIsStandard(LastN(l.recorded, l.memory), l.rate);
    MidpointsApart(bs, i, j);
    BlendsApart(Midpoint(bs[i]), Midpoint(bs[j]), fallback, l.rate);
  }

  lemma MidpointsApart(bs: Buckets, i: int, j: int)
    requires StandardRanges(bs) && 0 <= i < j < BUCKETS
    ensures SECOND / 2 <= Midpoint(bs[i]) && Midpoint(bs[i]) + SECOND <= Midpoint(bs[j])
  {
  }

  lemma BlendsApart(m: int, m': int, fallback: int, rate: real)
    requires SECOND / 2 <= m && m + SECOND <= m' && fallback >= 0 && rate <= 1.0 && 2.0 <= rate * SECOND as real
    ensures 0 < Blend(m, fallback, rate) < Blend(m', fallback, rate)
  {
    var x, x', f := m as real, m' as real, fallback as real;
    Monotone(rate, x - SECOND as real / 2.0);
    Monotone(rate, x' - x - SECOND as real);
    Monotone(f, 1.0 - rate);
    assert Mix(x', f, rate) - Mix(x, f, rate) == rate * (x' - x - SECOND as real) + rate * SECOND as real;
    assert Mix(x, f, rate) == rate * (x - SECOND as real / 2.0) + rate * SECOND as real / 2.0 + f * (1.0 - rate);
  }

  /** The delay reported for an attempt is the one computed before it, in every run whose learner has
      no disagreeing ties when it is asked; and it is the delay slept if the fallback is never negative. */
  lemma ReportedIsSlept(l: Learner, run: seq<Attempt>, fallback: int -> int, n: nat)
    requires Attempts(l, run, fallback) && 1 <= n < |run|
    requires |l.recorded| + n < 3 || TiesAgree(After(l, run[..n]), fallback(n))
    ensures run[n].reported == run[n - 1].computed
    ensures fallback(n) >= 0 ==> run[n].reported == Slept(run[n - 1])
  {
    assert AsksTwice(l, run, fallback, n);
    AfterKeepsRate(l, run[..n]);
    DeterminedExactly(After(l, run[..n]), n, fallback);
    if fallback(n) >= 0 { AnswersAreNonNegative(After(l, run[..n]), n, fallback, run[n].reported); }
  }

  /** No answer the learner may give is negative. */
  ghost predicate AnswersAreDelays(l: Learner, fallback: int) {
    var bs := BucketsOf(l);
    if |l.recorded| < 3 || !SomeEligible(bs) then fallback >= 0
    else forall i :: Best(bs, i) ==> Chosen(bs[i], fallback, l.rate) >= 0
  }

  /** And this is exact: after any run, the next report is bound to be the delay slept before it if and
      only if the learner is too young to be asked or its ties agree, and no answer is negative. */
  lemma {:induction false} ReportedIsSleptExactly(l: Learner, run: seq<Attempt>, fallback: int -> int)
    requires run != [] && Attempts(l, run, fallback)
    ensures (forall computed, a :: Attempts(l, Repaused(run, computed) + [a], fallback) ==>
        a.reported == Pause(computed))
       <==> (|l.recorded| + |run| < 3 || TiesAgree(After(l, run), fallback(|run|)))
            && AnswersAreDelays(After(l, run), fallback(|run|))
  {
    var told, n := After(l, run), |run|;
    AfterKeepsRate(l, run);
    DeterminedExactly(told, n, fallback);
    if Determined(told, n, fallback) && AnswersAreDelays(told, fallback(n)) {
      forall computed, a | Attempts(l, Repaused(run, computed) + [a], fallback) ensures a.reported == Pause(computed) {
        NextIsSlept(l, run, fallback, computed, a);
      }
    } else if !Determined(told, n, fallback) {
      var d, d' :| MayAnswer(told, n, fallback, d) && MayAnswer(told, n, fallback, d') && d != d';
      SomeNext(l, run, fallback, d, d');
      SomeNext(l, run, fallback, d, d);
    } else {
      var d := NegativeAnswer(told, n, fallback);
      SomeNext(l, run, fallback, d, d);
    }
  }

  lemma NextIsSlept(l: Learner, run: seq<Attempt>, fallback: int -> int, computed: int, a: Attempt)
    requires run != [] && Attempts(l, Repaused(run, computed) + [a], fallback)
    requires Determined(After(l, run), |run|, fallback) && AnswersAreDelays(After(l, run), fallback(|run|))
    ensures a.reported == Pause(computed)
  {
    NextIsAsked(l, run, fallback, computed, a);
    NoNegativeAnswer(After(l, run), |run|, fallback, computed);
  }

  lemma NoNegativeAnswer(l: Learner, n: int, fallback: int -> int, d: int)
    requires n > 0 && AnswersAreDelays(l, fallback(n)) && MayAnswer(l, n, fallback, d)
    ensures d >= 0
  {
    if |l.recorded| >= 3 { AnswerIsChosen(l, n, fallback, d); }
  }

  lemma NegativeAnswer(l: Learner, n: int, fallback: int -> int) returns (d: int)
    requires n > 0 && !AnswersAreDelays(l, fallback(n))
    ensures d < 0 && MayAnswer(l, n, fallback, d)
  {
    var bs := BucketsOf(l);
    d := fallback(n);
    if |l.recorded| >= 3 && SomeEligible(bs) {
      var i :| Best(bs, i) && Chosen(bs[i], fallback(n), l.rate) < 0;
      ChosenIsAnswer(l, n, fallback, i);
      d := Chosen(bs[i], fallback(n), l.rate);
    } else if |l.recorded| >= 3 {
      assert MayBeOptimal(bs, l.rate, fallback(n), 0);
    }
  }

  /** Any two answers may be the next pause and the next report. */
  lemma SomeNext(l: Learner, run: seq<Attempt>, fallback: int -> int, computed: int, reported: int)
    requires run != [] && Attempts(l, run, fallback)
    requires MayAnswer(After(l, run), |run|, fallback, computed) && MayAnswer(After(l, run), |run|, fallback, reported)
    ensures Attempts(l, Repaused(run, computed) + [Attempt(reported, false, 0, 0)], fallback)
  {
    AfterIgnoresPause(l, run, computed);
    AttemptsIgnorePause(l, run, fallback, computed);
    AttemptsGrow(l, Repaused(run, computed), fallback, Attempt(reported, false, 0, 0));
  }

  lemma NextIsAsked(l: Learner, run: seq<Attempt>, fallback: int -> int, computed: int, a: Attempt)
    requires run != [] && Attempts(l, Repaused(run, computed) + [a], fallback)
    ensures MayAnswer(After(l, run), |run|, fallback, computed) && MayAnswer(After(l, run), |run|, fallback, a.reported)
  {
    var run' := Repaused(run, computed) + [a];
    assert AsksTwice(l, run', fallback, |run|);
    assert run'[..|run|] == Repaused(run, computed);
    AfterIgnoresPause(l, run, computed);
  }

  lemma {:induction false} AfterKeepsRate(l: Learner, run: seq<Attempt>)
    ensures After(l, run).rate == l.rate && After(l, run).memory == l.memory
    ensures |After(l, run).recorded| == |l.recorded| + |run|
  {
    if run != [] { AfterKeepsRate(l, run[..|run| - 1]); }
  }

  lemma AnswersAreNonNegative(l: Learner, attempt: int, fallback: int -> int, d: int)
    requires MayAnswer(l, attempt, fallback, d) && fallback(attempt) >= 0
    ensures d >= 0
  {
  }

  // ---- a memory of failures ----

  ghost predicate AllFailed(os: seq<Outcome>) {
    forall k :: 0 <= k < |os| ==> !os[k].success
  }

  lemma {:induction false} FailuresKeepRateZero(i: nat, os: seq<Outcome>, rate: real)
    requires i < BUCKETS && AllFailed(os)
    ensures Folded(i, os, rate).successRate == 0.0
  {
    if os != [] { FailuresKeepRateZero(i, os[..|os| - 1], rate); }
  }

  /** At most one bucket has been sampled twice. */
  ghost predicate OneEligible(bs: Buckets) {
    forall i, j :: i in bs && j in bs && bs[i].sampleCount >= 2 && bs[j].sampleCount >= 2 ==> i == j
  }

  /** A learner that knows only failures rates every bucket 0, so all eligible buckets tie. */
  lemma UniqueBestAfterFailures(l: Learner)
    requires AllFailed(l.recorded)
    ensures forall i :: i in BucketsOf(l) ==> BucketsOf(l)[i].successRate == 0.0
    ensures UniqueBest(l) <==> OneEligible(BucketsOf(l))
  {
    var bs := BucketsOf(l);
    forall i | i in bs ensures bs[i].successRate == 0.0 {
      FailuresKeepRateZero(i, LastN(l.recorded, l.memory), l.rate);
    }
    forall i | i in bs && bs[i].sampleCount >= 2 ensures Best(bs, i) {
    }
  }

  lemma {:induction false} FailedRunTeachesFailures(l: Learner, run: seq<Attempt>)
    requires AllFailed(l.recorded) && forall k :: 0 <= k < |run| ==> !run[k].success
    ensures AllFailed(After(l, run).recorded)
  {
    if run != [] { FailedRunTeachesFailures(l, run[..|run| - 1]); }
  }
}
