/** The adaptive strategy as the command line sets it up (cmd/patience/subcommands.go:978 and 1010-1012),
    and the first tie it runs into when a command keeps failing. */
module AdaptiveDefaults {
  import opened GoNumbers
  import opened Adaptive

  const DEFAULT := Learner([], 0.1, 50)

  /** Exponential from one second, doubling, up to a minute (pkg/backoff/strategy.go:58-75). */
  function Exponential(attempt: int): int {
    if attempt <= 0 then SECOND
    else
      var delay := Scale(SECOND, Pow(2.0, attempt - 1));
      if delay > 60 * SECOND then 60 * SECOND else delay
  }

  lemma FirstDelays()
    ensures Exponential(1) == 1 * SECOND && Exponential(2) == 2 * SECOND && Exponential(3) == 4 * SECOND
    ensures Exponential(4) == 8 * SECOND && Exponential(5) == 16 * SECOND && Exponential(6) == 32 * SECOND
    ensures Exponential(7) == 60 * SECOND
  {
    assert Pow(2.0, 1) == 2.0;
    assert Pow(2.0, 2) == 4.0;
    assert Pow(2.0, 3) == 8.0;
    assert Pow(2.0, 4) == 16.0;
    assert Pow(2.0, 5) == 32.0;
    assert Pow(2.0, 6) == 64.0;
  }

  /** How many samples each bucket holds. */
  type Histogram = h: seq<nat> | |h| == BUCKETS witness [0, 0, 0, 0, 0, 0, 0]

  ghost predicate Counts(os: seq<Outcome>, h: Histogram) {
    forall i :: 0 <= i < BUCKETS ==> Folded(i, os, 0.1).sampleCount == h[i]
  }

  /** A failing run so far: what the learner was told, and how it fills the buckets. */
  ghost predicate Stage(run: seq<Attempt>, h: Histogram) {
    && Attempts(DEFAULT, run, Exponential)
    && After(DEFAULT, run) == Learner(After(DEFAULT, run).recorded, 0.1, 50)
    && |After(DEFAULT, run).recorded| == |run| <= 50
    && AllFailed(After(DEFAULT, run).recorded) && Counts(After(DEFAULT, run).recorded, h)
  }

  /** An attempt that reports the delay computed before it, fails, and is followed by this pause. */
  function Failed(reported: int, computed: int): Attempt { Attempt(reported, false, 0, computed) }

  /** What Delay may answer after this run. */
  ghost predicate CanAnswer(run: seq<Attempt>, d: int) {
    exists l :: l == After(DEFAULT, run) && MayAnswer(l, |run|, Exponential, d)
  }

  lemma CountOne(os: seq<Outcome>, h: Histogram, o: Outcome)
    requires Counts(os, h) && o.delay >= 0
    ensures var b := BucketOf(o.delay); Counts(os + [o], h[b := h[b] + 1])
  {
    assert (os + [o])[..|os|] == os;
  }

  lemma OneMore(run: seq<Attempt>, h: Histogram, a: Attempt)
    requires Stage(run, h) && |run| < 50 && !a.success && a.reported >= 0
    requires if run == [] then a.reported == 0
             else CanAnswer(run, run[|run| - 1].computed) && CanAnswer(run, a.reported)
    ensures var b := BucketOf(a.reported); Stage(run + [a], h[b := h[b] + 1])
  {
    AttemptsGrow(DEFAULT, run, Exponential, a);
    CountOne(After(DEFAULT, run).recorded, h, Outcome(a.reported, a.success, a.latency));
  }

  /** A bucket with two samples is a best one, since all rates are 0. */
  lemma EligibleIsBest(run: seq<Attempt>, h: Histogram, i: nat)
    requires Stage(run, h) && i < BUCKETS && h[i] >= 2
    ensures Best(BucketsOf(After(DEFAULT, run)), i)
  {
    UniqueBestAfterFailures(After(DEFAULT, run));
    assert Folded(i, [], 0.1).sampleCount == 0;
  }

  /** So the learner may answer with a tenth of its midpoint and nine tenths of the fallback delay. */
  lemma MayBlend(run: seq<Attempt>, h: Histogram, i: nat, d: int)
    requires Stage(run, h) && i < BUCKETS && h[i] >= 2 && |run| >= 3
    requires d == Blend(RANGES[i].0 + (RANGES[i].1 - RANGES[i].0) / 2, Exponential(|run|), 0.1) > 0
    ensures CanAnswer(run, d)
  {
    EligibleIsBest(run, h, i);
    LearnedIsStandard(After(DEFAULT, run).recorded, 0.1);
    ChosenIsAnswer(After(DEFAULT, run), |run|, Exponential, i);
  }

  /** Without a bucket of two samples it answers with the fallback delay. */
  lemma MayFallBack(run: seq<Attempt>, h: Histogram)
    requires Stage(run, h) && forall i :: 0 <= i < BUCKETS ==> h[i] < 2
    ensures CanAnswer(run, Exponential(|run|))
  {
    var l := After(DEFAULT, run);
    if |run| >= 3 {
      LearnedIsStandard(l.recorded, 0.1);
      assert !SomeEligible(BucketsOf(l));
      assert MayBeOptimal(BucketsOf(l), 0.1, Exponential(|run|), 0);
    }
    assert MayAnswer(l, |run|, Exponential, Exponential(|run|));
  }

  const S := SECOND

  lemma OneFailure() returns (run: seq<Attempt>)
    ensures |run| == 1 && run[0].computed == 1 * S && Stage(run, [1, 0, 0, 0, 0, 0, 0])
  {
    run := [Failed(0, 1 * S)];
    assert Stage([], [0, 0, 0, 0, 0, 0, 0]);
    OneMore([], [0, 0, 0, 0, 0, 0, 0], Failed(0, 1 * S));
    assert [] + run == run && [0, 0, 0, 0, 0, 0, 0][0 := 1] == [1, 0, 0, 0, 0, 0, 0];
  }

  /** The first three pauses are the fallback delays. */
  lemma ThreeFailures() returns (run: seq<Attempt>)
    ensures |run| == 3 && run[2].computed == 4 * S && Stage(run, [1, 1, 1, 0, 0, 0, 0])
  {
    FirstDelays();
    run := OneFailure();
    MayFallBack(run, [1, 0, 0, 0, 0, 0, 0]);
    OneMore(run, [1, 0, 0, 0, 0, 0, 0], Failed(1 * S, 2 * S));
    run := run + [Failed(1 * S, 2 * S)];
    assert [1, 0, 0, 0, 0, 0, 0][1 := 1] == [1, 1, 0, 0, 0, 0, 0];
    MayFallBack(run, [1, 1, 0, 0, 0, 0, 0]);
    OneMore(run, [1, 1, 0, 0, 0, 0, 0], Failed(2 * S, 4 * S));
    run := run + [Failed(2 * S, 4 * S)];
    assert [1, 1, 0, 0, 0, 0, 0][2 := 1] == [1, 1, 1, 0, 0, 0, 0];
  }

  /** The fourth fills the bucket from two to five seconds, which then leads alone. */
  lemma FiveFailures() returns (run: seq<Attempt>)
    ensures |run| == 5 && run[4].computed == 14_750_000_000 && Stage(run, [1, 1, 2, 1, 0, 0, 0])
  {
    FirstDelays();
    run := ThreeFailures();
    MayFallBack(run, [1, 1, 1, 0, 0, 0, 0]);
    OneMore(run, [1, 1, 1, 0, 0, 0, 0], Failed(4 * S, 7_550_000_000));
    run := run + [Failed(4 * S, 7_550_000_000)];
    assert [1, 1, 1, 0, 0, 0, 0][2 := 2] == [1, 1, 2, 0, 0, 0, 0];
    MayBlend(run, [1, 1, 2, 0, 0, 0, 0], 2, 7_550_000_000);
    OneMore(run, [1, 1, 2, 0, 0, 0, 0], Failed(7_550_000_000, 14_750_000_000));
    run := run + [Failed(7_550_000_000, 14_750_000_000)];
    assert [1, 1, 2, 0, 0, 0, 0][3 := 1] == [1, 1, 2, 1, 0, 0, 0];
  }

  lemma SevenFailures() returns (run: seq<Attempt>)
    ensures |run| == 7 && Stage(run, [1, 1, 2, 1, 2, 0, 0])
  {
    FirstDelays();
    run := FiveFailures();
    MayBlend(run, [1, 1, 2, 1, 0, 0, 0], 2, 14_750_000_000);
    OneMore(run, [1, 1, 2, 1, 0, 0, 0], Failed(14_750_000_000, 29_150_000_000));
    run := run + [Failed(14_750_000_000, 29_150_000_000)];
    assert [1, 1, 2, 1, 0, 0, 0][4 := 1] == [1, 1, 2, 1, 1, 0, 0];
    MayBlend(run, [1, 1, 2, 1, 1, 0, 0], 2, 29_150_000_000);
    OneMore(run, [1, 1, 2, 1, 1, 0, 0], Failed(29_150_000_000, 54_350_000_000));
    run := run + [Failed(29_150_000_000, 54_350_000_000)];
    assert [1, 1, 2, 1, 1, 0, 0][4 := 2] == [1, 1, 2, 1, 2, 0, 0];
  }

  /** After seven failures two buckets tie: the eighth attempt of a default run may follow a sleep of
      54.35 seconds and report 56. */
  lemma TieSplitsTheDelay() returns (run: seq<Attempt>)
    ensures Attempts(DEFAULT, run, Exponential) && |run| == 8
    ensures Slept(run[6]) == 54_350_000_000 && run[7].reported == 56_000_000_000
  {
    FirstDelays();
    run := SevenFailures();
    var h := [1, 1, 2, 1, 2, 0, 0];
    MayBlend(run, h, 2, 54_350_000_000);
    MayBlend(run, h, 4, 56_000_000_000);
    SomeNext(DEFAULT, run, Exponential, 54_350_000_000, 56_000_000_000);
    run := Repaused(run, 54_350_000_000) + [Attempt(56_000_000_000, false, 0, 0)];
  }
}
