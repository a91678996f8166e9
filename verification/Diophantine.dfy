/** The proactive strategy of pkg/backoff/diophantine.go: admit a plan only if no
    window over the existing and the planned requests exceeds the rate limit. */
module Diophantine {
  import opened RateWindows
  import opened SortSlice

  datatype Strategy = Strategy(rateLimit: int, window: int, retryOffsets: seq<int>) {

    /** The answer of CanScheduleRequest, stated over every window. A negative limit
        admits exactly the empty request list, on which the scan never starts. */
    ghost predicate Admits(existing: seq<int>, start: int) {
      var all := existing + Planned(retryOffsets, start);
      all == [] || WithinLimit(all, rateLimit, window)
    }

    method CanScheduleRequest(existing: seq<int>, newRequestTime: int) returns (ok: bool)
      ensures ok <==> Admits(existing, newRequestTime)
    {
      var newRetries := Planned(retryOffsets, newRequestTime);
      var n := |existing| + |newRetries|;
      ghost var all := existing + newRetries;
      var a := new int[n](i requires 0 <= i < n =>
        if i < |existing| then existing[i] else newRetries[i - |existing|]);
      assert a[..] == all;
      SortBy(a, t => t);
      ghost var ts := a[..];
      SortingKeepsTheAnswer(ts, all, rateLimit, window);
      for i := 0 to a.Length
        invariant a[..] == ts
        invariant forall k :: 0 <= k < i ==> RunLength(ts, k, window) <= rateLimit
      {
        var windowEnd := a[i] + window;
        var count := 0;
        var j := i;
        while j < a.Length && a[j] < windowEnd
          invariant i <= j <= a.Length && count == j - i
          invariant forall k :: i <= k < j ==> a[k] < windowEnd
        {
          count := count + 1;
          j := j + 1;
        }
        assert count == RunLength(ts, i, window) by {
          assert forall k :: 0 <= k < |ts[i..]| ==> ts[i..][k] == a[i + k];
        }
        if count > rateLimit {
          if ts != [] { RunsDecideEveryWindow(ts, rateLimit, window); }
          return false;
        }
      }
      if ts != [] { RunsDecideEveryWindow(ts, rateLimit, window); }
      return true;
    }
  }

  lemma SortingKeepsTheAnswer(ts: seq<int>, all: seq<int>, limit: int, window: int)
    requires multiset(ts) == multiset(all)
    ensures |ts| == |all|
    ensures WithinLimit(ts, limit, window) <==> WithinLimit(all, limit, window)
  {
    assert |ts| == |multiset(ts)| && |all| == |multiset(all)|;
    if WithinLimit(ts, limit, window) { WithinLimitMonotone(all, ts, limit, window); }
    if WithinLimit(all, limit, window) { WithinLimitMonotone(ts, all, limit, window); }
  }

  /** A yes survives reordering the existing requests and forgetting some of them;
      the answer depends on the existing times only as a multiset. */
  lemma FewerExistingStillAdmits(st: Strategy, existing: seq<int>, fewer: seq<int>, start: int)
    requires multiset(fewer) <= multiset(existing)
    ensures st.Admits(existing, start) ==> st.Admits(fewer, start)
    ensures multiset(fewer) == multiset(existing) ==> (st.Admits(existing, start) <==> st.Admits(fewer, start))
  {
    if st.Admits(existing, start) { AdmitsMonotone(st, existing, fewer, start); }
    if multiset(fewer) == multiset(existing) && st.Admits(fewer, start) {
      AdmitsMonotone(st, fewer, existing, start);
    }
  }

  lemma AdmitsMonotone(st: Strategy, existing: seq<int>, fewer: seq<int>, start: int)
    requires multiset(fewer) <= multiset(existing) && st.Admits(existing, start)
    ensures st.Admits(fewer, start)
  {
    var plan := Planned(st.retryOffsets, start);
    if fewer + plan != [] {
      assert existing + plan != [] by {
        if fewer != [] { assert fewer[0] in multiset(existing); }
      }
      WithinLimitMonotone(fewer + plan, existing + plan, st.rateLimit, st.window);
    }
  }

  /** With a non-negative limit the answer is exactly the rate limit over every window. */
  lemma AdmitsIsTheLimit(st: Strategy, existing: seq<int>, start: int)
    requires st.rateLimit >= 0
    ensures st.Admits(existing, start) <==>
            forall t :: Demand(st, existing, start, t) <= st.rateLimit
  {
    var all := existing + Planned(st.retryOffsets, start);
    forall t ensures Demand(st, existing, start, t) == InWindow(all, t, st.window) {
      InWindowConcat(existing, Planned(st.retryOffsets, start), t, st.window);
    }
    if st.Admits(existing, start) {
      forall t ensures Demand(st, existing, start, t) <= st.rateLimit {
        assert all != [] ==> InWindow(all, t, st.window) <= st.rateLimit;
      }
    } else {
      var t :| InWindow(all, t, st.window) > st.rateLimit;
      assert Demand(st, existing, start, t) > st.rateLimit;
    }
  }

  /** A negative limit admits nothing but the empty plan with no request active. */
  lemma NegativeLimitAdmitsNothing(st: Strategy, existing: seq<int>, start: int)
    requires st.rateLimit < 0
    ensures st.Admits(existing, start) <==> existing == [] && st.retryOffsets == []
  {
    var all := existing + Planned(st.retryOffsets, start);
    assert InWindow(all, 0, st.window) > st.rateLimit;
    assert |all| == |existing| + |st.retryOffsets|;
  }

  /** Existing plus planned requests of the window starting at `t`. */
  ghost function Demand(st: Strategy, existing: seq<int>, start: int, t: int): nat {
    InWindow(existing, t, st.window) + InWindow(Planned(st.retryOffsets, start), t, st.window)
  }
}
