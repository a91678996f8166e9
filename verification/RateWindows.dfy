/** How many instants of a list fall into a half-open window, and the rate limit
    stated over every window. Times and durations are integer nanoseconds. */
module RateWindows {

  /** Number of entries of `ts` in [t, t + window), with multiplicity. */
  ghost function InWindow(ts: seq<int>, t: int, window: int): nat {
    if ts == [] then 0
    else (if t <= ts[0] < t + window then 1 else 0) + InWindow(ts[1..], t, window)
  }

  /** The rate limit: no window, wherever it starts, holds more than `limit` entries. */
  ghost predicate WithinLimit(ts: seq<int>, limit: int, window: int) {
    forall t :: InWindow(ts, t, window) <= limit
  }

  predicate Sorted(ts: seq<int>) {
    forall i, j :: 0 <= i < j < |ts| ==> ts[i] <= ts[j]
  }

  /** The instants at which a plan with these offsets fires. */
  function Planned(offsets: seq<int>, start: int): (r: seq<int>)
    ensures |r| == |offsets|
    ensures forall i :: 0 <= i < |r| ==> r[i] == start + offsets[i]
  {
    seq(|offsets|, i requires 0 <= i < |offsets| => start + offsets[i])
  }

  lemma {:induction false} InWindowConcat(a: seq<int>, b: seq<int>, t: int, window: int)
    ensures InWindow(a + b, t, window) == InWindow(a, t, window) + InWindow(b, t, window)
  {
    if a == [] {
      assert a + b == b;
    } else {
      assert (a + b)[1..] == a[1..] + b;
      InWindowConcat(a[1..], b, t, window);
    }
  }

  lemma {:induction false} InWindowNone(ts: seq<int>, t: int, window: int)
    requires forall i :: 0 <= i < |ts| ==> !(t <= ts[i] < t + window)
    ensures InWindow(ts, t, window) == 0
  {
    if ts != [] {
      InWindowNone(ts[1..], t, window);
    }
  }

  lemma {:induction false} InWindowAll(ts: seq<int>, t: int, window: int)
    requires forall i :: 0 <= i < |ts| ==> t <= ts[i] < t + window
    ensures InWindow(ts, t, window) == |ts|
  {
    if ts != [] {
      InWindowAll(ts[1..], t, window);
    }
  }

  /** Dropping entries can only lower a count; so reordering leaves it alone. */
  lemma {:induction false} InWindowMonotone(sub: seq<int>, all: seq<int>, t: int, window: int)
    requires multiset(sub) <= multiset(all)
    ensures InWindow(sub, t, window) <= InWindow(all, t, window)
  {
    if sub != [] {
      assert sub[0] in multiset(sub);
      var k :| 0 <= k < |all| && all[k] == sub[0];
      var rest := all[..k] + all[k + 1..];
      assert all == all[..k] + ([all[k]] + all[k + 1..]);
      assert sub == [sub[0]] + sub[1..];
      assert multiset(all) == multiset(rest) + multiset{all[k]};
      assert multiset(sub) == multiset(sub[1..]) + multiset{all[k]};
      forall x ensures multiset(sub[1..])[x] <= multiset(rest)[x] {
        assert multiset(sub)[x] <= multiset(all)[x];
      }
      InWindowMonotone(sub[1..], rest, t, window);
      InWindowConcat(all[..k], all[k + 1..], t, window);
      InWindowConcat(all[..k], [all[k]] + all[k + 1..], t, window);
      InWindowConcat([all[k]], all[k + 1..], t, window);
      InWindowConcat([sub[0]], sub[1..], t, window);
    }
  }

  lemma WithinLimitMonotone(sub: seq<int>, all: seq<int>, limit: int, window: int)
    requires multiset(sub) <= multiset(all) && WithinLimit(all, limit, window)
    ensures WithinLimit(sub, limit, window)
  {
    forall t ensures InWindow(sub, t, window) <= limit {
      InWindowMonotone(sub, all, t, window);
    }
  }

  lemma {:induction false} InWindowShift(offsets: seq<int>, start: int, t: int, window: int)
    ensures InWindow(Planned(offsets, start), t, window) == InWindow(offsets, t - start, window)
  {
    if offsets != [] {
      assert Planned(offsets, start)[1..] == Planned(offsets[1..], start);
      InWindowShift(offsets[1..], start, t, window);
    }
  }

  /** A plan fits the limit wherever it starts, or nowhere. */
  lemma PlanShift(offsets: seq<int>, start: int, limit: int, window: int)
    ensures WithinLimit(Planned(offsets, start), limit, window) <==> WithinLimit(offsets, limit, window)
  {
    forall t
      ensures InWindow(Planned(offsets, start), t + start, window) == InWindow(offsets, t, window)
      ensures InWindow(Planned(offsets, start), t, window) == InWindow(offsets, t - start, window)
    {
      InWindowShift(offsets, start, t + start, window);
      InWindowShift(offsets, start, t, window);
    }
    if WithinLimit(Planned(offsets, start), limit, window) {
      forall t ensures InWindow(offsets, t, window) <= limit {
        assert InWindow(Planned(offsets, start), t + start, window) <= limit;
      }
    }
    if WithinLimit(offsets, limit, window) {
      forall t ensures InWindow(Planned(offsets, start), t, window) <= limit {
        assert InWindow(offsets, t - start, window) <= limit;
      }
    }
  }

  /** In a sorted list the entries of a window are one run of indices. */
  lemma SortedRun(ts: seq<int>, lo: nat, hi: nat, t: int, window: int)
    requires lo <= hi <= |ts|
    requires forall i :: 0 <= i < lo ==> ts[i] < t
    requires forall i :: lo <= i < hi ==> t <= ts[i] < t + window
    requires forall i :: hi <= i < |ts| ==> t + window <= ts[i]
    ensures InWindow(ts, t, window) == hi - lo
  {
    assert ts == ts[..lo] + (ts[lo..hi] + ts[hi..]);
    InWindowConcat(ts[..lo], ts[lo..hi] + ts[hi..], t, window);
    InWindowConcat(ts[lo..hi], ts[hi..], t, window);
    InWindowNone(ts[..lo], t, window);
    InWindowAll(ts[lo..hi], t, window);
    InWindowNone(ts[hi..], t, window);
  }

  /** First index whose entry is at least `t`; |ts| when there is none. */
  ghost function LowerBound(ts: seq<int>, t: int): (k: nat)
    ensures k <= |ts|
    ensures forall i :: 0 <= i < k ==> ts[i] < t
    ensures k < |ts| ==> ts[k] >= t
  {
    if ts == [] || ts[0] >= t then 0 else 1 + LowerBound(ts[1..], t)
  }

  /** What the window starting at entry `i` counts from `i` on. */
  ghost function RunLength(ts: seq<int>, i: nat, window: int): (n: int)
    requires i < |ts|
  {
    LowerBound(ts[i..], ts[i] + window)
  }

  /** Every window is dominated by one that starts at an entry, so checking those is enough. */
  lemma RunsDecideEveryWindow(ts: seq<int>, limit: int, window: int)
    requires Sorted(ts) && ts != []
    ensures WithinLimit(ts, limit, window) <==> forall i :: 0 <= i < |ts| ==> RunLength(ts, i, window) <= limit
  {
    if WithinLimit(ts, limit, window) {
      forall i | 0 <= i < |ts| ensures RunLength(ts, i, window) <= limit {
        var n := RunLength(ts, i, window);
        InWindowConcat(ts[..i], ts[i..], ts[i], window);
        assert ts == ts[..i] + ts[i..];
        SortedRun(ts[i..], 0, n, ts[i], window);
        assert InWindow(ts, ts[i], window) <= limit;
      }
    }
    if forall i :: 0 <= i < |ts| ==> RunLength(ts, i, window) <= limit {
      forall t ensures InWindow(ts, t, window) <= limit {
        WindowBelowRun(ts, t, limit, window);
      }
    }
  }

  lemma WindowBelowRun(ts: seq<int>, t: int, limit: int, window: int)
    requires Sorted(ts) && ts != []
    requires forall i :: 0 <= i < |ts| ==> RunLength(ts, i, window) <= limit
    ensures InWindow(ts, t, window) <= limit
  {
    assert RunLength(ts, 0, window) <= limit;
    var lo := LowerBound(ts, t);
    if lo == |ts| {
      InWindowNone(ts, t, window);
    } else {
      var hi := LowerBound(ts, t + window);
      if hi <= lo {
        InWindowNone(ts, t, window);
      } else {
        SortedRun(ts, lo, hi, t, window);
        var n := RunLength(ts, lo, window);
        assert n < |ts| - lo ==> ts[lo..][n] == ts[lo + n];
      }
    }
  }
}
