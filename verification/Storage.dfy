/** The metrics store of pkg/storage/storage.go. The readings of the clock are parameters and never
    go back. */
module Storage {
  import opened GoNumbers
  import opened Filters

  const CLEANUP_INTERVAL: int := 5 * MINUTE

  /** The parts of metrics.RunMetrics that storage looks at. */
  datatype RunMetrics = RunMetrics(command: string, succeeded: bool, seconds: real, attempts: nat) {
    /** TotalDurationSeconds as a time.Duration. */
    function Duration(): int { Scale(SECOND, seconds) }
  }

  datatype StoredMetric = StoredMetric(timestamp: int, metrics: RunMetrics)

  ghost predicate TimeOrdered(ms: seq<StoredMetric>) {
    forall i, j :: 0 <= i < j < |ms| ==> ms[i].timestamp <= ms[j].timestamp
  }

  function Suffix<T>(s: seq<T>, n: nat): seq<T>
    requires n <= |s|
  {
    s[|s| - n..]
  }

  /** The `n` newest entries are young enough and within the size limit. */
  ghost predicate Keepable(all: seq<StoredMetric>, n: nat, cutoff: int, maxSize: nat) {
    n <= |all| && n <= maxSize && forall i :: |all| - n <= i < |all| ==> all[i].timestamp > cutoff
  }

  /** `kept` is the longest keepable suffix of `all`. */
  ghost predicate LongestKeepable(kept: seq<StoredMetric>, all: seq<StoredMetric>, cutoff: int, maxSize: nat) {
    && Keepable(all, |kept|, cutoff, maxSize) && kept == Suffix(all, |kept|)
    && forall n: nat :: n > |kept| ==> !Keepable(all, n, cutoff, maxSize)
  }

  /** Each entry before the newest `n` is too old or has at least maxSize newer ones. */
  ghost predicate GoneForCause(all: seq<StoredMetric>, n: nat, cutoff: int, maxSize: nat) {
    forall i :: 0 <= i < |all| - n ==> all[i].timestamp <= cutoff || |all| - i > maxSize
  }

  /** What is kept is a suffix of everything stored, in time order; and whatever is gone was too
      old at the last cleanup or has maxSize newer entries. */
  ghost predicate Consistent(metrics: seq<StoredMetric>, stored: seq<StoredMetric>, clock: int, cutoff: int,
      maxSize: nat) {
    && TimeOrdered(stored) && (forall i :: 0 <= i < |stored| ==> stored[i].timestamp <= clock)
    && |metrics| <= |stored| && metrics == Suffix(stored, |metrics|)
    && GoneForCause(stored, |metrics|, cutoff, maxSize)
  }

  lemma ConsistentAppend(metrics: seq<StoredMetric>, stored: seq<StoredMetric>, clock: int, cutoff: int, maxSize: nat,
                         m: StoredMetric)
    requires Consistent(metrics, stored, clock, cutoff, maxSize) && clock <= m.timestamp
    ensures Consistent(metrics + [m], stored + [m], m.timestamp, cutoff, maxSize)
  {
    assert metrics + [m] == Suffix(stored + [m], |metrics + [m]|);
    assert forall i :: 0 <= i < |stored| ==> (stored + [m])[i] == stored[i];
  }

  class MetricsStorage {
    var metrics: seq<StoredMetric>
    const maxSize: nat
    const maxAge: int
    var lastCleanup: int
    ghost var stored: seq<StoredMetric>  // everything stored since the last Clear
    ghost var clock: int                 // the latest reading

    ghost predicate Valid()
      reads this
    {
      lastCleanup <= clock && Consistent(metrics, stored, clock, lastCleanup - maxAge, maxSize)
    }

    constructor (maxSize: nat, maxAge: int, now: int)
      ensures Valid() && metrics == stored == [] && lastCleanup == now
      ensures this.maxSize == maxSize && this.maxAge == maxAge
    {
      metrics := [];
      this.maxSize := maxSize;
      this.maxAge := maxAge;
      lastCleanup := now;
      stored := [];
      clock := now;
    }

    method Store(metric: RunMetrics, now: int, later: int)
      requires Valid() && clock <= now <= later
      modifies this
      ensures Valid() && clock == later
      ensures stored == old(stored) + [StoredMetric(now, metric)]
      ensures later - old(lastCleanup) < CLEANUP_INTERVAL ==>
        metrics == old(metrics) + [StoredMetric(now, metric)] && lastCleanup == old(lastCleanup)
      ensures later - old(lastCleanup) >= CLEANUP_INTERVAL ==>
        LongestKeepable(metrics, stored, later - maxAge, maxSize) && lastCleanup == later
    {
      ConsistentAppend(metrics, stored, clock, lastCleanup - maxAge, maxSize, StoredMetric(now, metric));
      metrics := metrics + [StoredMetric(now, metric)];
      stored := stored + [StoredMetric(now, metric)];
      clock := now;
      CleanupIfNeeded(later);
    }

    method CleanupIfNeeded(now: int)
      requires Valid() && clock <= now
      modifies this
      ensures Valid() && clock == now && stored == old(stored)
      ensures now - old(lastCleanup) < CLEANUP_INTERVAL ==> metrics == old(metrics) && lastCleanup == old(lastCleanup)
      ensures now - old(lastCleanup) >= CLEANUP_INTERVAL ==>
        LongestKeepable(metrics, stored, now - maxAge, maxSize) && lastCleanup == now
    {
      clock := now;
      if now - lastCleanup < CLEANUP_INTERVAL {
        return;
      }
      var cutoff := now - maxAge;
      metrics := FilterAndTrim(metrics, stored, now, lastCleanup - maxAge, cutoff, maxSize);
      lastCleanup := now;
    }

    method Clear()
      requires Valid()
      modifies this`metrics, this`stored
      ensures Valid() && metrics == stored == []
    {
      metrics := [];
      stored := [];
    }

    /** The newest `limit` entries; all of them when the limit is not between 1 and their number. */
    method GetRecent(limit: int) returns (result: seq<StoredMetric>)
      requires Valid()
      ensures |result| == (if 1 <= limit <= |metrics| then limit else |metrics|) && result == Suffix(stored, |result|)
    {
      var n := limit;
      if n <= 0 || n > |metrics| {
        n := |metrics|;
      }
      result := metrics[|metrics| - n..];
    }
  }

  function After(cutoff: int): StoredMetric -> bool {
    (m: StoredMetric) => m.timestamp > cutoff
  }

  function Kept(ms: seq<StoredMetric>, cutoff: int): seq<StoredMetric> {
    Filter(ms, After(cutoff))
  }

  /** Drops what is too old, then the oldest of what is too much. */
  method FilterAndTrim(metrics: seq<StoredMetric>, ghost stored: seq<StoredMetric>, ghost clock: int,
                       ghost oldCutoff: int, cutoff: int, maxSize: nat)
      returns (trimmed: seq<StoredMetric>)
    requires Consistent(metrics, stored, clock, oldCutoff, maxSize) && oldCutoff <= cutoff
    ensures LongestKeepable(trimmed, stored, cutoff, maxSize)
    ensures Consistent(trimmed, stored, clock, cutoff, maxSize)
  {
    var kept := KeepWhere(metrics, After(cutoff));
    trimmed := kept;
    if |kept| > maxSize {
      var excess := |kept| - maxSize;
      trimmed := kept[excess..];
    }
    CleanupKeepsLongest(metrics, stored, clock, oldCutoff, cutoff, maxSize, kept, trimmed);
  }

  /** On entries in time order the filter drops a prefix. */
  lemma {:induction false} FilterIsSuffix(ms: seq<StoredMetric>, cutoff: int)
    requires TimeOrdered(ms)
    ensures |Kept(ms, cutoff)| <= |ms| && Kept(ms, cutoff) == Suffix(ms, |Kept(ms, cutoff)|)
    ensures forall i :: |ms| - |Kept(ms, cutoff)| <= i < |ms| ==> ms[i].timestamp > cutoff
    ensures forall i :: 0 <= i < |ms| - |Kept(ms, cutoff)| ==> ms[i].timestamp <= cutoff
  {
    if ms != [] {
      FilterIsSuffix(ms[..|ms| - 1], cutoff);
    }
  }

  lemma CleanupKeepsLongest(metrics: seq<StoredMetric>, stored: seq<StoredMetric>, clock: int, oldCutoff: int,
      cutoff: int,
                            maxSize: nat, kept: seq<StoredMetric>, trimmed: seq<StoredMetric>)
    requires Consistent(metrics, stored, clock, oldCutoff, maxSize)
    requires oldCutoff <= cutoff && kept == Kept(metrics, cutoff)
    requires trimmed == if |kept| > maxSize then kept[|kept| - maxSize..] else kept
    ensures LongestKeepable(trimmed, stored, cutoff, maxSize)
    ensures Consistent(trimmed, stored, clock, cutoff, maxSize)
  {
    SuffixIsOrdered(stored, |metrics|);
    FilterIsSuffix(metrics, cutoff);
    DroppedPrefix(metrics, stored, oldCutoff, cutoff, maxSize, |kept|);
    TrimToSize(stored, cutoff, maxSize, kept, trimmed);
  }

  lemma SuffixIsOrdered(all: seq<StoredMetric>, n: nat)
    requires TimeOrdered(all) && n <= |all|
    ensures TimeOrdered(Suffix(all, n))
  {
  }

  /** What the filter drops joins what was gone before. */
  lemma DroppedPrefix(metrics: seq<StoredMetric>, stored: seq<StoredMetric>, oldCutoff: int, cutoff: int,
                      maxSize: nat, n: nat)
    requires n <= |metrics| <= |stored| && metrics == Suffix(stored, |metrics|) && oldCutoff <= cutoff
    requires GoneForCause(stored, |metrics|, oldCutoff, maxSize)
    requires forall i :: 0 <= i < |metrics| - n ==> metrics[i].timestamp <= cutoff
    requires forall i :: |metrics| - n <= i < |metrics| ==> metrics[i].timestamp > cutoff
    ensures Suffix(metrics, n) == Suffix(stored, n)
    ensures GoneForCause(stored, n, cutoff, maxSize)
    ensures forall i :: |stored| - n <= i < |stored| ==> stored[i].timestamp > cutoff
  {
    var gone := |stored| - |metrics|;
    forall i | gone <= i < |stored| ensures stored[i] == metrics[i - gone] {
    }
  }

  lemma TrimToSize(stored: seq<StoredMetric>, cutoff: int, maxSize: nat, kept: seq<StoredMetric>,
      trimmed: seq<StoredMetric>)
    requires |kept| <= |stored| && kept == Suffix(stored, |kept|)
    requires GoneForCause(stored, |kept|, cutoff, maxSize)
    requires forall i :: |stored| - |kept| <= i < |stored| ==> stored[i].timestamp > cutoff
    requires trimmed == if |kept| > maxSize then kept[|kept| - maxSize..] else kept
    ensures LongestKeepable(trimmed, stored, cutoff, maxSize)
    ensures GoneForCause(stored, |trimmed|, cutoff, maxSize)
  {
    assert trimmed == Suffix(stored, |trimmed|);
    forall n: nat | n > |trimmed| ensures !Keepable(stored, n, cutoff, maxSize) {
      if n <= |stored| && n <= maxSize {
        assert stored[|stored| - n].timestamp <= cutoff;
      }
    }
  }

  /** No two suffixes are both longest, so a cleanup leaves exactly one possible store. */
  lemma LongestIsUnique(a: seq<StoredMetric>, b: seq<StoredMetric>, all: seq<StoredMetric>, cutoff: int, maxSize: nat)
    requires LongestKeepable(a, all, cutoff, maxSize) && LongestKeepable(b, all, cutoff, maxSize)
    ensures a == b
  {
  }
}
