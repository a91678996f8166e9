/** Aggregated statistics of pkg/storage/storage.go: one pass that updates per-command and per-hour
    records in place, then two sorts. */
module Aggregation {
  import opened GoNumbers
  import opened Filters
  import opened SortSlice
  import opened KeyedLists
  import opened RunningMean
  import opened Storage

  datatype CommandStats = CommandStats(command: string, count: int, successRate: real, avgDuration: int)
  datatype HourlyStats = HourlyStats(hour: int, totalRuns: int, successRate: real)

  datatype AggregatedStats = AggregatedStats(
    totalRuns: int, successfulRuns: int, failedRuns: int,
    successRate: real, averageAttempts: real, averageDuration: int,
    topCommands: seq<CommandStats>, hourlyBreakdown: seq<HourlyStats>)

  const TOP: nat := 10

  type Metrics = seq<StoredMetric>

  // ---- the meaning ----

  function Between(start: int, end: int): StoredMetric -> bool {
    (m: StoredMetric) => start < m.timestamp < end
  }

  function CommandOf(m: StoredMetric): string { m.metrics.command }

  function HourOf(m: StoredMetric): int { m.timestamp - m.timestamp % HOUR }

  function HasKey<K(==)>(key: StoredMetric -> K, k: K): StoredMetric -> bool {
    (m: StoredMetric) => key(m) == k
  }

  /** The full hour that was running. */
  lemma HourOfIs(m: StoredMetric, h: int)
    ensures HourOf(m) == h <==> h % HOUR == 0 && h <= m.timestamp < h + HOUR
  {
    var t := m.timestamp;
    assert (t - t % HOUR) % HOUR == 0;
    if h % HOUR == 0 && h <= t < h + HOUR {
      assert t / HOUR == h / HOUR;
    }
  }

  /** The entries with this key. */
  function Own<K(==)>(ms: Metrics, key: StoredMetric -> K, k: K): Metrics {
    Filter(ms, HasKey(key, k))
  }

  function SuccessCount(ms: Metrics): nat {
    if ms == [] then 0 else SuccessCount(ms[..|ms| - 1]) + if ms[|ms| - 1].metrics.succeeded then 1 else 0
  }

  function Durations(ms: Metrics): (ds: seq<int>)
    ensures |ds| == |ms| && forall i :: 0 <= i < |ds| ==> ds[i] == ms[i].metrics.Duration()
  {
    seq(|ms|, i requires 0 <= i < |ms| => ms[i].metrics.Duration())
  }

  function AttemptTotal(ms: Metrics): nat {
    if ms == [] then 0 else AttemptTotal(ms[..|ms| - 1]) + ms[|ms| - 1].metrics.attempts
  }

  function Ratio(a: int, n: int): real {
    if n == 0 then 0.0 else a as real / n as real
  }

  /** The record of a command over its own runs: successes over runs exactly, and the running mean. */
  function CommandRecord(c: string, own: Metrics): CommandStats {
    CommandStats(c, |own|, Ratio(SuccessCount(own), |own|), Mean(Durations(own)))
  }

  function HourRecord(h: int, own: Metrics): HourlyStats {
    HourlyStats(h, |own|, Ratio(SuccessCount(own), |own|))
  }

  /** One record for every key that occurs, over exactly the entries with that key. */
  ghost predicate Table<K(!new), V>(t: map<K, V>, ms: Metrics, key: StoredMetric -> K, record: (K, Metrics) -> V) {
    && (forall k :: k in t <==> k in Names(ms, key))
    && forall k :: k in t ==> t[k] == record(k, Own(ms, key, k))
  }

  function CommandName(s: CommandStats): string { s.command }
  function CommandCount(s: CommandStats): int { s.count }
  function MostRunsFirst(s: CommandStats): int { -s.count }
  function HourName(s: HourlyStats): int { s.hour }
  function HourCount(s: HourlyStats): int { s.totalRuns }

  function Take<T>(s: seq<T>, n: nat): seq<T> { if |s| > n then s[..n] else s }

  ghost predicate Totals(st: AggregatedStats, ms: Metrics) {
    && st.totalRuns == |ms|
    && st.successfulRuns == SuccessCount(ms) && st.failedRuns == |ms| - SuccessCount(ms)
    && st.successRate == Ratio(SuccessCount(ms), |ms|)
    && st.averageAttempts == Ratio(AttemptTotal(ms), |ms|)
    && st.averageDuration == (if ms == [] then 0 else GoDiv(Sum(Durations(ms)), |ms|))
  }

  /** `full` lists one record for each command, most runs first. */
  ghost predicate CommandList(full: seq<CommandStats>, ms: Metrics) {
    SortedBy(full, MostRunsFirst) && exists t :: Table(t, ms, CommandOf, CommandRecord) && Listing(full, t, CommandName)
  }

  ghost predicate HourList(full: seq<HourlyStats>, ms: Metrics) {
    SortedBy(full, HourName) && exists t :: Table(t, ms, HourOf, HourRecord) && Listing(full, t, HourName)
  }

  // ---- one step of the pass ----

  /** The incremental update of a rate; `n` counts the new run. */
  function NextRate(rate: real, n: int, success: bool): real
    requires n != 0
  {
    if success then (rate * (n - 1) as real + 1.0) / n as real else rate * (n - 1) as real / n as real
  }

  lemma RateStep(s: int, n: int)
    requires n >= 1
    ensures NextRate(Ratio(s, n), n + 1, true) == Ratio(s + 1, n + 1)
    ensures NextRate(Ratio(s, n), n + 1, false) == Ratio(s, n + 1)
  {
    assert (s as real / n as real) * n as real == s as real;
  }

  lemma SnocFacts(ms: Metrics, m: StoredMetric)
    ensures SuccessCount(ms + [m]) == SuccessCount(ms) + if m.metrics.succeeded then 1 else 0
    ensures AttemptTotal(ms + [m]) == AttemptTotal(ms) + m.metrics.attempts
    ensures Sum(Durations(ms + [m])) == Sum(Durations(ms)) + m.metrics.Duration()
    ensures Mean(Durations(ms + [m])) == MeanStep(Mean(Durations(ms)), |ms|, m.metrics.Duration())
  {
    assert (ms + [m])[..|ms|] == ms;
    assert Durations(ms + [m])[..|ms|] == Durations(ms);
  }

  lemma CommandRecordStep(c: string, own: Metrics, m: StoredMetric)
    requires own != []
    ensures var r := CommandRecord(c, own);
      CommandRecord(c, own + [m]) == CommandStats(c, r.count + 1, NextRate(r.successRate, r.count + 1,
          m.metrics.succeeded),
                                                  MeanStep(r.avgDuration, r.count, m.metrics.Duration()))
  {
    SnocFacts(own, m);
    RateStep(SuccessCount(own), |own|);
  }

  lemma HourRecordStep(h: int, own: Metrics, m: StoredMetric)
    requires own != []
    ensures var r := HourRecord(h, own);
      HourRecord(h, own + [m]) == HourlyStats(h, r.totalRuns + 1, NextRate(r.successRate, r.totalRuns + 1,
          m.metrics.succeeded))
  {
    SnocFacts(own, m);
    RateStep(SuccessCount(own), |own|);
  }

  lemma FirstRecord(m: StoredMetric, c: string, h: int)
    ensures CommandRecord(c, [m]) == CommandStats(c, 1, if m.metrics.succeeded then 1.0 else 0.0, m.metrics.Duration())
    ensures HourRecord(h, [m]) == HourlyStats(h, 1, if m.metrics.succeeded then 1.0 else 0.0)
  {
    assert [m] == [] + [m];
    SnocFacts([], m);
    assert Durations([m]) == [m.metrics.Duration()];
    FirstMean(m.metrics.Duration());
  }

  lemma OwnSnoc<K>(ms: Metrics, m: StoredMetric, key: StoredMetric -> K, k: K)
    ensures Own(ms + [m], key, k) == Own(ms, key, k) + if key(m) == k then [m] else []
  {
    assert (ms + [m])[..|ms|] == ms;
  }

  lemma {:induction false} OwnEmpty<K>(ms: Metrics, key: StoredMetric -> K, k: K)
    ensures Own(ms, key, k) == [] <==> k !in Names(ms, key)
  {
    if ms != [] {
      var n := |ms| - 1;
      OwnEmpty(ms[..n], key, k);
      assert Names(ms, key) == Names(ms[..n], key) + [key(ms[n])];
    }
  }

  /** Replacing or creating the record of one key keeps the table right. */
  lemma TableStep<K(!new), V>(t: map<K, V>, ms: Metrics, m: StoredMetric, key: StoredMetric -> K,
                              record: (K, Metrics) -> V, v: V)
    requires Table(t, ms, key, record) && v == record(key(m), Own(ms, key, key(m)) + [m])
    ensures Table(t[key(m) := v], ms + [m], key, record)
  {
    assert Names(ms + [m], key) == Names(ms, key) + [key(m)];
    OwnSnoc(ms, m, key, key(m));
    forall k | k in t && k != key(m) ensures Own(ms + [m], key, k) == Own(ms, key, k) {
      OwnSnoc(ms, m, key, k);
    }
  }

  method TrackCommand(t: map<string, CommandStats>, m: StoredMetric, ghost ms: Metrics)
      returns (t': map<string, CommandStats>)
    requires Table(t, ms, CommandOf, CommandRecord)
    ensures Table(t', ms + [m], CommandOf, CommandRecord)
  {
    var c := CommandOf(m);
    var s;
    OwnEmpty(ms, CommandOf, c);
    if c in t {
      CommandRecordStep(c, Own(ms, CommandOf, c), m);
      s := t[c];
      s := s.(count := s.count + 1);
      s := s.(successRate := NextRate(s.successRate, s.count, m.metrics.succeeded));
      s := s.(avgDuration := MeanStep(s.avgDuration, s.count - 1, m.metrics.Duration()));
    } else {
      FirstRecord(m, c, 0);
      s := CommandStats(c, 1, if m.metrics.succeeded then 1.0 else 0.0, m.metrics.Duration());
      assert Own(ms, CommandOf, c) + [m] == [m];
    }
    TableStep(t, ms, m, CommandOf, CommandRecord, s);
    t' := t[c := s];
  }

  method TrackHour(t: map<int, HourlyStats>, m: StoredMetric, ghost ms: Metrics) returns (t': map<int, HourlyStats>)
    requires Table(t, ms, HourOf, HourRecord)
    ensures Table(t', ms + [m], HourOf, HourRecord)
  {
    var h := HourOf(m);
    var s;
    OwnEmpty(ms, HourOf, h);
    if h in t {
      HourRecordStep(h, Own(ms, HourOf, h), m);
      s := t[h];
      s := s.(totalRuns := s.totalRuns + 1);
      s := s.(successRate := NextRate(s.successRate, s.totalRuns, m.metrics.succeeded));
    } else {
      FirstRecord(m, "", h);
      s := HourlyStats(h, 1, if m.metrics.succeeded then 1.0 else 0.0);
      assert Own(ms, HourOf, h) + [m] == [m];
    }
    TableStep(t, ms, m, HourOf, HourRecord, s);
    t' := t[h := s];
  }

  method MetricsInRange(ms: Metrics, start: int, end: int) returns (result: Metrics)
    ensures result == Filter(ms, Between(start, end))
    ensures forall m :: m in result <==> m in ms && start < m.timestamp < end
  {
    FilterMembers(ms, Between(start, end));
    result := KeepWhere(ms, Between(start, end));
  }

  /** The running totals of the pass. */
  datatype Sums = Sums(total: int, successful: int, failed: int, duration: int, attempts: int)

  function SumsOf(ms: Metrics): Sums {
    Sums(|ms|, SuccessCount(ms), |ms| - SuccessCount(ms), Sum(Durations(ms)), AttemptTotal(ms))
  }

  /** The pass over the runs in range. */
  method Accumulate(ms: Metrics)
      returns (sums: Sums, commandStats: map<string, CommandStats>, hourlyStats: map<int, HourlyStats>)
    ensures sums == SumsOf(ms)
    ensures Table(commandStats, ms, CommandOf, CommandRecord) && Table(hourlyStats, ms, HourOf, HourRecord)
  {
    sums, commandStats, hourlyStats := Sums(0, 0, 0, 0, 0), map[], map[];
    for i := 0 to |ms|
      invariant sums == SumsOf(ms[..i])
      invariant Table(commandStats, ms[..i], CommandOf, CommandRecord)
      invariant Table(hourlyStats, ms[..i], HourOf, HourRecord)
    {
      assert ms[..i + 1] == ms[..i] + [ms[i]];
      sums := AddRun(sums, ms[i], ms[..i]);
      commandStats := TrackCommand(commandStats, ms[i], ms[..i]);
      hourlyStats := TrackHour(hourlyStats, ms[i], ms[..i]);
    }
    assert ms[..|ms|] == ms;
  }

  method AddRun(sums: Sums, m: StoredMetric, ghost ms: Metrics) returns (sums': Sums)
    requires sums == SumsOf(ms)
    ensures sums' == SumsOf(ms + [m])
  {
    SnocFacts(ms, m);
    sums' := sums.(total := sums.total + 1);
    if m.metrics.succeeded {
      sums' := sums'.(successful := sums.successful + 1);
    } else {
      sums' := sums'.(failed := sums.failed + 1);
    }
    sums' := sums'.(duration := sums.duration + m.metrics.Duration(), attempts := sums.attempts + m.metrics.attempts);
  }

  /** `full` is the complete command list before it is cut to the top ten. */
  method GetAggregatedStats(metrics: Metrics, start: int, end: int)
      returns (st: AggregatedStats, ghost full: seq<CommandStats>)
    ensures Totals(st, Filter(metrics, Between(start, end)))
    ensures CommandList(full, Filter(metrics, Between(start, end))) && st.topCommands == Take(full, TOP)
    ensures HourList(st.hourlyBreakdown, Filter(metrics, Between(start, end)))
  {
    var ms := MetricsInRange(metrics, start, end);
    var sums, commandStats, hourlyStats := Accumulate(ms);
    var commands := ListSorted(commandStats, CommandName, MostRunsFirst);
    var hours := ListSorted(hourlyStats, HourName, HourName);
    full := commands;
    st := AggregatedStats(sums.total, sums.successful, sums.failed, Ratio(sums.successful, sums.total),
                          Ratio(sums.attempts, sums.total),
                          if sums.total > 0 then GoDiv(sums.duration, sums.total) else 0, Take(commands, TOP), hours);
  }

  // ---- conservation and the top list ----

  lemma {:induction false} OwnCount<K>(ms: Metrics, key: StoredMetric -> K, k: K)
    ensures |Own(ms, key, k)| == CountOf(Names(ms, key), k)
  {
    if ms != [] {
      OwnCount(ms[..|ms| - 1], key, k);
      assert Names(ms, key)[..|ms| - 1] == Names(ms[..|ms| - 1], key);
    }
  }

  /** Counting the entries of every listed key counts every entry once. */
  lemma TableAddsUp<K(!new), V>(full: seq<V>, t: map<K, V>, ms: Metrics, key: StoredMetric -> K,
                                record: (K, Metrics) -> V, name: V -> K, count: V -> int)
    requires Table(t, ms, key, record) && Listing(full, t, name)
    requires forall k, own :: count(record(k, own)) == |own|
    ensures SumOver(full, count) == |ms|
  {
    forall i | 0 <= i < |full| ensures count(full[i]) == CountOf(Names(ms, key), name(full[i])) {
      var k := name(full[i]);
      assert t[k] == full[i] == record(k, Own(ms, key, k));
      OwnCount(ms, key, k);
    }
    ListingAddsUp(full, t, name, count, Names(ms, key));
  }

  /** Every run is counted once as a success or a failure, once under its command before the list
      is cut, and once under its hour. */
  lemma RunsAreConserved(st: AggregatedStats, ms: Metrics, full: seq<CommandStats>)
    requires Totals(st, ms) && CommandList(full, ms) && HourList(st.hourlyBreakdown, ms)
    ensures st.totalRuns == st.successfulRuns + st.failedRuns == |ms|
    ensures SumOver(full, CommandCount) == st.totalRuns
    ensures SumOver(st.hourlyBreakdown, HourCount) == st.totalRuns
  {
    var t :| Table(t, ms, CommandOf, CommandRecord) && Listing(full, t, CommandName);
    TableAddsUp(full, t, ms, CommandOf, CommandRecord, CommandName, CommandCount);
    var u :| Table(u, ms, HourOf, HourRecord) && Listing(st.hourlyBreakdown, u, HourName);
    TableAddsUp(st.hourlyBreakdown, u, ms, HourOf, HourRecord, HourName, HourCount);
  }

  /** Each listed record covers exactly the runs of its command. */
  lemma RecordsAreExact(full: seq<CommandStats>, ms: Metrics, i: nat)
    requires CommandList(full, ms) && i < |full|
    ensures var own := Own(ms, CommandOf, full[i].command);
      own != [] && full[i] == CommandRecord(full[i].command, own)
      && full[i].count == CountOf(Names(ms, CommandOf), full[i].command)
  {
    var t :| Table(t, ms, CommandOf, CommandRecord) && Listing(full, t, CommandName);
    var c := CommandName(full[i]);
    assert c in t && t[c] == full[i];
    OwnEmpty(ms, CommandOf, c);
    OwnCount(ms, CommandOf, c);
  }

  lemma HourRecordsAreExact(full: seq<HourlyStats>, ms: Metrics, i: nat)
    requires HourList(full, ms) && i < |full|
    ensures var own := Own(ms, HourOf, full[i].hour);
      own != [] && full[i] == HourRecord(full[i].hour, own)
      && full[i].totalRuns == CountOf(Names(ms, HourOf), full[i].hour)
  {
    var t :| Table(t, ms, HourOf, HourRecord) && Listing(full, t, HourName);
    var h := HourName(full[i]);
    assert h in t && t[h] == full[i];
    OwnEmpty(ms, HourOf, h);
    OwnCount(ms, HourOf, h);
  }

  /** Every listed rate, updated run by run, times the listed count is the number of successes among
      the runs of that command or hour. */
  lemma RatesAreExact(commands: seq<CommandStats>, hours: seq<HourlyStats>, ms: Metrics)
    requires CommandList(commands, ms) && HourList(hours, ms)
    ensures forall i :: 0 <= i < |commands| ==>
      TimesIs(commands[i].successRate, commands[i].count, SuccessCount(Own(ms, CommandOf, commands[i].command)))
    ensures forall i :: 0 <= i < |hours| ==>
      TimesIs(hours[i].successRate, hours[i].totalRuns, SuccessCount(Own(ms, HourOf, hours[i].hour)))
  {
    forall i | 0 <= i < |commands|
      ensures TimesIs(commands[i].successRate, commands[i].count, SuccessCount(Own(ms, CommandOf, commands[i].command)))
    {
      RecordsAreExact(commands, ms, i);
      var own := Own(ms, CommandOf, commands[i].command);
      RatioTimes(SuccessCount(own), |own|);
    }
    forall i | 0 <= i < |hours|
      ensures TimesIs(hours[i].successRate, hours[i].totalRuns, SuccessCount(Own(ms, HourOf, hours[i].hour)))
    {
      HourRecordsAreExact(hours, ms, i);
      var own := Own(ms, HourOf, hours[i].hour);
      RatioTimes(SuccessCount(own), |own|);
    }
  }

  ghost predicate TimesIs(r: real, n: int, a: int) {
    r * n as real == a as real
  }

  lemma RatioTimes(a: int, n: int)
    requires n > 0
    ensures TimesIs(Ratio(a, n), n, a)
  {
  }

  ghost predicate Lists(list: seq<CommandStats>, c: string) {
    exists i :: 0 <= i < |list| && list[i].command == c
  }

  /** The top list is in order of count, has at most ten entries, and a command is left out only
      behind ten that ran at least as often. */
  lemma TopCommandsAreTop(full: seq<CommandStats>, top: seq<CommandStats>, ms: Metrics, c: string)
    requires CommandList(full, ms) && top == Take(full, TOP) && c in Names(ms, CommandOf)
    ensures forall i, j :: 0 <= i < j < |top| ==> top[i].count >= top[j].count
    ensures |top| <= TOP
    ensures Lists(top, c) || (|top| == TOP && forall i :: 0 <= i < TOP ==>
        top[i].count >= CountOf(Names(ms, CommandOf), c))
  {
    var k := ListedAt(full, ms, c);
    TopOfSorted(full, top, k);
  }

  lemma TopOfSorted(full: seq<CommandStats>, top: seq<CommandStats>, k: nat)
    requires SortedBy(full, MostRunsFirst) && top == Take(full, TOP) && k < |full|
    ensures |top| <= TOP && forall i, j :: 0 <= i < j < |top| ==> top[i].count >= top[j].count
    ensures Lists(top, full[k].command) || (|top| == TOP && forall i :: 0 <= i < TOP ==> top[i].count >= full[k].count)
  {
    assert forall i, j :: 0 <= i < j < |full| ==> MostRunsFirst(full[i]) <= MostRunsFirst(full[j]);
    if k < |top| {
      assert top[k].command == full[k].command;
    }
  }

  lemma ListedAt(full: seq<CommandStats>, ms: Metrics, c: string) returns (k: nat)
    requires CommandList(full, ms) && c in Names(ms, CommandOf)
    ensures k < |full| && full[k].command == c && full[k].count == CountOf(Names(ms, CommandOf), c)
  {
    var t :| Table(t, ms, CommandOf, CommandRecord) && Listing(full, t, CommandName);
    assert c in t;
    var v := t[c];
    assert v in full && CommandName(v) == c;
    k :| 0 <= k < |full| && full[k] == v;
    RecordsAreExact(full, ms, k);
  }

  /** The average duration shown for a command whose runs took no negative time is never too high, and
      n times it is too low by at most n (n - 1) / 2. */
  lemma CommandAverageDrift(c: string, own: Metrics)
    requires own != [] && forall i :: 0 <= i < |own| ==> own[i].metrics.seconds >= 0.0
    ensures var n, avg := |own|, CommandRecord(c, own).avgDuration;
      n * avg <= Sum(Durations(own)) <= n * avg + n * (n - 1) / 2
  {
    DriftBound(Durations(own));
  }
}
