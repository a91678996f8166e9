/** Admissions that register under the IDs of pkg/executor/executor.go:322, which name the resource,
    a Unix second and an index. Two plans of one second share them. */
module ExecutorIds {
  import opened GoNumbers
  import opened Filters
  import opened RateWindows
  import opened Diophantine
  import opened Scheduler
  import opened SchedulerRuns
  import opened RequestIds

  /** The fmt.Sprintf call that makes an ID. */
  type Render = (string, int, int) -> string

  /** The IDs of a plan. */
  function PlanIds(resource: string, start: int, n: nat, render: Render): (ids: seq<string>)
    ensures |ids| == n
  {
    seq(n, i => render(resource, start / SECOND, i))
  }

  function Batch(resource: string, start: int, offsets: seq<int>, render: Render): (plan: seq<Request>)
    ensures |plan| == |offsets|
  {
    PlannedRequests(resource, start, offsets, PlanIds(resource, start, |offsets|, render), HOUR)
  }

  method CreatePlannedRequests(resource: string, baseTime: int, offsets: seq<int>, render: Render)
      returns (requests: seq<Request>)
    ensures requests == Batch(resource, baseTime, offsets, render)
  {
    requests := [];
    for i := 0 to |offsets|
      invariant |requests| == i
      invariant requests == Batch(resource, baseTime, offsets, render)[..i]
    {
      requests := requests + [Request(render(resource, baseTime / SECOND, i), resource,
                                      baseTime + offsets[i], baseTime + offsets[i] + HOUR)];
    }
  }

  /** Different resources, seconds since 1970 or indices are rendered differently. */
  ghost predicate Distinguishes(render: Render) {
    forall r, s, i, r', s', i' ::
      0 <= s && 0 <= i && 0 <= s' && 0 <= i' && render(r, s, i) == render(r', s', i') ==> r == r' && s == s' && i == i'
  }

  /** The rendering in use does. */
  lemma RequestIdDistinguishes()
    ensures Distinguishes(RequestId)
  {
    forall r, s, i, r', s', i' | 0 <= s && 0 <= i && 0 <= s' && 0 <= i' && RequestId(r, s, i) == RequestId(r', s', i')
      ensures r == r' && s == s' && i == i'
    {
      RequestIdTellsApart(r, s, i, r', s', i');
    }
  }

  // ---- two plans ----

  /** How many entries of the second plan find their ID taken by the first. */
  function Taken(first: int, n: nat, second: int, m: nat): nat {
    if first / SECOND != second / SECOND then 0 else if n <= m then n else m
  }

  /** Of a second plan exactly the entries beyond the length of the first land when both start in the
      same second; so all of it is stored if and only if the seconds differ or a plan is empty. */
  lemma SecondPlanLands(table: Table, resource: string, first: int, one: seq<int>, second: int, two: seq<int>,
                        render: Render)
    requires Distinguishes(render) && first >= 0 && second >= 0
    requires Fresh(table, PlanIds(resource, first, |one|, render))
    requires Fresh(table, PlanIds(resource, second, |two|, render))
    ensures var b1, b2 := Batch(resource, first, one, render), Batch(resource, second, two, render);
      var stored := Stored(AddAll(AddAll(table, b1), b2), resource);
      && stored == Stored(table, resource) + b1 + b2[Taken(first, |one|, second, |two|)..]
      && (stored == Stored(table, resource) + b1 + b2
          <==> first / SECOND != second / SECOND || one == [] || two == [])
  {
    var b1, b2 := Batch(resource, first, one, render), Batch(resource, second, two, render);
    var t1, k := AddAll(table, b1), Taken(first, |one|, second, |two|);
    PlanLands(table, b1, resource);
    SameIds(resource, first, one, second, two, render);
    forall i | k <= i < |b2| ensures !HasId(t1, b2[i].id) {
      NotTaken(table, resource, first, one, second, two, render, i);
    }
    RestLands(t1, b2, k, resource);
    AppendedAll(Stored(table, resource) + b1, b2, k);
  }

  /** Entries with known IDs are ignored, the rest lands. */
  lemma RestLands(table: Table, plan: seq<Request>, k: nat, resource: string)
    requires k <= |plan| && forall i :: 0 <= i < |plan| ==> plan[i].resource == resource
    requires forall i :: 0 <= i < k ==> HasId(table, plan[i].id)
    requires forall i :: k <= i < |plan| ==> !HasId(table, plan[i].id)
    requires forall i, j :: 0 <= i < j < |plan| ==> plan[i].id != plan[j].id
    ensures Stored(AddAll(table, plan), resource) == Stored(table, resource) + plan[k..]
  {
    KnownThenFresh(table, plan[..k], plan[k..], resource);
    assert plan[..k] + plan[k..] == plan;
  }

  lemma KnownThenFresh(table: Table, known: seq<Request>, rest: seq<Request>, resource: string)
    requires forall i :: 0 <= i < |known| ==> HasId(table, known[i].id)
    requires forall i :: 0 <= i < |rest| ==> rest[i].resource == resource && !HasId(table, rest[i].id)
    requires forall i, j :: 0 <= i < j < |rest| ==> rest[i].id != rest[j].id
    ensures Stored(AddAll(table, known + rest), resource) == Stored(table, resource) + rest
  {
    KnownIdsAddNothing(table, known);
    AddAllConcat(table, known, rest);
    AddAllFresh(table, rest, resource, resource);
  }

  lemma AppendedAll(before: seq<Request>, plan: seq<Request>, k: nat)
    requires k <= |plan|
    ensures before + plan[k..] == before + plan <==> k == 0
  {
    assert |before + plan[k..]| == |before + plan| - k;
  }

  lemma PlanLands(table: Table, plan: seq<Request>, resource: string)
    requires forall i :: 0 <= i < |plan| ==> plan[i].resource == resource && !HasId(table, plan[i].id)
    requires forall i, j :: 0 <= i < j < |plan| ==> plan[i].id != plan[j].id
    ensures Stored(AddAll(table, plan), resource) == Stored(table, resource) + plan
    ensures forall i :: 0 <= i < |plan| ==> HasId(AddAll(table, plan), plan[i].id)
  {
    AddAllFresh(table, plan, resource, resource);
    var t := AddAll(table, plan);
    forall i | 0 <= i < |plan| ensures HasId(t, plan[i].id) {
      assert t[resource][|Stored(table, resource)| + i] == plan[i];
    }
  }

  lemma SameIds(resource: string, first: int, one: seq<int>, second: int, two: seq<int>, render: Render)
    ensures forall i :: 0 <= i < Taken(first, |one|, second, |two|) ==>
      Batch(resource, second, two, render)[i].id == Batch(resource, first, one, render)[i].id
  {
  }

  lemma NotTaken(table: Table, resource: string, first: int, one: seq<int>, second: int, two: seq<int>,
                 render: Render, i: nat)
    requires Distinguishes(render) && first >= 0 && second >= 0 && Taken(first, |one|, second, |two|) <= i < |two|
    requires Fresh(table, PlanIds(resource, second, |two|, render))
    ensures !HasId(AddAll(table, Batch(resource, first, one, render)), Batch(resource, second, two, render)[i].id)
  {
    var b1, id := Batch(resource, first, one, render), Batch(resource, second, two, render)[i].id;
    assert id == PlanIds(resource, second, |two|, render)[i];
    if HasId(AddAll(table, b1), id) { AddAllIds(table, b1, id); }
  }

  lemma {:induction false} AddAllConcat(table: Table, a: seq<Request>, b: seq<Request>)
    ensures AddAll(table, a + b) == AddAll(AddAll(table, a), b)
  {
    if b == [] {
      assert a + b == a;
    } else {
      assert (a + b)[..|a + b| - 1] == a + b[..|b| - 1];
      AddAllConcat(table, a, b[..|b| - 1]);
    }
  }

  lemma {:induction false} KnownIdsAddNothing(table: Table, plan: seq<Request>)
    requires forall i :: 0 <= i < |plan| ==> HasId(table, plan[i].id)
    ensures AddAll(table, plan) == table
  {
    if plan != [] { KnownIdsAddNothing(table, plan[..|plan| - 1]); }
  }

  // ---- whole runs ----

  /** An admission as the executor makes it. */
  function Issue(resource: string, st: Strategy, start: int, render: Render): Event {
    Admit(resource, st, start, PlanIds(resource, start, |st.retryOffsets|, render), HOUR)
  }

  /** Every admission is the executor's, made since 1970, and those on `resource` follow one strategy. */
  ghost predicate Issued(e: Event, resource: string, st: Strategy, render: Render) {
    e.Admit? ==>
      e.start >= 0 && e == Issue(e.resource, e.st, e.start, render) && (e.resource == resource ==> e.st == st)
  }

  ghost predicate IssuedRun(w: World, events: seq<Event>, resource: string, st: Strategy, render: Render)
    decreases |events|
  {
    events == [] || (Permitted(w, events[0]) && Issued(events[0], resource, st, render)
                     && IssuedRun(Apply(w, events[0]), events[1..], resource, st, render))
  }

  ghost function IssuedFinal(w: World, events: seq<Event>, resource: string, st: Strategy, render: Render): World
    requires IssuedRun(w, events, resource, st, render)
    decreases |events|
  {
    if events == [] then w else IssuedFinal(Apply(w, events[0]), events[1..], resource, st, render)
  }

  /** Everything ever admitted on the resource, in any run, respects the limit. */
  ghost predicate SafeAsIssued(resource: string, st: Strategy, render: Render, late: int) {
    forall begin, events :: IssuedRun(Init(begin, late), events, resource, st, render) ==>
      WithinLimit(Admitted(begin, late, events, resource, st, render), st.rateLimit, st.window)
  }

  /** The instants a run admits on the resource. */
  ghost function Admitted(begin: int, late: int, events: seq<Event>, resource: string, st: Strategy, render: Render)
      : seq<int>
    requires IssuedRun(Init(begin, late), events, resource, st, render)
  {
    TimesOn(IssuedFinal(Init(begin, late), events, resource, st, render).history, resource)
  }

  /** Two copies of the plan less than a second apart never fit the limit together. */
  ghost predicate NoRoomForTwo(st: Strategy) {
    forall gap :: 0 <= gap < SECOND ==>
      !WithinLimit(st.retryOffsets + Planned(st.retryOffsets, gap), st.rateLimit, st.window)
  }

  /** With the executor's IDs the limit is kept in every run exactly when a second plan of the same
      second is always refused; the lifetime of an hour has to cover the window and the lateness. */
  lemma SafeAsIssuedExactly(resource: string, st: Strategy, render: Render, late: int)
    requires Distinguishes(render) && st.rateLimit >= 0
    ensures SafeAsIssued(resource, st, render, late) ==> st.window <= 0 || st.retryOffsets == [] || NoRoomForTwo(st)
    ensures st.window + late <= HOUR ==>
      (SafeAsIssued(resource, st, render, late) <==> st.window <= 0 || st.retryOffsets == [] || NoRoomForTwo(st))
  {
    var o := st.retryOffsets;
    if st.window > 0 && o != [] && !NoRoomForTwo(st) {
      var gap :| 0 <= gap < SECOND && WithinLimit(o + Planned(o, gap), st.rateLimit, st.window);
      TooMany(resource, st, render, late, gap);
    } else if st.window + late <= HOUR {
      forall begin, events | IssuedRun(Init(begin, late), events, resource, st, render)
        ensures WithinLimit(Admitted(begin, late, events, resource, st, render), st.rateLimit, st.window)
      {
        if st.window <= 0 {
          EmptyWindow(Admitted(begin, late, events, resource, st, render), st.rateLimit, st.window);
        } else {
          SafeIssuedRun(Init(begin, late), events, resource, st, render);
        }
      }
    }
  }

  // ---- a second plan that is refused leaves every ID fresh ----

  /** A plan of this second has been admitted. */
  ghost predicate Seen(ever: seq<int>, offsets: seq<int>, second: int) {
    exists start :: start / SECOND == second && multiset(Planned(offsets, start)) <= multiset(ever)
  }

  ghost predicate Sourced(id: string, ever: seq<int>, resource: string, offsets: seq<int>, render: Render) {
    exists r, s, i :: 0 <= s && 0 <= i && id == render(r, s, i) && (r == resource ==> Seen(ever, offsets, s))
  }

  ghost predicate AllSourced(w: World, resource: string, st: Strategy, render: Render) {
    forall id :: HasId(w.table, id) ==>
        Sourced(id, TimesOn(w.history, resource), resource, st.retryOffsets, render)
  }

  lemma {:induction false} SafeIssuedRun(w: World, events: seq<Event>, resource: string, st: Strategy, render: Render)
    requires IssuedRun(w, events, resource, st, render) && Distinguishes(render) && st.window + w.late <= HOUR
    requires st.retryOffsets == [] || NoRoomForTwo(st)
    requires Safe(w, resource, st.rateLimit, st.window) && AllSourced(w, resource, st, render)
    ensures Safe(IssuedFinal(w, events, resource, st, render), resource, st.rateLimit, st.window)
    decreases |events|
  {
    if events != [] {
      var e := events[0];
      if e.Admit? && e.resource == resource { IssuedIsFresh(w, e, st, render); }
      SafeStep(w, e, resource, st.rateLimit, st.window);
      SourcedStep(w, e, resource, st, render);
      SafeIssuedRun(Apply(w, e), events[1..], resource, st, render);
    }
  }

  /** A taken ID would mean a yes to a second plan of the same second. */
  lemma IssuedIsFresh(w: World, e: Event, st: Strategy, render: Render)
    requires e.Admit? && Permitted(w, e) && Issued(e, e.resource, st, render) && Distinguishes(render)
    requires st.retryOffsets == [] || NoRoomForTwo(st)
    requires Safe(w, e.resource, st.rateLimit, st.window) && AllSourced(w, e.resource, st, render)
    ensures Fresh(w.table, e.ids)
  {
    var ever := TimesOn(w.history, e.resource);
    forall i | 0 <= i < |e.ids| ensures !HasId(w.table, e.ids[i]) {
      if HasId(w.table, e.ids[i]) {
        assert Sourced(e.ids[i], ever, e.resource, st.retryOffsets, render);
        assert Seen(ever, st.retryOffsets, e.start / SECOND);
        var other :| other / SECOND == e.start / SECOND && multiset(Planned(st.retryOffsets, other)) <= multiset(ever);
        AdmittedBesides(w, e, other);
        TwoCopies(st, other, e.start);
      }
    }
  }

  lemma AdmittedBesides(w: World, e: Event, other: int)
    requires e.Admit? && Permitted(w, e) && Safe(w, e.resource, e.st.rateLimit, e.st.window)
    requires multiset(Planned(e.st.retryOffsets, other)) <= multiset(TimesOn(w.history, e.resource))
    ensures WithinLimit(Planned(e.st.retryOffsets, other) + Planned(e.st.retryOffsets, e.start), e.st.rateLimit,
        e.st.window)
  {
    var ever, plan := TimesOn(w.history, e.resource), Planned(e.st.retryOffsets, e.start);
    forall t ensures InWindow(ever + plan, t, e.st.window) <= e.st.rateLimit {
      AdmittedWindow(ever, Stored(w.table, e.resource), w.now, w.late, e.st, e.start, t);
    }
    WithinLimitMonotone(Planned(e.st.retryOffsets, other) + plan, ever + plan, e.st.rateLimit, e.st.window);
  }

  /** Two copies that fit the limit fit it wherever they start, in either order. */
  lemma TwoCopies(st: Strategy, a: int, b: int)
    requires WithinLimit(Planned(st.retryOffsets, a) + Planned(st.retryOffsets, b), st.rateLimit, st.window)
    requires a / SECOND == b / SECOND
    ensures !NoRoomForTwo(st)
  {
    var one, two := Planned(st.retryOffsets, a), Planned(st.retryOffsets, b);
    SameSecond(a, b);
    if a <= b {
      ShiftedCopies(st, a, b - a);
    } else {
      WithinLimitMonotone(two + one, one + two, st.rateLimit, st.window);
      ShiftedCopies(st, b, a - b);
    }
  }

  lemma SameSecond(a: int, b: int)
    requires a / SECOND == b / SECOND
    ensures -SECOND < a - b < SECOND
  {
  }

  lemma ShiftedCopies(st: Strategy, a: int, gap: int)
    ensures WithinLimit(Planned(st.retryOffsets, a) + Planned(st.retryOffsets, a + gap), st.rateLimit, st.window)
       <==> WithinLimit(st.retryOffsets + Planned(st.retryOffsets, gap), st.rateLimit, st.window)
  {
    var pair := st.retryOffsets + Planned(st.retryOffsets, gap);
    assert Planned(pair, a) == Planned(st.retryOffsets, a) + Planned(st.retryOffsets, a + gap);
    PlanShift(pair, a, st.rateLimit, st.window);
  }

  lemma SourcedStep(w: World, e: Event, resource: string, st: Strategy, render: Render)
    requires Permitted(w, e) && Issued(e, resource, st, render) && AllSourced(w, resource, st, render)
    ensures AllSourced(Apply(w, e), resource, st, render)
  {
    match e
    case Tick(_) =>
    case Cleanup =>
      forall id | HasId(Cleaned(w.table, w.now), id) ensures HasId(w.table, id) { CleanedIds(w.table, w.now, id); }
    case Admit(_, _, _, _, _) =>
      var w' := Apply(w, e);
      forall id | HasId(w'.table, id)
        ensures Sourced(id, TimesOn(w'.history, resource), resource, st.retryOffsets, render)
      {
        SourcedAdmit(w, e, resource, st, render, id);
      }
  }

  lemma SourcedAdmit(w: World, e: Event, resource: string, st: Strategy, render: Render, id: string)
    requires e.Admit? && Permitted(w, e) && Issued(e, resource, st, render)
    requires HasId(w.table, id) ==> Sourced(id, TimesOn(w.history, resource), resource, st.retryOffsets, render)
    requires HasId(Apply(w, e).table, id)
    ensures Sourced(id, TimesOn(Apply(w, e).history, resource), resource, st.retryOffsets, render)
  {
    var plan := PlannedRequests(e.resource, e.start, e.st.retryOffsets, e.ids, e.lifetime);
    var more := if resource == e.resource then Planned(e.st.retryOffsets, e.start) else [];
    PlanTimes(w.history, plan, e.resource, e.start, e.st.retryOffsets, resource);
    AddAllIds(w.table, plan, id);
    if HasId(w.table, id) {
      SourcedGrows(id, TimesOn(w.history, resource), more, resource, st.retryOffsets, render);
    } else {
      var i :| 0 <= i < |plan| && plan[i].id == id;
      SourcedNow(e, i, TimesOn(w.history, resource), resource, st, render);
    }
  }

  lemma SourcedNow(e: Event, i: nat, ever: seq<int>, resource: string, st: Strategy, render: Render)
    requires e.Admit? && Issued(e, resource, st, render) && i < |e.ids|
    ensures var more := if resource == e.resource then Planned(e.st.retryOffsets, e.start) else [];
      Sourced(e.ids[i], ever + more, resource, st.retryOffsets, render)
  {
    assert e.ids[i] == render(e.resource, e.start / SECOND, i);
    if e.resource == resource {
      var plan := Planned(st.retryOffsets, e.start);
      assert multiset(plan) <= multiset(ever + plan);
      assert Seen(ever + plan, st.retryOffsets, e.start / SECOND);
    }
  }

  lemma SourcedGrows(id: string, ever: seq<int>, more: seq<int>, resource: string, offsets: seq<int>, render: Render)
    requires Sourced(id, ever, resource, offsets, render)
    ensures Sourced(id, ever + more, resource, offsets, render)
  {
    var r, s, i :| 0 <= s && 0 <= i && id == render(r, s, i) && (r == resource ==> Seen(ever, offsets, s));
    if r == resource {
      var start :| start / SECOND == s && multiset(Planned(offsets, start)) <= multiset(ever);
      assert multiset(ever) <= multiset(ever + more);
      assert Seen(ever + more, offsets, s);
    }
  }

  // ---- otherwise one second admits any number of plans ----

  function Copies(ts: seq<int>, n: nat): seq<int> {
    if n == 0 then [] else ts + Copies(ts, n - 1)
  }

  lemma {:induction false} CopiesCount(ts: seq<int>, n: nat, t: int, window: int)
    requires InWindow(ts, t, window) >= 1
    ensures InWindow(Copies(ts, n), t, window) >= n
  {
    if n > 0 {
      CopiesCount(ts, n - 1, t, window);
      InWindowConcat(ts, Copies(ts, n - 1), t, window);
    }
  }

  lemma TooMany(resource: string, st: Strategy, render: Render, late: int, gap: int)
    requires Distinguishes(render) && st.rateLimit >= 0 && st.window > 0 && st.retryOffsets != [] && 0 <= gap < SECOND
    requires WithinLimit(st.retryOffsets + Planned(st.retryOffsets, gap), st.rateLimit, st.window)
    ensures !SafeAsIssued(resource, st, render, late)
  {
    var n := st.rateLimit + 1;
    var events, base := OneSecondAdmitsAnyNumber(resource, st, render, late, gap, n);
    var first, plan := Planned(st.retryOffsets, base), Planned(st.retryOffsets, base + gap);
    assert InWindow(plan, plan[0], st.window) >= 1;
    CopiesCount(plan, n, plan[0], st.window);
    InWindowConcat(first, Copies(plan, n), plan[0], st.window);
    assert InWindow(Admitted(0, late, events, resource, st, render), plan[0], st.window) > st.rateLimit;
  }

  /** The first plan of a second is stored; every later one is checked against it alone, gets its
      yes, and is lost. */
  lemma OneSecondAdmitsAnyNumber(resource: string, st: Strategy, render: Render, late: int, gap: int, n: nat)
      returns (events: seq<Event>, base: int)
    requires Distinguishes(render) && 0 <= gap < SECOND
    requires WithinLimit(st.retryOffsets + Planned(st.retryOffsets, gap), st.rateLimit, st.window)
    ensures base / SECOND == (base + gap) / SECOND
    ensures IssuedRun(Init(0, late), events, resource, st, render)
    ensures Admitted(0, late, events, resource, st, render)
         == Planned(st.retryOffsets, base) + Copies(Planned(st.retryOffsets, base + gap), n)
  {
    var w1;
    base, w1 := FirstOfMany(resource, st, render, late, gap);
    events := FirstThenAgain(late, w1, resource, st, render, base, base + gap, n);
  }

  lemma FirstOfMany(resource: string, st: Strategy, render: Render, late: int, gap: int) returns (base: int, w: World)
    requires Distinguishes(render) && 0 <= gap < SECOND
    requires WithinLimit(st.retryOffsets + Planned(st.retryOffsets, gap), st.rateLimit, st.window)
    ensures base / SECOND == (base + gap) / SECOND
    ensures Follows(Init(0, late), w, resource, st, render, base) && Ready(w, resource, st, render, base, base + gap)
    ensures TimesOn(w.history, resource) == Planned(st.retryOffsets, base)
  {
    base := LateEnough(st.retryOffsets, late);
    WithinTheSecond(base, gap);
    w := FirstIsKept(resource, st, render, late, base, gap);
  }

  lemma FirstThenAgain(late: int, w: World, resource: string, st: Strategy, render: Render, first: int, again: int,
      n: nat)
      returns (events: seq<Event>)
    requires Follows(Init(0, late), w, resource, st, render, first) && Ready(w, resource, st, render, first, again)
    requires TimesOn(w.history, resource) == Planned(st.retryOffsets, first)
    ensures IssuedRun(Init(0, late), events, resource, st, render)
    ensures Admitted(0, late, events, resource, st, render)
         == Planned(st.retryOffsets, first) + Copies(Planned(st.retryOffsets, again), n)
  {
    var rest := AdmitAgain(w, resource, st, render, first, again, n);
    events := Prepend(Init(0, late), w, resource, st, render, first, rest);
  }

  /** A full second from which on the plan is in time and unexpired at clock 0. */
  lemma {:induction false} LateEnough(offsets: seq<int>, late: int) returns (base: int)
    ensures base >= 0 && base % SECOND == 0 && InTime(-late, base, offsets) && InTime(0, base, offsets)
  {
    base := 0;
    if offsets != [] {
      base := LateEnough(offsets[1..], late);
      var first := offsets[0];
      var more := (if first < 0 then -first else 0) + (if late < 0 then -late else 0);
      var next := base + more * SECOND;
      forall i | 0 <= i < |offsets| ensures -late <= next + offsets[i] && 0 <= next + offsets[i] {
        if i > 0 { assert offsets[i] == offsets[1..][i - 1]; }
      }
      base := next;
    }
  }

  /** The plan started at `first` is stored and active, and holds the IDs of another start that would
      get a yes besides it. */
  ghost predicate Ready(w: World, resource: string, st: Strategy, render: Render, first: int, again: int) {
    && again >= 0 && InTime(w.now - w.late, again, st.retryOffsets)
    && Times(Active(w.table, resource, w.now)) == Planned(st.retryOffsets, first)
    && WithinLimit(Planned(st.retryOffsets, first) + Planned(st.retryOffsets, again), st.rateLimit, st.window)
    && forall i :: 0 <= i < |st.retryOffsets| ==> HasId(w.table, render(resource, again / SECOND, i))
  }

  lemma FirstIsKept(resource: string, st: Strategy, render: Render, late: int, base: int, gap: int) returns (w: World)
    requires Distinguishes(render) && 0 <= gap < SECOND
    requires base >= 0 && base % SECOND == 0 && InTime(-late, base, st.retryOffsets) && InTime(0, base, st.retryOffsets)
    requires WithinLimit(st.retryOffsets + Planned(st.retryOffsets, gap), st.rateLimit, st.window)
    ensures Follows(Init(0, late), w, resource, st, render, base) && Ready(w, resource, st, render, base, base + gap)
    ensures TimesOn(w.history, resource) == Planned(st.retryOffsets, base)
  {
    RoomAt(st, base, gap);
    WithinTheSecond(base, gap);
    w := FirstWorld(resource, st, render, late, base);
  }

  lemma RoomAt(st: Strategy, base: int, gap: int)
    requires WithinLimit(st.retryOffsets + Planned(st.retryOffsets, gap), st.rateLimit, st.window)
    ensures WithinLimit(Planned(st.retryOffsets, base) + Planned(st.retryOffsets, base + gap), st.rateLimit, st.window)
    ensures WithinLimit(Planned(st.retryOffsets, base), st.rateLimit, st.window)
  {
    var first, again := Planned(st.retryOffsets, base), Planned(st.retryOffsets, base + gap);
    ShiftedCopies(st, base, gap);
    WithinLimitMonotone(first, first + again, st.rateLimit, st.window);
  }

  lemma FirstWorld(resource: string, st: Strategy, render: Render, late: int, base: int) returns (w: World)
    requires Distinguishes(render) && base >= 0
    requires InTime(-late, base, st.retryOffsets) && InTime(0, base, st.retryOffsets)
    requires WithinLimit(Planned(st.retryOffsets, base), st.rateLimit, st.window)
    ensures Follows(Init(0, late), w, resource, st, render, base) && w.now == 0 && w.late == late
    ensures Times(Active(w.table, resource, 0)) == Planned(st.retryOffsets, base)
    ensures forall i :: 0 <= i < |st.retryOffsets| ==> HasId(w.table, render(resource, base / SECOND, i))
    ensures TimesOn(w.history, resource) == Planned(st.retryOffsets, base)
  {
    FirstIsPermitted(resource, st, render, late, base);
    StoredFirst(resource, st.retryOffsets, render, base);
    TimesOfFirst(resource, st.retryOffsets, render, base);
    w := Apply(Init(0, late), Issue(resource, st, base, render));
  }

  lemma WithinTheSecond(base: int, gap: int)
    requires base % SECOND == 0 && 0 <= gap < SECOND
    ensures (base + gap) / SECOND == base / SECOND
  {
  }

  lemma FirstIsPermitted(resource: string, st: Strategy, render: Render, late: int, base: int)
    requires WithinLimit(Planned(st.retryOffsets, base), st.rateLimit, st.window)
    requires InTime(-late, base, st.retryOffsets)
    ensures Permitted(Init(0, late), Issue(resource, st, base, render))
  {
    assert Times(Active(map[], resource, 0)) + Planned(st.retryOffsets, base) == Planned(st.retryOffsets, base);
  }

  lemma TimesOfFirst(resource: string, offsets: seq<int>, render: Render, base: int)
    ensures TimesOn([] + Batch(resource, base, offsets, render), resource) == Planned(offsets, base)
  {
    PlanTimes([], Batch(resource, base, offsets, render), resource, base, offsets, resource);
    assert TimesOn([], resource) + Planned(offsets, base) == Planned(offsets, base);
  }

  lemma StoredFirst(resource: string, offsets: seq<int>, render: Render, base: int)
    requires Distinguishes(render) && base >= 0 && InTime(0, base, offsets)
    ensures var table := AddAll(map[], Batch(resource, base, offsets, render));
      && Times(Active(table, resource, 0)) == Planned(offsets, base)
      && forall i :: 0 <= i < |offsets| ==> HasId(table, render(resource, base / SECOND, i))
  {
    var plan := Batch(resource, base, offsets, render);
    forall i | 0 <= i < |plan|
      ensures plan[i].id == render(resource, base / SECOND, i) && !HasId(map[], plan[i].id) && plan[i].expiresAt > 0
    {
    }
    forall i, j | 0 <= i < j < |plan| ensures plan[i].id != plan[j].id {
    }
    OnlyPlan(plan, resource);
    assert Times(plan) == Planned(offsets, base);
  }

  lemma OnlyPlan(plan: seq<Request>, resource: string)
    requires forall i :: 0 <= i < |plan| ==> plan[i].resource == resource && plan[i].expiresAt > 0
    requires forall i, j :: 0 <= i < j < |plan| ==> plan[i].id != plan[j].id
    ensures Active(AddAll(map[], plan), resource, 0) == plan
    ensures forall i :: 0 <= i < |plan| ==> HasId(AddAll(map[], plan), plan[i].id)
  {
    PlanLands(map[], plan, resource);
    assert Stored(map[], resource) + plan == plan;
    FilterAll(plan, Unexpired(0));
  }

  lemma IssuedCons(w: World, e: Event, rest: seq<Event>, resource: string, st: Strategy, render: Render)
    requires Permitted(w, e) && Issued(e, resource, st, render) && IssuedRun(Apply(w, e), rest, resource, st, render)
    ensures IssuedRun(w, [e] + rest, resource, st, render)
    ensures IssuedFinal(w, [e] + rest, resource, st, render) == IssuedFinal(Apply(w, e), rest, resource, st, render)
  {
    assert ([e] + rest)[1..] == rest;
  }

  lemma {:induction false} AdmitAgain(w: World, resource: string, st: Strategy, render: Render, first: int, again: int,
                                      n: nat)
      returns (events: seq<Event>)
    requires Ready(w, resource, st, render, first, again)
    ensures IssuedRun(w, events, resource, st, render)
    ensures TimesOn(IssuedFinal(w, events, resource, st, render).history, resource)
         == TimesOn(w.history, resource) + Copies(Planned(st.retryOffsets, again), n)
    decreases n
  {
    if n == 0 {
      return [];
    }
    var w' := AgainStep(w, resource, st, render, first, again);
    var rest := AdmitAgain(w', resource, st, render, first, again, n - 1);
    OneMoreCopy(TimesOn(w.history, resource), Planned(st.retryOffsets, again), n);
    events := Prepend(w, w', resource, st, render, again, rest);
  }

  lemma OneMoreCopy(before: seq<int>, ts: seq<int>, n: nat)
    requires n > 0
    ensures before + ts + Copies(ts, n - 1) == before + Copies(ts, n)
  {
  }

  /** The world after the executor's admission at `start`. */
  ghost predicate Follows(w: World, w': World, resource: string, st: Strategy, render: Render, start: int) {
    var again := Issue(resource, st, start, render);
    start >= 0 && Permitted(w, again) && w' == Apply(w, again)
  }

  lemma Prepend(w: World, w': World, resource: string, st: Strategy, render: Render, start: int, rest: seq<Event>)
      returns (events: seq<Event>)
    requires Follows(w, w', resource, st, render, start) && IssuedRun(w', rest, resource, st, render)
    ensures IssuedRun(w, events, resource, st, render)
    ensures IssuedFinal(w, events, resource, st, render) == IssuedFinal(w', rest, resource, st, render)
  {
    IssuedCons(w, Issue(resource, st, start, render), rest, resource, st, render);
    events := [Issue(resource, st, start, render)] + rest;
  }

  lemma AgainStep(w: World, resource: string, st: Strategy, render: Render, first: int, again: int) returns (w': World)
    requires Ready(w, resource, st, render, first, again)
    ensures Follows(w, w', resource, st, render, again) && Ready(w', resource, st, render, first, again)
    ensures TimesOn(w'.history, resource) == TimesOn(w.history, resource) + Planned(st.retryOffsets, again)
  {
    var plan := Batch(resource, again, st.retryOffsets, render);
    assert forall i :: 0 <= i < |plan| ==> plan[i].id == render(resource, again / SECOND, i);
    KnownIdsAddNothing(w.table, plan);
    PlanTimes(w.history, plan, resource, again, st.retryOffsets, resource);
    w' := Apply(w, Issue(resource, st, again, render));
  }

  /** A plan of at most half the limit leaves room for a second one at once: so do the defaults of
      100 requests an hour and three attempts (cmd/patience/subcommands.go:1116-1118). */
  lemma HalfTheLimitLeavesRoom(st: Strategy)
    requires 2 * |st.retryOffsets| <= st.rateLimit
    ensures !NoRoomForTwo(st)
  {
    var pair := st.retryOffsets + Planned(st.retryOffsets, 0);
    forall t ensures InWindow(pair, t, st.window) <= st.rateLimit { InWindowAtMostAll(pair, t, st.window); }
  }

  // ---- plans that fire all at once, for every window ----

  /** When all offsets are equal the condition is exact for every window: the limit is kept in all runs
      if and only if no plan gets in, or a second plan of the same second is always refused and the
      lifetime of an hour covers the window and the lateness. */
  lemma EqualOffsetsSafeExactly(resource: string, st: Strategy, render: Render, late: int, offset: int)
    requires Distinguishes(render) && st.rateLimit >= 0
    requires forall i :: 0 <= i < |st.retryOffsets| ==> st.retryOffsets[i] == offset
    ensures SafeAsIssued(resource, st, render, late)
       <==> st.window <= 0 || st.retryOffsets == [] || |st.retryOffsets| > st.rateLimit
            || (NoRoomForTwo(st) && st.window + late <= HOUR)
  {
    SafeAsIssuedExactly(resource, st, render, late);
    if st.window <= 0 || st.retryOffsets == [] || |st.retryOffsets| > st.rateLimit {
      forall begin, events | IssuedRun(Init(begin, late), events, resource, st, render)
        ensures WithinLimit(Admitted(begin, late, events, resource, st, render), st.rateLimit, st.window)
      {
        if st.window <= 0 {
          EmptyWindow(Admitted(begin, late, events, resource, st, render), st.rateLimit, st.window);
        } else {
          NothingGetsIn(Init(begin, late), events, resource, st, render, offset);
        }
      }
    } else if NoRoomForTwo(st) && st.window + late > HOUR {
      if 2 * |st.retryOffsets| <= st.rateLimit { HalfTheLimitLeavesRoom(st); }
      SecondBurstAfterAnHour(resource, st, render, late, offset);
    }
  }

  lemma {:induction false} NothingGetsIn(w: World, events: seq<Event>, resource: string, st: Strategy, render: Render,
                                         offset: int)
    requires IssuedRun(w, events, resource, st, render) && TimesOn(w.history, resource) == []
    requires forall i :: 0 <= i < |st.retryOffsets| ==> st.retryOffsets[i] == offset
    requires st.retryOffsets == [] || (0 < st.window && |st.retryOffsets| > st.rateLimit)
    ensures TimesOn(IssuedFinal(w, events, resource, st, render).history, resource) == []
    decreases |events|
  {
    if events != [] {
      var e := events[0];
      if e.Admit? {
        var plan := PlannedRequests(e.resource, e.start, e.st.retryOffsets, e.ids, e.lifetime);
        PlanTimes(w.history, plan, e.resource, e.start, e.st.retryOffsets, resource);
        if e.resource == resource && st.retryOffsets != [] {
          TooBigToAdmit(st, Times(Active(w.table, resource, w.now)), e.start, offset);
        }
      }
      NothingGetsIn(Apply(w, e), events[1..], resource, st, render, offset);
    }
  }

  lemma TooBigToAdmit(st: Strategy, existing: seq<int>, start: int, offset: int)
    requires st.retryOffsets != [] && 0 < st.window && |st.retryOffsets| > st.rateLimit
    requires forall i :: 0 <= i < |st.retryOffsets| ==> st.retryOffsets[i] == offset
    ensures !st.Admits(existing, start)
  {
    var plan := Planned(st.retryOffsets, start);
    InWindowConcat(existing, plan, start + offset, st.window);
    InWindowAll(plan, start + offset, st.window);
    assert InWindow(existing + plan, start + offset, st.window) > st.rateLimit;
  }

  lemma SecondBurstAfterAnHour(resource: string, st: Strategy, render: Render, late: int, offset: int)
    requires Distinguishes(render) && 0 < st.window && st.window + late > HOUR
    requires |st.retryOffsets| <= st.rateLimit < 2 * |st.retryOffsets|
    requires forall i :: 0 <= i < |st.retryOffsets| ==> st.retryOffsets[i] == offset
    ensures !SafeAsIssued(resource, st, render, late)
  {
    var first := LateEnough(st.retryOffsets, late);
    assert st.retryOffsets[0] == offset;
    var second, later := if late < HOUR then first + HOUR - late else first, first + offset + HOUR;
    var a, d := Issue(resource, st, first, render), Issue(resource, st, second, render);
    IssuedBursts(late, a, later, d, offset, render);
  }

  lemma IssuedBursts(late: int, a: Event, later: int, d: Event, offset: int, render: Render)
    requires a.Admit? && d.Admit? && Issued(a, a.resource, a.st, render) && Issued(d, a.resource, a.st, render)
    requires a.resource == d.resource && Distinguishes(render)
    requires |a.st.retryOffsets| <= a.st.rateLimit < 2 * |a.st.retryOffsets|
    requires forall i :: 0 <= i < |a.st.retryOffsets| ==> a.st.retryOffsets[i] == offset
    requires -late <= a.start + offset && 0 <= later && a.start + offset + HOUR <= later
    requires later - late <= d.start + offset && a.start <= d.start < a.start + a.st.window
    ensures !SafeAsIssued(a.resource, a.st, render, late)
  {
    assert TwoBursts(0, late, a, later, d, offset);
    TwoBurstsAreLegal(0, late, a, later, d, offset);
    TwoBurstsCollide(0, late, a, later, d, offset);
    IssuedFour(Init(0, late), a, later, d, render);
    var events := [a, Tick(later), Cleanup, d];
    assert !WithinLimit(Admitted(0, late, events, a.resource, a.st, render), a.st.rateLimit, a.st.window);
  }

  lemma IssuedFour(w: World, a: Event, later: int, d: Event, render: Render)
    requires a.Admit? && d.Admit? && Issued(a, a.resource, a.st, render) && Issued(d, a.resource, a.st, render)
    requires Permitted(w, a) && Permitted(Apply(w, a), Tick(later))
    requires Permitted(Apply(Apply(Apply(w, a), Tick(later)), Cleanup), d)
    ensures var events := [a, Tick(later), Cleanup, d];
      && IssuedRun(w, events, a.resource, a.st, render)
      && IssuedFinal(w, events, a.resource, a.st, render)
         == Apply(Apply(Apply(Apply(w, a), Tick(later)), Cleanup), d)
  {
    var b, c := Tick(later), Cleanup;
    var w1, w2, w3 := Apply(w, a), Apply(Apply(w, a), b), Apply(Apply(Apply(w, a), b), c);
    IssuedCons(w3, d, [], a.resource, a.st, render);
    IssuedCons(w2, c, [d], a.resource, a.st, render);
    IssuedCons(w1, b, [c, d], a.resource, a.st, render);
    IssuedCons(w, a, [b, c, d], a.resource, a.st, render);
    assert [a] + [b, c, d] == [a, b, c, d] && [b] + [c, d] == [b, c, d] && [c] + [d] == [c, d] && [d] + [] == [d];
  }
}
