/** Whole runs of the request table: the clock advances, expired requests are cleaned up at
    arbitrary moments, and a plan is admitted by asking CanScheduleWithStrategy and, on a yes,
    registering every planned request before any other admission. */
module SchedulerRuns {
  import opened Filters
  import opened RateWindows
  import opened Diophantine
  import opened Scheduler

  /** The entries an admitted plan registers. */
  function PlannedRequests(resource: string, start: int, offsets: seq<int>, ids: seq<string>,
      lifetime: int): (r: seq<Request>)
    requires |ids| == |offsets|
    ensures |r| == |offsets|
  {
    seq(|offsets|, i requires 0 <= i < |offsets| =>
      Request(ids[i], resource, start + offsets[i], start + offsets[i] + lifetime))
  }

  /** Registering a plan one AddRequest at a time. */
  ghost function AddAll(table: Table, reqs: seq<Request>): Table {
    if reqs == [] then table
    else Added(AddAll(table, reqs[..|reqs| - 1]), reqs[|reqs| - 1])
  }

  ghost predicate Fresh(table: Table, ids: seq<string>) {
    && (forall i :: 0 <= i < |ids| ==> !HasId(table, ids[i]))
    && (forall i, j :: 0 <= i < j < |ids| ==> ids[i] != ids[j])
  }

  datatype Event =
    | Tick(to: int)
    | Cleanup
    | Admit(resource: string, st: Strategy, start: int, ids: seq<string>, lifetime: int)

  /** `history` keeps every request ever registered, also after it expired and was cleaned up. `late`
      never changes: it bounds by how much a planned request may be due before the clock reading of its
      check. The caller reads its own clock first (pkg/executor/executor.go:243), so with offsets that
      are not negative it is the time the question takes to arrive; a plan whose first offset is
      positive makes it smaller, even negative. */
  datatype World = World(table: Table, now: int, history: seq<Request>, late: int)

  function Init(now: int, late: int): World { World(map[], now, [], late) }

  /** No planned request is due before `earliest`. */
  ghost predicate InTime(earliest: int, start: int, offsets: seq<int>) {
    forall i :: 0 <= i < |offsets| ==> earliest <= start + offsets[i]
  }

  /** The clock does not go back, and a plan is admitted only after a yes. */
  ghost predicate Permitted(w: World, e: Event) {
    match e
    case Tick(to) => w.now <= to
    case Cleanup => true
    case Admit(resource, st, start, ids, _) =>
      && InTime(w.now - w.late, start, st.retryOffsets)
      && |ids| == |st.retryOffsets|
      && st.Admits(Times(Active(w.table, resource, w.now)), start)
  }

  ghost predicate Legal(w: World, e: Event) {
    Permitted(w, e) && (e.Admit? ==> Fresh(w.table, e.ids))
  }

  /** As Legal, but IDs matter only on this resource. */
  ghost predicate LegalOn(w: World, e: Event, resource: string) {
    Permitted(w, e) && (e.Admit? && e.resource == resource ==> Fresh(w.table, e.ids))
  }

  ghost function Apply(w: World, e: Event): World
    requires Permitted(w, e)
  {
    match e
    case Tick(to) => w.(now := to)
    case Cleanup => w.(table := Cleaned(w.table, w.now))
    case Admit(resource, st, start, ids, lifetime) =>
      var plan := PlannedRequests(resource, start, st.retryOffsets, ids, lifetime);
      World(AddAll(w.table, plan), w.now, w.history + plan, w.late)
  }

  ghost predicate Run(w: World, events: seq<Event>)
    decreases |events|
  {
    events == [] || (Legal(w, events[0]) && Run(Apply(w, events[0]), events[1..]))
  }

  ghost function Final(w: World, events: seq<Event>): World
    requires Run(w, events)
    decreases |events|
  {
    if events == [] then w else Final(Apply(w, events[0]), events[1..])
  }

  /** The instants registered on one resource, in order. */
  ghost function TimesOn(history: seq<Request>, resource: string): seq<int> {
    if history == [] then []
    else
      var last := history[|history| - 1];
      TimesOn(history[..|history| - 1], resource) + if last.resource == resource then [last.scheduledAt] else []
  }

  /** Admissions on `resource` share one limit and window, and registrations outlive the window by the
      lateness. */
  ghost predicate Shared(events: seq<Event>, resource: string, limit: int, window: int, late: int) {
    forall e :: e in events && e.Admit? && e.resource == resource ==>
      e.st.rateLimit == limit && e.st.window == window && e.lifetime >= window + late
  }

  /** Safety despite forgetting: whatever was cleaned up, every window over everything ever
      registered on the resource respects the limit. */
  lemma RateLimitHolds(start: int, late: int, events: seq<Event>, resource: string, limit: nat, window: int)
    requires Run(Init(start, late), events) && Shared(events, resource, limit, window, late)
    ensures WithinLimit(TimesOn(Final(Init(start, late), events).history, resource), limit, window)
  {
    SafeRun(Init(start, late), events, resource, limit, window);
  }

  /** What every step keeps: the limit itself; stored entries outlive the window by the lateness; and
      a window that reaches an instant still to be planned sees the stored entries exactly as it sees
      the history. */
  ghost predicate Safe(w: World, resource: string, limit: int, window: int) {
    SafeLists(TimesOn(w.history, resource), Stored(w.table, resource), w.now, w.late, limit, window)
  }

  ghost predicate SafeLists(ever: seq<int>, stored: seq<Request>, now: int, late: int, limit: int, window: int) {
    && WithinLimit(ever, limit, window)
    && (forall q :: q in stored ==> q.expiresAt >= q.scheduledAt + window + late)
    && (forall t :: now - late < t + window ==> InWindow(ever, t, window) == InWindow(Times(stored), t, window))
  }

  lemma {:induction false} SafeRun(w: World, events: seq<Event>, resource: string, limit: int, window: int)
    requires Run(w, events) && Shared(events, resource, limit, window, w.late) && Safe(w, resource, limit, window)
    ensures Safe(Final(w, events), resource, limit, window)
    decreases |events|
  {
    if events != [] {
      SafeStep(w, events[0], resource, limit, window);
      SafeRun(Apply(w, events[0]), events[1..], resource, limit, window);
    }
  }

  lemma SafeStep(w: World, e: Event, resource: string, limit: int, window: int)
    requires LegalOn(w, e, resource) && Safe(w, resource, limit, window)
    requires Shared([e], resource, limit, window, w.late)
    ensures Safe(Apply(w, e), resource, limit, window)
  {
    assert e in [e];
    match e
    case Tick(_) =>
    case Cleanup => CleanupKeepsSafe(w, resource, limit, window);
    case Admit(_, _, _, _, _) => AdmitKeepsSafe(w, e, resource, limit, window);
  }

  lemma CleanupKeepsSafe(w: World, resource: string, limit: int, window: int)
    requires Safe(w, resource, limit, window)
    ensures Safe(Apply(w, Cleanup), resource, limit, window)
  {
    var rs := Stored(w.table, resource);
    assert Stored(Cleaned(w.table, w.now), resource) == Alive(rs, w.now);
    AliveIsSub(rs, w.now);
    forall t | w.now - w.late < t + window
      ensures InWindow(Times(Alive(rs, w.now)), t, window) == InWindow(Times(rs), t, window)
    {
      ForgettingIsHarmless(rs, w.now, w.late, t, window);
    }
  }

  /** An expired entry lies a window and the lateness before the clock, out of reach of the windows a
      new request can enter. */
  lemma {:induction false} ForgettingIsHarmless(rs: seq<Request>, now: int, late: int, t: int, window: int)
    requires forall q :: q in rs ==> q.expiresAt >= q.scheduledAt + window + late
    requires now - late < t + window
    ensures InWindow(Times(Alive(rs, now)), t, window) == InWindow(Times(rs), t, window)
  {
    if rs != [] {
      var init, last := rs[..|rs| - 1], rs[|rs| - 1];
      var kept := if last.expiresAt > now then [last] else [];
      assert rs == init + [last];
      ForgettingIsHarmless(init, now, late, t, window);
      TimesConcat(init, [last]);
      TimesConcat(Alive(init, now), kept);
      InWindowConcat(Times(init), Times([last]), t, window);
      InWindowConcat(Times(Alive(init, now)), Times(kept), t, window);
      assert last in rs;
      assert Times([last])[1..] == [];
    }
  }

  lemma AdmitKeepsSafe(w: World, e: Event, resource: string, limit: int, window: int)
    requires e.Admit? && LegalOn(w, e, resource) && Safe(w, resource, limit, window)
    requires Shared([e], resource, limit, window, w.late)
    ensures Safe(Apply(w, e), resource, limit, window)
  {
    assert e in [e];
    AdmitEffect(w, e, resource);
    if e.resource != resource {
      var w' := Apply(w, e);
      assert TimesOn(w'.history, resource) == TimesOn(w.history, resource);
      assert Stored(w'.table, resource) == Stored(w.table, resource);
    } else {
      AdmittedLists(TimesOn(w.history, resource), Stored(w.table, resource), w.now, w.late, e.st, e.start, e.ids,
                    resource, e.lifetime);
    }
  }

  /** An admission appends the same entries to the history and to the stored requests. */
  lemma AdmitEffect(w: World, e: Event, resource: string)
    requires e.Admit? && LegalOn(w, e, resource)
    ensures var w', plan := Apply(w, e), PlannedRequests(e.resource, e.start, e.st.retryOffsets, e.ids, e.lifetime);
      && w'.now == w.now && w'.late == w.late
      && TimesOn(w'.history, resource)
         == TimesOn(w.history, resource) + (if resource == e.resource then Planned(e.st.retryOffsets, e.start) else [])
      && Stored(w'.table, resource) == Stored(w.table, resource) + (if resource == e.resource then plan else [])
  {
    var plan := PlannedRequests(e.resource, e.start, e.st.retryOffsets, e.ids, e.lifetime);
    StoredAfter(w.table, plan, e.resource, e.ids, resource);
    PlanTimes(w.history, plan, e.resource, e.start, e.st.retryOffsets, resource);
  }

  lemma StoredAfter(table: Table, plan: seq<Request>, target: string, ids: seq<string>, resource: string)
    requires |plan| == |ids| && (resource == target ==> Fresh(table, ids))
    requires forall i :: 0 <= i < |plan| ==> plan[i].resource == target && plan[i].id == ids[i]
    ensures Stored(AddAll(table, plan), resource) == Stored(table, resource) + if resource == target then plan else []
  {
    if resource == target {
      AddAllFresh(table, plan, target, resource);
    } else {
      AddAllElsewhere(table, plan, resource);
    }
  }

  lemma PlanTimes(history: seq<Request>, plan: seq<Request>, target: string, start: int, offsets: seq<int>,
      resource: string)
    requires |plan| == |offsets|
    requires forall i :: 0 <= i < |plan| ==> plan[i].resource == target && plan[i].scheduledAt == start + offsets[i]
    ensures TimesOn(history + plan, resource)
         == TimesOn(history, resource) + if resource == target then Planned(offsets, start) else []
  {
    TimesOnConcat(history, plan, resource);
    if resource == target {
      TimesOnSame(plan, resource);
      assert Times(plan) == Planned(offsets, start);
    } else {
      TimesOnOther(plan, resource);
    }
  }

  lemma AdmittedLists(ever: seq<int>, stored: seq<Request>, now: int, late: int, st: Strategy, start: int,
                      ids: seq<string>, resource: string, lifetime: int)
    requires SafeLists(ever, stored, now, late, st.rateLimit, st.window)
    requires InTime(now - late, start, st.retryOffsets) && st.Admits(Times(Alive(stored, now)), start)
    requires lifetime >= st.window + late && |ids| == |st.retryOffsets|
    ensures SafeLists(ever + Planned(st.retryOffsets, start),
                      stored + PlannedRequests(resource, start, st.retryOffsets, ids, lifetime),
                      now, late, st.rateLimit, st.window)
  {
    var times := Planned(st.retryOffsets, start);
    var plan := PlannedRequests(resource, start, st.retryOffsets, ids, lifetime);
    assert Times(plan) == times;
    TimesConcat(stored, plan);
    forall t ensures InWindow(ever + times, t, st.window) <= st.rateLimit {
      AdmittedWindow(ever, stored, now, late, st, start, t);
    }
    forall t | now - late < t + st.window
      ensures InWindow(ever + times, t, st.window) == InWindow(Times(stored + plan), t, st.window)
    {
      InWindowConcat(ever, times, t, st.window);
      InWindowConcat(Times(stored), times, t, st.window);
    }
  }

  /** A window the plan can enter sees only requests the check saw; any other window is as before. */
  lemma AdmittedWindow(ever: seq<int>, stored: seq<Request>, now: int, late: int, st: Strategy, start: int, t: int)
    requires SafeLists(ever, stored, now, late, st.rateLimit, st.window)
    requires InTime(now - late, start, st.retryOffsets)
    requires st.Admits(Times(Alive(stored, now)), start)
    ensures InWindow(ever + Planned(st.retryOffsets, start), t, st.window) <= st.rateLimit
  {
    var times, active := Planned(st.retryOffsets, start), Times(Alive(stored, now));
    InWindowConcat(ever, times, t, st.window);
    assert InWindow(ever, t, st.window) <= st.rateLimit;
    if t + st.window <= now - late {
      InWindowNone(times, t, st.window);
    } else {
      ForgettingIsHarmless(stored, now, late, t, st.window);
      InWindowConcat(active, times, t, st.window);
      assert active + times != [] ==> InWindow(active + times, t, st.window) <= st.rateLimit;
    }
  }

  lemma HasIdAfterRegister(table: Table, req: Request, id: string)
    ensures HasId(Register(table, req), id) <==> HasId(table, id) || req.id == id
  {
    var t' := Register(table, req);
    if HasId(table, id) {
      var r, i :| r in table && 0 <= i < |table[r]| && table[r][i].id == id;
      assert r in t' && i < |t'[r]| && t'[r][i] == table[r][i];
    }
    if req.id == id {
      var n := |Stored(table, req.resource)|;
      assert t'[req.resource][n].id == id;
    }
    if HasId(t', id) && req.id != id {
      var r, i :| r in t' && 0 <= i < |t'[r]| && t'[r][i].id == id;
      assert r in table && i < |table[r]| && table[r][i].id == id;
    }
  }

  lemma {:induction false} AddAllIds(table: Table, plan: seq<Request>, id: string)
    requires HasId(AddAll(table, plan), id)
    ensures HasId(table, id) || exists i :: 0 <= i < |plan| && plan[i].id == id
  {
    if plan != [] {
      var init, last := plan[..|plan| - 1], plan[|plan| - 1];
      HasIdAfterRegister(AddAll(table, init), last, id);
      if last.id == id {
        assert plan[|plan| - 1].id == id;
      } else {
        AddAllIds(table, init, id);
      }
    }
  }

  lemma {:induction false} AddAllElsewhere(table: Table, plan: seq<Request>, resource: string)
    requires forall i :: 0 <= i < |plan| ==> plan[i].resource != resource
    ensures Stored(AddAll(table, plan), resource) == Stored(table, resource)
  {
    if plan != [] { AddAllElsewhere(table, plan[..|plan| - 1], resource); }
  }

  /** Fresh IDs get through: the whole plan lands, in order, on its own resource. */
  lemma {:induction false} AddAllFresh(table: Table, plan: seq<Request>, target: string, resource: string)
    requires forall i :: 0 <= i < |plan| ==> plan[i].resource == target && !HasId(table, plan[i].id)
    requires forall i, j :: 0 <= i < j < |plan| ==> plan[i].id != plan[j].id
    ensures Stored(AddAll(table, plan), resource) == Stored(table, resource) + if resource == target then plan else []
  {
    if plan != [] {
      var init, last := plan[..|plan| - 1], plan[|plan| - 1];
      assert plan == init + [last];
      AddAllFresh(table, init, target, resource);
      if HasId(AddAll(table, init), last.id) {
        AddAllIds(table, init, last.id);
      }
    }
  }

  lemma {:induction false} TimesOnConcat(a: seq<Request>, b: seq<Request>, resource: string)
    ensures TimesOn(a + b, resource) == TimesOn(a, resource) + TimesOn(b, resource)
  {
    if b == [] {
      assert a + b == a;
    } else {
      assert (a + b)[..|a + b| - 1] == a + b[..|b| - 1];
      TimesOnConcat(a, b[..|b| - 1], resource);
    }
  }

  lemma {:induction false} TimesOnSame(rs: seq<Request>, resource: string)
    requires forall q :: q in rs ==> q.resource == resource
    ensures TimesOn(rs, resource) == Times(rs)
  {
    if rs != [] {
      TimesOnSame(rs[..|rs| - 1], resource);
      assert rs[|rs| - 1] in rs;
    }
  }

  lemma {:induction false} TimesOnOther(rs: seq<Request>, resource: string)
    requires forall q :: q in rs ==> q.resource != resource
    ensures TimesOn(rs, resource) == []
  {
    if rs != [] {
      TimesOnOther(rs[..|rs| - 1], resource);
      assert rs[|rs| - 1] in rs;
    }
  }

  // ---- the condition on lifetimes is exact ----

  ghost predicate Uniform(events: seq<Event>, resource: string, limit: int, window: int, lifetime: int) {
    forall e :: e in events && e.Admit? && e.resource == resource ==>
      e.st.rateLimit == limit && e.st.window == window && e.lifetime == lifetime
  }

  ghost predicate AlwaysSafe(resource: string, limit: int, window: int, lifetime: int, late: int) {
    forall start, events :: Run(Init(start, late), events) && Uniform(events, resource, limit, window, lifetime) ==>
      WithinLimit(TimesOn(Final(Init(start, late), events).history, resource), limit, window)
  }

  /** Every run respects the limit exactly when registrations outlive the window by the lateness,
      apart from the two cases where there is nothing to forget. */
  lemma SafeExactlyWhenLifetimeCoversWindow(resource: string, limit: nat, window: int, lifetime: int, late: int)
    ensures AlwaysSafe(resource, limit, window, lifetime, late)
       <==> lifetime >= window + late || limit == 0 || window <= 0
  {
    if lifetime >= window + late || limit == 0 || window <= 0 {
      forall start, events | Run(Init(start, late), events) && Uniform(events, resource, limit, window, lifetime)
        ensures WithinLimit(TimesOn(Final(Init(start, late), events).history, resource), limit, window)
      {
        if lifetime >= window + late {
          RateLimitHolds(start, late, events, resource, limit, window);
        } else if window <= 0 {
          EmptyWindow(TimesOn(Final(Init(start, late), events).history, resource), limit, window);
        } else {
          NothingAdmitted(Init(start, late), events, resource, window);
        }
      }
    } else {
      ForgettingTooEarly(resource, limit, window, lifetime, late);
    }
  }

  lemma EmptyWindow(ts: seq<int>, limit: nat, window: int)
    requires window <= 0
    ensures WithinLimit(ts, limit, window)
  {
    forall t ensures InWindow(ts, t, window) <= limit { InWindowNone(ts, t, window); }
  }

  lemma {:induction false} NothingAdmitted(w: World, events: seq<Event>, resource: string, window: int)
    requires Run(w, events) && 0 < window && TimesOn(w.history, resource) == []
    requires forall e :: e in events && e.Admit? && e.resource == resource ==>
        e.st.rateLimit == 0 && e.st.window == window
    ensures TimesOn(Final(w, events).history, resource) == []
    decreases |events|
  {
    if events != [] {
      var e := events[0];
      if e.Admit? {
        AdmitEffect(w, e, resource);
        if e.resource == resource && e.st.retryOffsets != [] {
          ZeroLimitAdmitsNothing(Times(Active(w.table, resource, w.now)) + Planned(e.st.retryOffsets, e.start), window);
        }
      }
      NothingAdmitted(Apply(w, e), events[1..], resource, window);
    }
  }

  lemma ZeroLimitAdmitsNothing(ts: seq<int>, window: int)
    requires ts != [] && 0 < window
    ensures !WithinLimit(ts, 0, window)
  {
    assert InWindow(ts, ts[0], window) >= 1;
  }

  lemma {:induction false} InWindowAtMostAll(ts: seq<int>, t: int, window: int)
    ensures InWindow(ts, t, window) <= |ts|
  {
    if ts != [] { InWindowAtMostAll(ts[1..], t, window); }
  }

  /** A full burst, a wait until it is forgotten, a second full burst: one window holds both. */
  lemma ForgettingTooEarly(resource: string, limit: nat, window: int, lifetime: int, late: int)
    requires lifetime < window + late && limit > 0 && window > 0
    ensures !AlwaysSafe(resource, limit, window, lifetime, late)
  {
    var begin := if late < 0 then late else 0;
    var later := if lifetime > begin then lifetime else begin;
    var second := if later - late > 0 then later - late else 0;
    var st, ids := Strategy(limit, window, seq(limit, _ => 0)), LengthIds(limit);
    var a, d := Admit(resource, st, 0, ids, lifetime), Admit(resource, st, second, ids, lifetime);
    TwoBurstsBreak(begin, late, a, later, d, 0);
  }

  lemma TwoBurstsBreak(begin: int, late: int, a: Event, later: int, d: Event, offset: int)
    requires TwoBursts(begin, late, a, later, d, offset) && a.lifetime == d.lifetime
    requires a.start <= d.start < a.start + a.st.window && a.st.rateLimit < 2 * |a.st.retryOffsets|
    ensures !AlwaysSafe(a.resource, a.st.rateLimit, a.st.window, a.lifetime, late)
  {
    TwoBurstsAreLegal(begin, late, a, later, d, offset);
    TwoBurstsCollide(begin, late, a, later, d, offset);
    BrokenByFour(begin, late, a, later, d, a.resource, a.st.rateLimit, a.st.window, a.lifetime);
  }

  lemma BrokenByFour(begin: int, late: int, a: Event, later: int, d: Event,
                     resource: string, limit: int, window: int, lifetime: int)
    requires var w := Init(begin, late);
      && Legal(w, a) && Legal(Apply(w, a), Tick(later))
      && Legal(Apply(Apply(Apply(w, a), Tick(later)), Cleanup), d)
    requires Uniform([a], resource, limit, window, lifetime) && Uniform([d], resource, limit, window, lifetime)
    requires var w3 := Apply(Apply(Apply(Init(begin, late), a), Tick(later)), Cleanup);
      !WithinLimit(TimesOn(Apply(w3, d).history, resource), limit, window)
    ensures !AlwaysSafe(resource, limit, window, lifetime, late)
  {
    var events := [a, Tick(later), Cleanup, d];
    RunFour(Init(begin, late), a, Tick(later), Cleanup, d);
    assert a in [a] && d in [d];
    assert Run(Init(begin, late), events) && Uniform(events, resource, limit, window, lifetime);
  }

  /** As many distinct IDs as wanted. */
  ghost function LengthIds(n: nat): (ids: seq<string>)
    ensures |ids| == n && Fresh(map[], ids)
  {
    var ids := seq(n, i requires 0 <= i => seq(i, _ => 'x'));
    assert forall i, j :: 0 <= i < j < |ids| ==> |ids[i]| < |ids[j]|;
    ids
  }

  /** Two bursts of one strategy, all requests due at once; the first has expired before the second
      is asked for. */
  ghost predicate TwoBursts(begin: int, late: int, a: Event, later: int, d: Event, offset: int) {
    && a.Admit? && d.Admit? && a.resource == d.resource && a.st == d.st
    && |a.ids| == |d.ids| == |a.st.retryOffsets| <= a.st.rateLimit
    && (forall i :: 0 <= i < |a.ids| ==> a.st.retryOffsets[i] == offset)
    && (forall i, j :: 0 <= i < j < |a.ids| ==> a.ids[i] != a.ids[j] && d.ids[i] != d.ids[j])
    && begin - late <= a.start + offset && begin <= later && a.start + offset + a.lifetime <= later
    && later - late <= d.start + offset
  }

  lemma TwoBurstsAreLegal(begin: int, late: int, a: Event, later: int, d: Event, offset: int)
    requires TwoBursts(begin, late, a, later, d, offset)
    ensures var w := Init(begin, late);
      && Legal(w, a) && Legal(Apply(w, a), Tick(later))
      && Legal(Apply(Apply(Apply(w, a), Tick(later)), Cleanup), d)
  {
    var w := Init(begin, late);
    BurstIsLegal(w, a, offset);
    var plan := PlannedRequests(a.resource, a.start, a.st.retryOffsets, a.ids, a.lifetime);
    var w3 := Apply(Apply(Apply(w, a), Tick(later)), Cleanup);
    BurstForgotten(w3.table, plan, a.resource, later);
    BurstIsLegal(w3, d, offset);
  }

  /** A table that stores nothing admits a burst of up to the limit. */
  lemma BurstIsLegal(w: World, a: Event, offset: int)
    requires a.Admit? && w.now - w.late <= a.start + offset && |a.ids| == |a.st.retryOffsets| <= a.st.rateLimit
    requires forall i :: 0 <= i < |a.ids| ==> a.st.retryOffsets[i] == offset
    requires forall i, j :: 0 <= i < j < |a.ids| ==> a.ids[i] != a.ids[j]
    requires Stored(w.table, a.resource) == [] && forall id :: !HasId(w.table, id)
    ensures Legal(w, a)
  {
    BurstFits(a.st, a.start);
    assert Times(Active(w.table, a.resource, w.now)) + Planned(a.st.retryOffsets, a.start)
        == Planned(a.st.retryOffsets, a.start);
  }

  lemma {:induction false} TwoBurstsCollide(begin: int, late: int, a: Event, later: int, d: Event, offset: int)
    requires TwoBursts(begin, late, a, later, d, offset)
    requires a.start <= d.start < a.start + a.st.window && a.st.rateLimit < 2 * |a.st.retryOffsets|
    requires var w := Init(begin, late);
      && Legal(w, a) && Legal(Apply(w, a), Tick(later))
      && Legal(Apply(Apply(Apply(w, a), Tick(later)), Cleanup), d)
    ensures var w3 := Apply(Apply(Apply(Init(begin, late), a), Tick(later)), Cleanup);
      !WithinLimit(TimesOn(Apply(w3, d).history, a.resource), a.st.rateLimit, a.st.window)
  {
    var w := Init(begin, late);
    AdmitEffect(w, a, a.resource);
    assert [] + Planned(a.st.retryOffsets, a.start) == Planned(a.st.retryOffsets, a.start);
    var w3 := Apply(Apply(Apply(w, a), Tick(later)), Cleanup);
    AdmitEffect(w3, d, d.resource);
    BurstsShareWindow(a.st, a.start, d.start, offset);
  }

  lemma BurstsShareWindow(st: Strategy, first: int, second: int, offset: int)
    requires first <= second < first + st.window && st.rateLimit < 2 * |st.retryOffsets|
    requires forall i :: 0 <= i < |st.retryOffsets| ==> st.retryOffsets[i] == offset
    ensures !WithinLimit(Planned(st.retryOffsets, first) + Planned(st.retryOffsets, second), st.rateLimit, st.window)
  {
    var one, two, t := Planned(st.retryOffsets, first), Planned(st.retryOffsets, second), first + offset;
    InWindowConcat(one, two, t, st.window);
    InWindowAll(one, t, st.window);
    InWindowAll(two, t, st.window);
    assert InWindow(one + two, t, st.window) > st.rateLimit;
  }

  lemma BurstFits(st: Strategy, start: int)
    requires |st.retryOffsets| <= st.rateLimit
    ensures WithinLimit(Planned(st.retryOffsets, start), st.rateLimit, st.window)
  {
    forall t ensures InWindow(Planned(st.retryOffsets, start), t, st.window) <= st.rateLimit {
      InWindowAtMostAll(Planned(st.retryOffsets, start), t, st.window);
    }
  }

  /** A table that has only held this plan is empty once the plan has expired and been cleaned up. */
  lemma BurstForgotten(table: Table, plan: seq<Request>, resource: string, later: int)
    requires table == Cleaned(AddAll(map[], plan), later)
    requires forall i :: 0 <= i < |plan| ==> plan[i].resource == resource && plan[i].expiresAt <= later
    requires forall i, j :: 0 <= i < j < |plan| ==> plan[i].id != plan[j].id
    ensures forall r :: Stored(table, r) == []
    ensures forall id :: !HasId(table, id)
  {
    var t := AddAll(map[], plan);
    forall r ensures Stored(table, r) == [] {
      AddAllFresh(map[], plan, resource, r);
      FilterNone(Stored(t, r), Unexpired(later));
    }
    forall id ensures !HasId(table, id) {
      EmptyHasNoId(table, id);
    }
  }

  lemma EmptyHasNoId(table: Table, id: string)
    requires forall r :: Stored(table, r) == []
    ensures !HasId(table, id)
  {
    assert forall r :: r in table ==> Stored(table, r) == table[r];
  }

  lemma RunFour(w: World, a: Event, b: Event, c: Event, d: Event)
    requires Legal(w, a) && Legal(Apply(w, a), b) && Legal(Apply(Apply(w, a), b), c)
    requires Legal(Apply(Apply(Apply(w, a), b), c), d)
    ensures Run(w, [a, b, c, d])
    ensures Final(w, [a, b, c, d]) == Apply(Apply(Apply(Apply(w, a), b), c), d)
  {
    var w1, w2, w3 := Apply(w, a), Apply(Apply(w, a), b), Apply(Apply(Apply(w, a), b), c);
    RunCons(w3, d, []);
    RunCons(w2, c, [d]);
    RunCons(w1, b, [c, d]);
    RunCons(w, a, [b, c, d]);
    assert [a] + [b, c, d] == [a, b, c, d] && [b] + [c, d] == [b, c, d] && [c] + [d] == [c, d] && [d] + [] == [d];
  }

  lemma RunCons(w: World, e: Event, rest: seq<Event>)
    requires Legal(w, e) && Run(Apply(w, e), rest)
    ensures Run(w, [e] + rest) && Final(w, [e] + rest) == Final(Apply(w, e), rest)
  {
    assert ([e] + rest)[1..] == rest;
  }
}
