/** The request table of pkg/daemon/scheduler.go. The clock reading each call takes is a
    parameter `now`; a call that holds the mutex is one atomic step. */
module Scheduler {
  import opened GoNumbers
  import opened Filters
  import opened RateWindows
  import opened Diophantine

  const SLOTS: nat := 1440

  datatype Request = Request(id: string, resource: string, scheduledAt: int, expiresAt: int)

  type Table = map<string, seq<Request>>

  function Stored(table: Table, resource: string): seq<Request> {
    if resource in table then table[resource] else []
  }

  function Unexpired(now: int): Request -> bool {
    (q: Request) => q.expiresAt > now
  }

  /** The requests that have not expired at `now`, in registration order. */
  function Alive(rs: seq<Request>, now: int): seq<Request> {
    Filter(rs, Unexpired(now))
  }

  function Times(rs: seq<Request>): (ts: seq<int>)
    ensures |ts| == |rs|
    ensures forall i :: 0 <= i < |ts| ==> ts[i] == rs[i].scheduledAt
  {
    seq(|rs|, i requires 0 <= i < |rs| => rs[i].scheduledAt)
  }

  function Active(table: Table, resource: string, now: int): seq<Request> {
    Alive(Stored(table, resource), now)
  }

  ghost predicate HasId(table: Table, id: string) {
    exists r, i :: r in table && 0 <= i < |table[r]| && table[r][i].id == id
  }

  /** A stored registration of this ID is unexpired. */
  ghost predicate LiveId(table: Table, id: string, now: int) {
    exists r, i :: r in table && 0 <= i < |table[r]| && table[r][i].id == id && table[r][i].expiresAt > now
  }

  function Register(table: Table, req: Request): Table {
    table[req.resource := Stored(table, req.resource) + [req]]
  }

  /** AddRequest as a function of the table: a known ID leaves it as it was. */
  ghost function Added(table: Table, req: Request): Table {
    if HasId(table, req.id) then table else Register(table, req)
  }

  function Cleaned(table: Table, now: int): Table {
    map r | r in table :: Alive(table[r], now)
  }

  ghost predicate UniqueIds(table: Table) {
    forall r, i, r', i' ::
      r in table && 0 <= i < |table[r]| && r' in table && 0 <= i' < |table[r']|
      && table[r][i].id == table[r'][i'].id
      ==> r == r' && i == i'
  }

  /** Whether the k-th candidate of the slot search is accepted, at the k-th clock reading. */
  ghost predicate Free(table: Table, resource: string, st: Strategy, preferred: int, clock: nat -> int, k: nat) {
    st.Admits(Times(Active(table, resource, clock(k))), preferred + k * MINUTE)
  }

  /** The first accepted minute of the coming day, or the same time tomorrow. */
  ghost predicate IsNextSlot(table: Table, resource: string, st: Strategy, preferred: int,
                             clock: nat -> int, slot: int) {
    if exists k: nat :: k < SLOTS && Free(table, resource, st, preferred, clock, k) then
      exists k: nat :: k < SLOTS && slot == preferred + k * MINUTE
                  && Free(table, resource, st, preferred, clock, k)
                  && forall j: nat :: j < k ==> !Free(table, resource, st, preferred, clock, j)
    else
      slot == preferred + SLOTS * MINUTE
  }

  class RequestScheduler {
    var requests: Table

    constructor ()
      ensures requests == map[]
    {
      requests := map[];
    }

    method AddRequest(req: Request) returns (accepted: bool)
      modifies this
      ensures accepted <==> !HasId(old(requests), req.id)
      ensures requests == Added(old(requests), req)
    {
      var pending := requests.Keys;
      while pending != {}
        invariant pending <= requests.Keys
        invariant requests == old(requests)
        invariant forall r, i :: r in requests && r !in pending && 0 <= i < |requests[r]| ==>
            requests[r][i].id != req.id
      {
        var resource :| resource in pending;
        var existing := requests[resource];
        for i := 0 to |existing|
          invariant forall k :: 0 <= k < i ==> existing[k].id != req.id
        {
          if existing[i].id == req.id {
            assert HasId(requests, req.id);
            return false;
          }
        }
        pending := pending - {resource};
      }
      requests := requests[req.resource := Stored(requests, req.resource) + [req]];
      return true;
    }

    method GetActiveRequests(resource: string, now: int) returns (result: seq<Request>)
      ensures result == Active(requests, resource, now)
    {
      result := KeepWhere(Stored(requests, resource), Unexpired(now));
    }

    method CleanupExpiredRequests(now: int)
      modifies this
      ensures requests == Cleaned(old(requests), now)
    {
      var pending := requests.Keys;
      while pending != {}
        invariant pending <= requests.Keys == old(requests).Keys
        invariant forall r :: r in requests ==>
          requests[r] == if r in pending then old(requests)[r] else Alive(old(requests)[r], now)
      {
        var resource :| resource in pending;
        var active := KeepWhere(requests[resource], Unexpired(now));
        requests := requests[resource := active];
        pending := pending - {resource};
      }
    }

    method CanScheduleWithStrategy(resource: string, st: Strategy, requestTime: int, now: int) returns (ok: bool)
      ensures ok <==> st.Admits(Times(Active(requests, resource, now)), requestTime)
    {
      var active := KeepWhere(Stored(requests, resource), Unexpired(now));
      ok := st.CanScheduleRequest(Times(active), requestTime);
    }

    /** `clock(k)` is what the k-th call of the search reads. */
    method GetNextAvailableSlot(resource: string, st: Strategy, preferred: int, clock: nat -> int)
        returns (slot: int)
      ensures IsNextSlot(requests, resource, st, preferred, clock, slot)
    {
      var candidate := preferred;
      for i := 0 to SLOTS
        invariant candidate == preferred + i * MINUTE
        invariant forall j: nat :: j < i ==> !Free(requests, resource, st, preferred, clock, j)
      {
        var ok := CanScheduleWithStrategy(resource, st, candidate, clock(i));
        if ok {
          assert Free(requests, resource, st, preferred, clock, i);
          return candidate;
        }
        candidate := candidate + MINUTE;
      }
      return preferred + 24 * 60 * MINUTE;
    }
  }

  // ---- the filter ----

  lemma AliveConcat(a: seq<Request>, b: seq<Request>, now: int)
    ensures Alive(a + b, now) == Alive(a, now) + Alive(b, now)
  {
    FilterConcat(a, b, Unexpired(now));
  }

  lemma AliveTwice(rs: seq<Request>, now: int, later: int)
    requires now <= later
    ensures Alive(Alive(rs, now), later) == Alive(rs, later)
  {
    FilterTwice(rs, Unexpired(now), Unexpired(later));
  }

  lemma {:induction false} AliveIsSub(rs: seq<Request>, now: int)
    ensures multiset(Times(Alive(rs, now))) <= multiset(Times(rs))
    ensures forall q :: q in Alive(rs, now) <==> q in rs && q.expiresAt > now
  {
    if rs != [] {
      var init, last := rs[..|rs| - 1], rs[|rs| - 1];
      AliveIsSub(init, now);
      assert rs == init + [last];
      TimesConcat(init, [last]);
      TimesConcat(Alive(init, now), if last.expiresAt > now then [last] else []);
    }
  }

  lemma TimesConcat(a: seq<Request>, b: seq<Request>)
    ensures Times(a + b) == Times(a) + Times(b)
  {
  }

  /** Only unexpired registrations keep their ID in the table. */
  lemma CleanedIds(table: Table, now: int, id: string)
    requires HasId(Cleaned(table, now), id)
    ensures HasId(table, id) && LiveId(table, id, now)
  {
    var t: Table := Cleaned(table, now);
    var r, i :| r in t && 0 <= i < |t[r]| && t[r][i].id == id;
    AliveIsSub(table[r], now);
    assert t[r][i] in table[r];
    var k :| 0 <= k < |table[r]| && table[r][k] == t[r][i];
  }

  // ---- the slot search ----

  /** The clock never goes back, so the active requests of a later reading are a part of
      the earlier ones. */
  lemma LaterActiveIsSub(table: Table, resource: string, now: int, later: int)
    requires now <= later
    ensures multiset(Times(Active(table, resource, later))) <= multiset(Times(Active(table, resource, now)))
  {
    AliveTwice(Stored(table, resource), now, later);
    AliveIsSub(Alive(Stored(table, resource), now), later);
  }

  ghost predicate NeverBack(clock: nat -> int) {
    forall i: nat, j: nat :: i <= j ==> clock(i) <= clock(j)
  }

  /** A slot is found, no later than the k-th minute, as soon as the active requests and the
      plan each fit the limit and the k-th candidate keeps one window clear of every active request. */
  lemma SlotMustBeFound(table: Table, resource: string, st: Strategy, preferred: int, clock: nat -> int,
                        k: nat, slot: int)
    requires NeverBack(clock) && k < SLOTS
    requires IsNextSlot(table, resource, st, preferred, clock, slot)
    requires WithinLimit(Times(Active(table, resource, clock(0))), st.rateLimit, st.window)
    requires WithinLimit(st.retryOffsets, st.rateLimit, st.window)
    requires forall a, o :: a in Active(table, resource, clock(0)) && o in st.retryOffsets ==>
               a.scheduledAt + st.window <= preferred + k * MINUTE + o
    ensures preferred <= slot <= preferred + k * MINUTE
    ensures exists j: nat :: j <= k && slot == preferred + j * MINUTE
                        && Free(table, resource, st, preferred, clock, j)
  {
    ClearSlotFits(Active(table, resource, clock(0)), st, preferred + k * MINUTE);
    StillAdmitted(table, resource, st, preferred + k * MINUTE, clock(0), clock(k));
    FoundByThen(table, resource, st, preferred, clock, k, slot);
  }

  lemma StillAdmitted(table: Table, resource: string, st: Strategy, start: int, now: int, later: int)
    requires now <= later && st.Admits(Times(Active(table, resource, now)), start)
    ensures st.Admits(Times(Active(table, resource, later)), start)
  {
    LaterActiveIsSub(table, resource, now, later);
    AdmitsMonotone(st, Times(Active(table, resource, now)), Times(Active(table, resource, later)), start);
  }

  /** A free candidate bounds the search. */
  lemma FoundByThen(table: Table, resource: string, st: Strategy, preferred: int, clock: nat -> int, k: nat, slot: int)
    requires k < SLOTS && IsNextSlot(table, resource, st, preferred, clock, slot)
    requires Free(table, resource, st, preferred, clock, k)
    ensures preferred <= slot <= preferred + k * MINUTE
    ensures exists j: nat :: j <= k && slot == preferred + j * MINUTE
                        && Free(table, resource, st, preferred, clock, j)
  {
    var j: nat :| j < SLOTS && slot == preferred + j * MINUTE && Free(table, resource, st, preferred, clock, j)
                  && forall i: nat :: i < j ==> !Free(table, resource, st, preferred, clock, i);
    assert j <= k;
  }

  lemma ClearSlotFits(active: seq<Request>, st: Strategy, start: int)
    requires WithinLimit(Times(active), st.rateLimit, st.window)
    requires WithinLimit(st.retryOffsets, st.rateLimit, st.window)
    requires forall a, o :: a in active && o in st.retryOffsets ==> a.scheduledAt + st.window <= start + o
    ensures st.Admits(Times(active), start)
  {
    PlanShift(st.retryOffsets, start, st.rateLimit, st.window);
    forall i, j | 0 <= i < |active| && 0 <= j < |st.retryOffsets|
      ensures Times(active)[i] + st.window <= Planned(st.retryOffsets, start)[j]
    {
      assert active[i] in active && st.retryOffsets[j] in st.retryOffsets;
    }
    SeparatedListsFit(Times(active), Planned(st.retryOffsets, start), st.rateLimit, st.window);
  }

  /** Two lists that each fit the limit fit it together when one starts a window after the other ends. */
  lemma SeparatedListsFit(early: seq<int>, late: seq<int>, limit: int, window: int)
    requires WithinLimit(early, limit, window) && WithinLimit(late, limit, window)
    requires forall i, j :: 0 <= i < |early| && 0 <= j < |late| ==> early[i] + window <= late[j]
    ensures WithinLimit(early + late, limit, window)
  {
    forall t ensures InWindow(early + late, t, window) <= limit {
      InWindowConcat(early, late, t, window);
      assert InWindow(early, t, window) <= limit && InWindow(late, t, window) <= limit;
      if j :| 0 <= j < |late| && t <= late[j] < t + window {
        InWindowNone(early, t, window);
      } else {
        InWindowNone(late, t, window);
      }
    }
  }

  /** If the requests still active at the last reading already break the limit, the search
      gives up and answers the same time tomorrow. */
  lemma OverfullMeansTomorrow(table: Table, resource: string, st: Strategy, preferred: int, clock: nat -> int,
      slot: int)
    requires NeverBack(clock)
    requires IsNextSlot(table, resource, st, preferred, clock, slot)
    requires Active(table, resource, clock(SLOTS - 1)) != []
    requires !WithinLimit(Times(Active(table, resource, clock(SLOTS - 1))), st.rateLimit, st.window)
    ensures slot == preferred + 24 * 60 * MINUTE
  {
    var last := Times(Active(table, resource, clock(SLOTS - 1)));
    forall k: nat | k < SLOTS ensures !Free(table, resource, st, preferred, clock, k) {
      if Free(table, resource, st, preferred, clock, k) {
        var now := Times(Active(table, resource, clock(k)));
        LaterActiveIsSub(table, resource, clock(k), clock(SLOTS - 1));
        AdmitsMonotone(st, now, last, preferred + k * MINUTE);
        WithinLimitMonotone(last, last + Planned(st.retryOffsets, preferred + k * MINUTE), st.rateLimit, st.window);
      }
    }
  }
}
