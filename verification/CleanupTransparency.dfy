/** Cleaning up expired requests cannot be seen by scheduling: it changes neither what
    GetActiveRequests lists nor what CanScheduleWithStrategy answers, then or later. */
module CleanupTransparency {
  import opened Diophantine
  import opened Scheduler
  import SchedulerRuns

  datatype Op = Wait(to: int) | Clean | Add(req: Request)

  datatype Node = Node(table: Table, now: int)

  ghost function Do(n: Node, op: Op): Node {
    match op
    case Wait(to) => n.(now := to)
    case Clean => n.(table := Cleaned(n.table, n.now))
    case Add(req) => n.(table := Added(n.table, req))
  }

  ghost function DoAll(n: Node, ops: seq<Op>): Node
    decreases |ops|
  {
    if ops == [] then n else DoAll(Do(n, ops[0]), ops[1..])
  }

  /** The same calls without the cleanups. */
  ghost function Uncleaned(ops: seq<Op>): seq<Op> {
    if ops == [] then [] else (if ops[0].Clean? then [] else [ops[0]]) + Uncleaned(ops[1..])
  }

  ghost predicate ClockForward(now: int, ops: seq<Op>)
    decreases |ops|
  {
    ops != [] ==> (ops[0].Wait? ==> now <= ops[0].to)
                  && ClockForward(if ops[0].Wait? then ops[0].to else now, ops[1..])
  }

  ghost predicate DistinctIds(ops: seq<Op>) {
    forall i, j :: 0 <= i < j < |ops| && ops[i].Add? && ops[j].Add? ==> ops[i].req.id != ops[j].req.id
  }

  ghost predicate SameActive(a: Node, b: Node) {
    a.now == b.now && forall r :: Active(a.table, r, a.now) == Active(b.table, r, a.now)
  }

  /** From one empty table, with and without the cleanups: equal active lists, in order, at
      every instant from now on, and equal answers to every scheduling question. */
  lemma CleanupIsInvisible(start: int, ops: seq<Op>, resource: string, later: int, st: Strategy, at: int)
    requires ClockForward(start, ops) && DistinctIds(ops)
    requires DoAll(Node(map[], start), ops).now <= later
    ensures var a, b := DoAll(Node(map[], start), ops).table, DoAll(Node(map[], start), Uncleaned(ops)).table;
      && Active(a, resource, later) == Active(b, resource, later)
      && (st.Admits(Times(Active(a, resource, later)), at) <==> st.Admits(Times(Active(b, resource, later)), at))
  {
    var n := Node(map[], start);
    DistinctIsTimely(n, ops);
    Simulates(n, n, ops);
    var a, b := DoAll(n, ops), DoAll(n, Uncleaned(ops));
    AliveTwice(Stored(a.table, resource), a.now, later);
    AliveTwice(Stored(b.table, resource), a.now, later);
    assert Active(a.table, resource, a.now) == Active(b.table, resource, a.now);
  }

  ghost predicate Unused(n: Node, ops: seq<Op>) {
    forall i :: 0 <= i < |ops| && ops[i].Add? ==> !HasId(n.table, ops[i].req.id)
  }

  /** An ID already stored is used again only while its registration is unexpired, or for a request
      that is itself expired. */
  ghost predicate TimelyAdd(n: Node, req: Request) {
    HasId(n.table, req.id) ==> LiveId(n.table, req.id, n.now) || req.expiresAt <= n.now
  }

  ghost predicate Timely(n: Node, ops: seq<Op>)
    decreases |ops|
  {
    ops != [] ==> (ops[0].Add? ==> TimelyAdd(n, ops[0].req)) && Timely(Do(n, ops[0]), ops[1..])
  }

  /** However cleanups are put between the calls, after every one of them the active lists are those
      of the table that is never cleaned. */
  ghost predicate CleanupUnseen(n: Node, plain: seq<Op>) {
    forall ops :: Uncleaned(ops) <= plain ==> SameActive(DoAll(n, ops), DoAll(n, Uncleaned(ops)))
  }

  /** Exactly when cleanup cannot be seen. */
  lemma CleanupUnseenExactly(n: Node, plain: seq<Op>)
    requires ClockForward(n.now, plain) && forall i :: 0 <= i < |plain| ==> !plain[i].Clean?
    ensures CleanupUnseen(n, plain) <==> Timely(n, plain)
  {
    if Timely(n, plain) {
      forall ops | Uncleaned(ops) <= plain ensures SameActive(DoAll(n, ops), DoAll(n, Uncleaned(ops))) {
        PrefixIsTimely(n, Uncleaned(ops), plain);
        ForwardWithCleanups(n.now, ops);
        Simulates(n, n, ops);
      }
    } else {
      var ops := LateReuse(n, plain);
      assert Uncleaned(ops) <= plain && !SameActive(DoAll(n, ops), DoAll(n, Uncleaned(ops)));
    }
  }

  lemma {:induction false} PrefixIsTimely(n: Node, some: seq<Op>, all: seq<Op>)
    requires some <= all && Timely(n, all) && ClockForward(n.now, all)
    ensures Timely(n, some) && ClockForward(n.now, some)
    decreases |some|
  {
    if some != [] { PrefixIsTimely(Do(n, some[0]), some[1..], all[1..]); }
  }

  lemma {:induction false} ForwardWithCleanups(now: int, ops: seq<Op>)
    requires ClockForward(now, Uncleaned(ops))
    ensures ClockForward(now, ops)
    decreases |ops|
  {
    if ops != [] {
      UncleanedHead(ops);
      ForwardWithCleanups(if ops[0].Wait? then ops[0].to else now, ops[1..]);
    }
  }

  lemma UncleanedHead(ops: seq<Op>)
    requires ops != []
    ensures ops[0].Clean? ==> Uncleaned(ops) == Uncleaned(ops[1..])
    ensures !ops[0].Clean? ==>
      Uncleaned(ops) != [] && Uncleaned(ops)[0] == ops[0] && Uncleaned(ops)[1..] == Uncleaned(ops[1..])
  {
  }

  ghost predicate IdsWithin(a: Table, b: Table) {
    forall id :: HasId(a, id) ==> HasId(b, id)
  }

  /** Equal active lists, and no ID in the cleaned table that the other has not. */
  lemma {:induction false} Simulates(a: Node, b: Node, ops: seq<Op>)
    requires SameActive(a, b) && IdsWithin(a.table, b.table)
    requires ClockForward(a.now, ops) && Timely(b, Uncleaned(ops))
    ensures SameActive(DoAll(a, ops), DoAll(b, Uncleaned(ops)))
    decreases |ops|
  {
    if ops != [] {
      UncleanedHead(ops);
      OneStep(a, b, ops[0]);
      Simulates(Do(a, ops[0]), if ops[0].Clean? then b else Do(b, ops[0]), ops[1..]);
    }
  }

  lemma OneStep(a: Node, b: Node, op: Op)
    requires SameActive(a, b) && IdsWithin(a.table, b.table) && (op.Wait? ==> a.now <= op.to)
    requires op.Add? ==> TimelyAdd(b, op.req)
    ensures var b' := if op.Clean? then b else Do(b, op);
      SameActive(Do(a, op), b') && IdsWithin(Do(a, op).table, b'.table)
  {
    match op
    case Wait(to) =>
      forall r ensures Active(a.table, r, to) == Active(b.table, r, to) {
        assert Active(a.table, r, a.now) == Active(b.table, r, a.now);
        AliveTwice(Stored(a.table, r), a.now, to);
        AliveTwice(Stored(b.table, r), a.now, to);
      }
    case Clean =>
      forall r ensures Active(Cleaned(a.table, a.now), r, a.now) == Active(a.table, r, a.now) {
        AliveTwice(Stored(a.table, r), a.now, a.now);
      }
      forall id | HasId(Cleaned(a.table, a.now), id) ensures HasId(a.table, id) { CleanedIds(a.table, a.now, id); }
    case Add(req) =>
      AddStep(a, b, req);
  }

  lemma AddStep(a: Node, b: Node, req: Request)
    requires SameActive(a, b) && IdsWithin(a.table, b.table) && TimelyAdd(b, req)
    ensures SameActive(Do(a, Add(req)), Do(b, Add(req)))
    ensures IdsWithin(Do(a, Add(req)).table, Do(b, Add(req)).table)
  {
    if LiveId(b.table, req.id, b.now) {
      LiveIdIsShared(a, b, req.id);
    } else {
      RegisterIds(a.table, req);
      RegisterIds(b.table, req);
      forall r ensures Active(Added(a.table, req), r, a.now) == Active(Added(b.table, req), r, a.now) {
        AddBoth(a, b, req, r);
      }
    }
  }

  lemma AddBoth(a: Node, b: Node, req: Request, r: string)
    requires SameActive(a, b) && (HasId(a.table, req.id) ==> HasId(b.table, req.id))
    requires HasId(b.table, req.id) ==> req.expiresAt <= b.now
    ensures Active(Added(a.table, req), r, a.now) == Active(Added(b.table, req), r, a.now)
  {
    assert Active(a.table, r, a.now) == Active(b.table, r, a.now);
    RegisterActive(a.table, req, r, a.now);
    RegisterActive(b.table, req, r, a.now);
  }

  lemma RegisterIds(table: Table, req: Request)
    ensures forall id :: HasId(Register(table, req), id) <==> HasId(table, id) || id == req.id
  {
    forall id ensures HasId(Register(table, req), id) <==> HasId(table, id) || id == req.id {
      SchedulerRuns.HasIdAfterRegister(table, req, id);
    }
  }

  lemma RegisterActive(table: Table, req: Request, resource: string, now: int)
    ensures Active(Register(table, req), resource, now)
         == Active(table, resource, now) + if resource == req.resource && req.expiresAt > now then [req] else []
  {
    AliveConcat(Stored(table, resource), [req], now);
    assert Alive([req], now) == if req.expiresAt > now then [req] else [];
  }

  /** An unexpired registration is in both active lists, so in both tables. */
  lemma LiveIdIsShared(a: Node, b: Node, id: string)
    requires SameActive(a, b) && LiveId(b.table, id, b.now)
    ensures HasId(a.table, id)
  {
    var r, i :| r in b.table && 0 <= i < |b.table[r]| && b.table[r][i].id == id && b.table[r][i].expiresAt > b.now;
    var q := b.table[r][i];
    AliveIsSub(b.table[r], b.now);
    AliveIsSub(Stored(a.table, r), a.now);
    assert q in Active(b.table, r, b.now) && q in Active(a.table, r, a.now);
    assert q in Stored(a.table, r);
    var k :| 0 <= k < |Stored(a.table, r)| && Stored(a.table, r)[k] == q;
    assert a.table[r][k].id == id;
  }

  /** A cleanup just before the first late reuse shows. */
  lemma {:induction false} LateReuse(n: Node, plain: seq<Op>) returns (ops: seq<Op>)
    requires !Timely(n, plain) && forall i :: 0 <= i < |plain| ==> !plain[i].Clean?
    ensures Uncleaned(ops) <= plain && !SameActive(DoAll(n, ops), DoAll(n, Uncleaned(ops)))
    decreases |plain|
  {
    var op := plain[0];
    if op.Add? && !TimelyAdd(n, op.req) {
      ops := [Clean, op];
      assert ops[1..] == [op];
      UncleanedHead(ops);
      UncleanedHead([op]);
      assert Uncleaned(ops) == [op];
      CleanedReuse(n, op.req);
      OneOp(n, op);
      OneOp(Do(n, Clean), op);
    } else {
      var rest := LateReuse(Do(n, op), plain[1..]);
      ops := [op] + rest;
      assert ops[1..] == rest;
      UncleanedHead(ops);
      assert Uncleaned(ops) == [op] + Uncleaned(rest);
      assert plain == [op] + plain[1..];
    }
  }

  lemma OneOp(n: Node, op: Op)
    ensures DoAll(n, [op]) == Do(n, op)
  {
    assert DoAll(Do(n, op), [op][1..]) == Do(n, op);
  }

  lemma CleanedReuse(n: Node, req: Request)
    requires HasId(n.table, req.id) && !LiveId(n.table, req.id, n.now) && req.expiresAt > n.now
    ensures !SameActive(Do(Do(n, Clean), Add(req)), Do(n, Add(req)))
  {
    var t: Table := Cleaned(n.table, n.now);
    if HasId(t, req.id) { CleanedIds(n.table, n.now, req.id); }
    RegisterActive(t, req, req.resource, n.now);
    AliveTwice(Stored(n.table, req.resource), n.now, n.now);
    assert Active(t, req.resource, n.now) == Active(n.table, req.resource, n.now);
  }

  /** IDs that are never reused are a special case. */
  lemma {:induction false} DistinctIsTimely(n: Node, ops: seq<Op>)
    requires DistinctIds(ops) && Unused(n, ops)
    ensures Timely(n, Uncleaned(ops))
    decreases |ops|
  {
    if ops != [] {
      UncleanedHead(ops);
      if !ops[0].Clean? { StaysUnused(n, ops); }
      DistinctIsTimely(if ops[0].Clean? then n else Do(n, ops[0]), ops[1..]);
    }
  }

  lemma StaysUnused(n: Node, ops: seq<Op>)
    requires ops != [] && DistinctIds(ops) && Unused(n, ops)
    ensures Unused(Do(n, ops[0]), ops[1..])
  {
    var n', rest := Do(n, ops[0]), ops[1..];
    forall i | 0 <= i < |rest| && rest[i].Add? ensures !HasId(n'.table, rest[i].req.id) {
      var id := rest[i].req.id;
      assert ops[i + 1] == rest[i];
      match ops[0]
      case Wait(_) =>
      case Clean => if HasId(n'.table, id) { CleanedIds(n.table, n.now, id); }
      case Add(req) => SchedulerRuns.HasIdAfterRegister(n.table, req, id);
    }
  }

  /** The ID of a request that is due at 0 is used again at 1: seen exactly when that request has
      expired by then, for then only the cleaned table takes the second one. */
  lemma ReusedIdShowsCleanup(expires: int)
    ensures CleanupUnseen(Node(map[], 0), [Add(Request("a", "r", 0, expires)), Wait(1), Add(Request("a", "r", 5, 100))])
       <==> expires > 1
  {
    var q, q' := Request("a", "r", 0, expires), Request("a", "r", 5, 100);
    var n, t: Table := Node(map[], 0), map["r" := [q]];
    var plain := [Add(q), Wait(1), Add(q')];
    assert plain[1..] == [Wait(1), Add(q')] && plain[1..][1..] == [Add(q')];
    assert Stored(map[], "r") + [q] == [q];
    assert Do(n, Add(q)) == Node(t, 0);
    assert t["r"][0].id == "a";
    assert HasId(t, "a");
    assert LiveId(t, "a", 1) <==> expires > 1;
    assert Timely(Node(t, 1), [Add(q')]) <==> expires > 1;
    assert Timely(Node(t, 0), plain[1..]) <==> expires > 1;
    assert ClockForward(1, [Add(q')]);
    assert ClockForward(0, plain[1..]);
    CleanupUnseenExactly(n, plain);
  }

  // ---- stored IDs stay unique across all resources ----

  lemma {:induction false} IdsStayUnique(n: Node, ops: seq<Op>)
    requires UniqueIds(n.table)
    ensures UniqueIds(DoAll(n, ops).table)
    decreases |ops|
  {
    if ops != [] {
      match ops[0] {
        case Wait(_) =>
        case Clean => CleanedUnique(n.table, n.now);
        case Add(req) => AddedUnique(n.table, req);
      }
      IdsStayUnique(Do(n, ops[0]), ops[1..]);
    }
  }

  lemma AddedUnique(table: Table, req: Request)
    requires UniqueIds(table)
    ensures UniqueIds(Added(table, req))
  {
    var t: Table := Added(table, req);
    forall r, i, r', i' |
      r in t && 0 <= i < |t[r]| && r' in t && 0 <= i' < |t[r']| && t[r][i].id == t[r'][i'].id
      ensures r == r' && i == i'
    {
      var old1, old2 := r in table && i < |table[r]|, r' in table && i' < |table[r']|;
      assert old1 ==> HasId(table, t[r][i].id);
      assert old2 ==> HasId(table, t[r'][i'].id);
    }
  }

  lemma {:induction false} AliveKeepsDistinct(rs: seq<Request>, now: int)
    requires forall i, j :: 0 <= i < j < |rs| ==> rs[i].id != rs[j].id
    ensures forall i, j :: 0 <= i < j < |Alive(rs, now)| ==> Alive(rs, now)[i].id != Alive(rs, now)[j].id
  {
    if rs != [] {
      var init := rs[..|rs| - 1];
      AliveKeepsDistinct(init, now);
      AliveIsSub(init, now);
      forall i | 0 <= i < |Alive(init, now)| ensures Alive(init, now)[i].id != rs[|rs| - 1].id {
        assert Alive(init, now)[i] in init;
      }
    }
  }

  lemma CleanedUnique(table: Table, now: int)
    requires UniqueIds(table)
    ensures UniqueIds(Cleaned(table, now))
  {
    var t: Table := Cleaned(table, now);
    forall r, i, r', i' |
      r in t && 0 <= i < |t[r]| && r' in t && 0 <= i' < |t[r']| && t[r][i].id == t[r'][i'].id
      ensures r == r' && i == i'
    {
      var k := StoredAt(table, now, r, i);
      var k' := StoredAt(table, now, r', i');
      assert table[r][k].id == table[r'][k'].id;
      AliveKeepsDistinct(table[r], now);
    }
  }

  lemma StoredAt(table: Table, now: int, r: string, i: nat) returns (k: nat)
    requires r in table && i < |Alive(table[r], now)|
    ensures k < |table[r]| && table[r][k] == Alive(table[r], now)[i]
  {
    AliveIsSub(table[r], now);
    assert Alive(table[r], now)[i] in table[r];
    k :| 0 <= k < |table[r]| && table[r][k] == Alive(table[r], now)[i];
  }
}
