/** The connection worker pool of pkg/daemon/worker_pool.go as an interleaved step system. Each
    step is what one goroutine does atomically; SubmitConnection is three steps, because it tests
    `started` under the lock, releases it, and only then selects on the queue. */
module WorkerPool {

  type Conn = nat

  datatype Worker = Idle | Handling(conn: Conn) | Gone

  /** How far the Stop call that found the pool started has come. */
  datatype StopPhase = NotStopped | Marked | Cancelled | Returned

  datatype Pool = Pool(
    size: nat,
    started: bool,
    startedOnce: bool,
    stop: StopPhase,
    waitGroup: int,
    workers: seq<Worker>,
    arriving: set<Conn>,      // inside SubmitConnection, before the started test
    passed: set<Conn>,        // inside SubmitConnection, after a successful test
    queue: seq<Conn>,
    rejected: seq<Conn>,      // closed by SubmitConnection, in order
    served: seq<Conn>,        // closed by a worker, in order
    sent: seq<Conn>,          // everything ever put into the queue
    taken: seq<Conn>,         // everything ever taken out of it
    answers: map<Conn, bool>) // what SubmitConnection returned
  {
    function Capacity(): nat { 2 * size }
    predicate ContextDone() { stop == Cancelled || stop == Returned }
  }

  /** The worker count NewWorkerPool settles on. */
  function PoolSize(requested: int): (n: nat)
    ensures 1 <= n <= 1000 && (1 <= requested <= 1000 ==> n == requested)
    ensures requested <= 0 ==> n == 10
    ensures requested > 1000 ==> n == 1000
  {
    if requested <= 0 then 10 else if requested > 1000 then 1000 else requested
  }

  function NewPool(requested: int): Pool {
    Pool(PoolSize(requested), false, false, NotStopped, 0, [], {}, {}, [], [], [], [], [], map[])
  }

  datatype Step =
    | Start
    | Submit(c: Conn) | Check(c: Conn) | Send(c: Conn) | SeeDone(c: Conn) | QueueFull(c: Conn)
    | Take(w: nat) | Finish(w: nat) | Exit(w: nat)
    | StopMark | StopCancel | StopReturn | StopNothing

  ghost function Known(p: Pool): set<Conn> {
    p.arriving + p.passed + (set c | c in p.answers)
  }

  ghost predicate Enabled(p: Pool, s: Step) {
    match s
    case Start => !p.startedOnce
    case Submit(c) => c !in Known(p)
    case Check(c) => c in p.arriving
    case Send(c) => c in p.passed && |p.queue| < p.Capacity()
    case SeeDone(c) => c in p.passed && p.ContextDone()
    case QueueFull(c) => c in p.passed && |p.queue| >= p.Capacity() && !p.ContextDone()
    case Take(w) => w < |p.workers| && p.workers[w] == Idle && p.queue != []
    case Finish(w) => w < |p.workers| && p.workers[w].Handling?
    case Exit(w) => w < |p.workers| && p.workers[w] == Idle && p.ContextDone()
    case StopMark => p.started
    case StopCancel => p.stop == Marked
    case StopReturn => p.stop == Cancelled && p.waitGroup == 0
    case StopNothing => !p.started
  }

  function Reject(p: Pool, c: Conn): Pool {
    p.(passed := p.passed - {c}, arriving := p.arriving - {c},
       rejected := p.rejected + [c], answers := p.answers[c := false])
  }

  ghost function Next(p: Pool, s: Step): Pool
    requires Enabled(p, s)
  {
    match s
    case Start => p.(started := true, startedOnce := true, waitGroup := p.waitGroup + p.size,
                     workers := seq(p.size, _ => Idle))
    case Submit(c) => p.(arriving := p.arriving + {c})
    case Check(c) =>
      if p.started then p.(arriving := p.arriving - {c}, passed := p.passed + {c}) else Reject(p, c)
    case Send(c) => p.(passed := p.passed - {c}, queue := p.queue + [c], sent := p.sent + [c],
                       answers := p.answers[c := true])
    case SeeDone(c) => Reject(p, c)
    case QueueFull(c) => Reject(p, c)
    case Take(w) => p.(workers := p.workers[w := Handling(p.queue[0])], queue := p.queue[1..],
                       taken := p.taken + [p.queue[0]])
    case Finish(w) => p.(workers := p.workers[w := Idle], served := p.served + [p.workers[w].conn])
    case Exit(w) => p.(workers := p.workers[w := Gone], waitGroup := p.waitGroup - 1)
    case StopMark => p.(started := false, stop := Marked)
    case StopCancel => p.(stop := Cancelled)
    case StopReturn => p.(stop := Returned)
    case StopNothing => p
  }

  ghost predicate Run(p: Pool, steps: seq<Step>)
    decreases |steps|
  {
    steps == [] || (Enabled(p, steps[0]) && Run(Next(p, steps[0]), steps[1..]))
  }

  ghost function Final(p: Pool, steps: seq<Step>): Pool
    requires Run(p, steps)
    decreases |steps|
  {
    if steps == [] then p else Final(Next(p, steps[0]), steps[1..])
  }

  // ---- what the workers hold ----

  function Bit(b: bool): nat { if b then 1 else 0 }

  function Count(s: seq<Conn>, c: Conn): nat { multiset(s)[c] }

  /** How many workers hold the connection. */
  function Holders(ws: seq<Worker>, c: Conn): nat {
    if ws == [] then 0 else Holders(ws[..|ws| - 1], c) + Bit(ws[|ws| - 1] == Handling(c))
  }

  function Live(ws: seq<Worker>): nat {
    if ws == [] then 0 else Live(ws[..|ws| - 1]) + Bit(ws[|ws| - 1] != Gone)
  }

  lemma {:induction false} UpdateWorker(ws: seq<Worker>, w: nat, v: Worker, c: Conn)
    requires w < |ws|
    ensures Holders(ws[w := v], c) + Bit(ws[w] == Handling(c)) == Holders(ws, c) + Bit(v == Handling(c))
    ensures Live(ws[w := v]) + Bit(ws[w] != Gone) == Live(ws) + Bit(v != Gone)
  {
    var n := |ws| - 1;
    if w == n {
      assert ws[w := v][..n] == ws[..n];
    } else {
      assert ws[w := v][..n] == ws[..n][w := v];
      UpdateWorker(ws[..n], w, v, c);
    }
  }

  lemma {:induction false} FreshWorkers(n: nat, c: Conn)
    ensures Holders(seq(n, _ => Idle), c) == 0 && Live(seq(n, _ => Idle)) == n
  {
    if n > 0 {
      assert seq(n, _ => Idle)[..n - 1] == seq(n - 1, _ => Idle);
      FreshWorkers(n - 1, c);
    }
  }

  lemma {:induction false} NoneLive(ws: seq<Worker>)
    requires Live(ws) == 0
    ensures forall w :: 0 <= w < |ws| ==> ws[w] == Gone
    ensures forall c :: Holders(ws, c) == 0
  {
    if ws != [] { NoneLive(ws[..|ws| - 1]); }
  }

  // ---- what every step keeps ----

  /** In how many places a connection is, counting a closed one once for every Close call. */
  ghost function Places(p: Pool, c: Conn): nat {
    Bit(c in p.arriving) + Bit(c in p.passed) + Count(p.queue, c) + Holders(p.workers, c)
    + Count(p.rejected, c) + Count(p.served, c)
  }

  /** Conservation: every connection ever submitted is in exactly one place. */
  ghost predicate Conserved(p: Pool, c: Conn) {
    && Places(p, c) == Bit(c in Known(p))
    && Count(p.taken, c) == Holders(p.workers, c) + Count(p.served, c)
  }

  ghost predicate Answered(p: Pool) {
    && (forall c :: c in p.answers && p.answers[c] <==> c in p.sent)
    && (forall c :: c in p.answers && !p.answers[c] <==> c in p.rejected)
    && p.arriving !! p.passed
    && (forall c :: c in p.answers ==> c !in p.arriving && c !in p.passed)
  }

  ghost predicate Phases(p: Pool) {
    && p.size >= 1 && |p.queue| <= p.Capacity()
    && p.sent == p.taken + p.queue
    && (p.startedOnce ==> |p.workers| == p.size)
    && (!p.startedOnce ==> p.workers == [] && p.stop == NotStopped)
    && (p.started <==> p.startedOnce && p.stop == NotStopped)
    && p.waitGroup == Live(p.workers)
    && (!p.ContextDone() ==> forall w :: 0 <= w < |p.workers| ==> p.workers[w] != Gone)
    && (p.stop == Returned ==> p.waitGroup == 0)
  }

  ghost predicate Inv(p: Pool) {
    Answered(p) && Phases(p) && forall c :: Conserved(p, c)
  }

  predicate ByWorker(s: Step) { s.Start? || s.Take? || s.Finish? || s.Exit? }

  lemma PhasesStep(p: Pool, s: Step)
    requires Phases(p) && Enabled(p, s)
    ensures Phases(Next(p, s))
  {
    if ByWorker(s) { PhasesWorkerStep(p, s); }
  }

  lemma PhasesWorkerStep(p: Pool, s: Step)
    requires Phases(p) && Enabled(p, s) && ByWorker(s)
    ensures Phases(Next(p, s))
  {
    match s
    case Start => FreshWorkers(p.size, 0);
    case Take(w) =>
      UpdateWorker(p.workers, w, Handling(p.queue[0]), 0);
      assert p.taken + p.queue == p.taken + [p.queue[0]] + p.queue[1..];
    case Finish(w) => UpdateWorker(p.workers, w, Idle, 0);
    case Exit(w) => UpdateWorker(p.workers, w, Gone, 0);
  }

  lemma AnsweredStep(p: Pool, s: Step)
    requires Answered(p) && Enabled(p, s)
    ensures Answered(Next(p, s))
  {
  }

  lemma ConservedStep(p: Pool, s: Step, c: Conn)
    requires Inv(p) && Enabled(p, s)
    ensures Conserved(Next(p, s), c)
  {
    assert Conserved(p, c);
    if ByWorker(s) {
      ConservedWorkerStep(p, s, c);
    } else {
      ConservedCallStep(p, s, c);
    }
  }

  lemma ConservedWorkerStep(p: Pool, s: Step, c: Conn)
    requires Phases(p) && Conserved(p, c) && Enabled(p, s) && ByWorker(s)
    ensures Conserved(Next(p, s), c)
  {
    match s
    case Start => FreshWorkers(p.size, c);
    case Take(w) =>
      UpdateWorker(p.workers, w, Handling(p.queue[0]), c);
      assert p.queue == [p.queue[0]] + p.queue[1..];
    case Finish(w) => UpdateWorker(p.workers, w, Idle, c);
    case Exit(w) => UpdateWorker(p.workers, w, Gone, c);
  }

  lemma ConservedCallStep(p: Pool, s: Step, c: Conn)
    requires Answered(p) && Conserved(p, c) && Enabled(p, s) && !ByWorker(s)
    ensures Conserved(Next(p, s), c)
  {
    assert Next(p, s).workers == p.workers && Next(p, s).served == p.served && Next(p, s).taken == p.taken;
  }

  lemma InvStep(p: Pool, s: Step)
    requires Inv(p) && Enabled(p, s)
    ensures Inv(Next(p, s))
  {
    PhasesStep(p, s);
    AnsweredStep(p, s);
    forall c ensures Conserved(Next(p, s), c) { ConservedStep(p, s, c); }
  }

  lemma {:induction false} InvRun(p: Pool, steps: seq<Step>)
    requires Inv(p) && Run(p, steps)
    ensures Inv(Final(p, steps))
    decreases |steps|
  {
    if steps != [] {
      InvStep(p, steps[0]);
      InvRun(Next(p, steps[0]), steps[1..]);
    }
  }

  ghost predicate Reachable(p: Pool) {
    exists requested, steps :: Run(NewPool(requested), steps) && Final(NewPool(requested), steps) == p
  }

  lemma ReachableInv(p: Pool)
    requires Reachable(p)
    ensures Inv(p)
  {
    var requested, steps :| Run(NewPool(requested), steps) && Final(NewPool(requested), steps) == p;
    assert Known(NewPool(requested)) == {};
    InvRun(NewPool(requested), steps);
  }

  // ---- main results ----

  /** A submitted connection is with its submitter, in the queue, with one worker, or closed: in
      exactly one of these, and closed at most once. */
  lemma ExactlyOnePlace(p: Pool, c: Conn)
    requires Reachable(p)
    ensures Bit(c in p.arriving) + Bit(c in p.passed) + Count(p.queue, c) + Holders(p.workers, c)
            + Count(p.rejected + p.served, c) == Bit(c in Known(p))
  {
    ReachableInv(p);
    assert Conserved(p, c);
  }

  /** Submit answers no exactly for the connections it closed itself, and yes exactly for those it
      queued; these are taken in the order they were queued, and no worker closes any other. */
  lemma AnswersTellThePlace(p: Pool, c: Conn)
    requires Reachable(p)
    ensures |p.queue| <= 2 * p.size && p.sent == p.taken + p.queue
    ensures c in p.answers && !p.answers[c] <==> c in p.rejected
    ensures c in p.answers && p.answers[c] <==> c in p.queue || Holders(p.workers, c) == 1 || c in p.served
    ensures c in p.rejected ==> c !in p.served && c !in p.queue && Count(p.rejected, c) == 1
  {
    ReachableInv(p);
    assert Conserved(p, c);
    assert c in p.sent <==> c in p.taken || c in p.queue;
    assert c in p.taken <==> Count(p.taken, c) > 0;
    assert c in p.served <==> Count(p.served, c) > 0;
    assert c in p.queue <==> Count(p.queue, c) > 0;
    assert c in p.rejected <==> Count(p.rejected, c) > 0;
  }

  // ---- when submit says no ----

  /** As long as Stop has not cancelled the context, the only step that turns a submitter away behind
      the started test finds the queue exactly full. */
  lemma RefusedMeansFull(p: Pool, s: Step, c: Conn)
    requires Reachable(p) && Enabled(p, s) && !p.ContextDone() && c in p.passed
    requires c in Next(p, s).answers && !Next(p, s).answers[c]
    ensures |p.queue| == 2 * p.size && Next(p, s).rejected == p.rejected + [c] && Next(p, s).queue == p.queue
  {
    ReachableInv(p);
    assert c !in p.answers;
  }

  /** A submitter always has a step to take, so SubmitConnection never waits; with room in the queue
      that step may queue the connection and answer yes. */
  lemma SubmitNeverWaits(p: Pool, c: Conn)
    requires Reachable(p)
    ensures c in p.arriving ==> Enabled(p, Check(c))
    ensures c in p.passed ==> Enabled(p, Send(c)) || Enabled(p, SeeDone(c)) || Enabled(p, QueueFull(c))
    ensures c in p.passed && |p.queue| < 2 * p.size ==>
      Enabled(p, Send(c)) && Next(p, Send(c)).queue == p.queue + [c]
      && c in Next(p, Send(c)).answers && Next(p, Send(c)).answers[c]
  {
    ReachableInv(p);
  }

  /** The first `busy` workers each hold a connection, the others none; the queue has this length; all
      connections so far are below `next`. */
  ghost predicate Filled(p: Pool, requested: int, busy: nat, queued: nat, next: nat) {
    && Reachable(p) && p.size == PoolSize(requested) == |p.workers| && p.started && !p.ContextDone()
    && busy <= |p.workers| && |p.queue| == queued
    && (forall w :: 0 <= w < |p.workers| ==> if w < busy then p.workers[w].Handling? else p.workers[w] == Idle)
    && forall c :: c in Known(p) ==> c < next
  }

  /** A pool of any size gets to a state where every worker is busy and twice as many connections are
      queued. */
  lemma FullHappens(requested: int) returns (p: Pool)
    ensures Reachable(p) && p.started && !p.ContextDone() && |p.workers| == PoolSize(requested)
    ensures (forall w :: 0 <= w < |p.workers| ==> p.workers[w].Handling?) && |p.queue| == 2 * PoolSize(requested)
  {
    var n, p0 := PoolSize(requested), NewPool(requested);
    assert Run(p0, []) && Final(p0, []) == p0;
    ReachableStep(p0, Start);
    p := Next(p0, Start);
    p := KeepBusy(p, requested, 0);
    p := FillQueue(p, requested, n, 0);
  }

  lemma {:induction false} KeepBusy(p: Pool, requested: int, busy: nat) returns (q: Pool)
    requires Filled(p, requested, busy, 0, busy)
    ensures Filled(q, requested, PoolSize(requested), 0, PoolSize(requested))
    decreases PoolSize(requested) - busy
  {
    q := p;
    if busy < |p.workers| {
      q := QueueOne(q, requested, busy, 0, busy);
      q := TakeOne(q, requested, busy, busy + 1);
      q := KeepBusy(q, requested, busy + 1);
    }
  }

  lemma {:induction false} FillQueue(p: Pool, requested: int, next: nat, queued: nat) returns (q: Pool)
    requires Filled(p, requested, PoolSize(requested), queued, next) && queued <= 2 * PoolSize(requested)
    ensures Filled(q, requested, PoolSize(requested), 2 * PoolSize(requested), next + 2 * PoolSize(requested) - queued)
    decreases 2 * PoolSize(requested) - queued
  {
    q := p;
    if queued < 2 * PoolSize(requested) {
      q := QueueOne(q, requested, PoolSize(requested), queued, next);
      q := FillQueue(q, requested, next + 1, queued + 1);
    }
  }

  lemma KnownStep(p: Pool, s: Step, c: Conn)
    requires Enabled(p, s) && c in Known(Next(p, s))
    ensures c in Known(p) || s == Submit(c)
  {
    assert forall x :: x in Known(p) <==> x in p.arriving || x in p.passed || x in p.answers;
  }

  /** No new connection. */
  lemma KnownBound(p: Pool, s: Step, next: nat)
    requires Enabled(p, s) && !s.Submit? && forall c :: c in Known(p) ==> c < next
    ensures forall c :: c in Known(Next(p, s)) ==> c < next
  {
    forall c | c in Known(Next(p, s)) ensures c < next { KnownStep(p, s, c); }
  }

  lemma QueueOne(p: Pool, requested: int, busy: nat, queued: nat, next: nat) returns (q: Pool)
    requires Filled(p, requested, busy, queued, next) && queued < 2 * PoolSize(requested)
    ensures Filled(q, requested, busy, queued + 1, next + 1)
  {
    ReachableStep(p, Submit(next));
    q := Next(p, Submit(next));
    forall c | c in Known(q) ensures c < next + 1 { KnownStep(p, Submit(next), c); }
    ReachableStep(q, Check(next));
    KnownBound(q, Check(next), next + 1);
    q := Next(q, Check(next));
    ReachableStep(q, Send(next));
    KnownBound(q, Send(next), next + 1);
    q := Next(q, Send(next));
  }

  lemma TakeOne(p: Pool, requested: int, busy: nat, next: nat) returns (q: Pool)
    requires Filled(p, requested, busy, 1, next) && busy < |p.workers|
    ensures Filled(q, requested, busy + 1, 0, next)
  {
    ReachableStep(p, Take(busy));
    KnownBound(p, Take(busy), next);
    q := Next(p, Take(busy));
  }

  /** When the effective Stop has returned, every worker is gone and none holds a connection. */
  lemma StopLeavesNoWorker(p: Pool)
    requires Reachable(p) && p.stop == Returned
    ensures forall w :: 0 <= w < |p.workers| ==> p.workers[w] == Gone
    ensures forall c :: Holders(p.workers, c) == 0
    ensures |p.workers| == p.size && !p.started
  {
    ReachableInv(p);
    NoneLive(p.workers);
  }

  lemma StoppedStep(p: Pool, s: Step)
    requires Phases(p) && p.stop == Returned && Enabled(p, s)
    ensures var q := Next(p, s); q.stop == Returned && p.queue <= q.queue && q.served == p.served && q.taken == p.taken
  {
    NoneLive(p.workers);
  }

  lemma {:induction false} StoppedRun(p: Pool, steps: seq<Step>)
    requires Phases(p) && p.stop == Returned && Run(p, steps)
    ensures var q := Final(p, steps);
      q.stop == Returned && p.queue <= q.queue && q.served == p.served && q.taken == p.taken
    decreases |steps|
  {
    if steps != [] {
      PhasesStep(p, steps[0]);
      StoppedStep(p, steps[0]);
      StoppedRun(Next(p, steps[0]), steps[1..]);
    }
  }

  /** From then on the queue only grows: what Stop left in it is never handled and never closed. */
  lemma StoppedQueueIsStranded(p: Pool, steps: seq<Step>)
    requires Reachable(p) && p.stop == Returned && Run(p, steps)
    ensures p.queue <= Final(p, steps).queue && Final(p, steps).served == p.served
    ensures forall c :: c in p.queue ==> c !in Final(p, steps).served && c !in Final(p, steps).rejected
  {
    ReachableInv(p);
    StoppedRun(p, steps);
    InvRun(p, steps);
    var q := Final(p, steps);
    forall c | c in p.queue ensures c !in q.served && c !in q.rejected { QueuedIsNotClosed(q, c); }
  }

  lemma QueuedIsNotClosed(p: Pool, c: Conn)
    requires Inv(p) && c in p.queue
    ensures c !in p.served && c !in p.rejected
  {
    assert Conserved(p, c);
    assert Count(p.queue, c) > 0;
    assert c in p.served <==> Count(p.served, c) > 0;
    assert c in p.rejected <==> Count(p.rejected, c) > 0;
  }

  /** A run leads from `p` to `q`. */
  ghost predicate Leads(p: Pool, q: Pool) {
    exists steps :: Run(p, steps) && Final(p, steps) == q
  }

  /** Some continuation ends with Stop returned and a connection left in the queue. */
  ghost predicate MayStrand(p: Pool) {
    exists q :: Leads(p, q) && q.stop == Returned && q.queue != []
  }

  /** Exactly when a Stop can strand: a connection is queued, or a submitter has passed the started
      test, at the moment Stop takes the lock. */
  lemma StrandsExactly(p: Pool)
    requires Reachable(p) && p.started
    ensures MayStrand(Next(p, StopMark)) <==> p.passed != {} || p.queue != []
  {
    ReachableInv(p);
    var marked := Next(p, StopMark);
    PhasesStep(p, StopMark);
    if p.passed == {} && p.queue == [] {
      forall q | Leads(marked, q) ensures q.queue == [] {
        var steps :| Run(marked, steps) && Final(marked, steps) == q;
        QuietRun(marked, steps);
      }
    } else {
      var q := StopDrains(marked);
      if q.queue == [] {
        var c :| c in q.passed;
        LeadsStep(marked, q, Send(c));
        assert Next(q, Send(c)).queue == [c];
      }
    }
  }

  /** Nobody is left who could still queue a connection. */
  ghost predicate Quiet(p: Pool) {
    p.startedOnce && !p.started && p.passed == {} && p.queue == []
  }

  lemma {:induction false} QuietRun(p: Pool, steps: seq<Step>)
    requires Quiet(p) && Run(p, steps)
    ensures Quiet(Final(p, steps))
    decreases |steps|
  {
    if steps != [] { QuietRun(Next(p, steps[0]), steps[1..]); }
  }

  /** Stop can return without anything more being taken or queued: every worker finishes what it
      holds and leaves. */
  lemma StopDrains(p: Pool) returns (q: Pool)
    requires Phases(p) && p.stop == Marked
    ensures Leads(p, q) && q.stop == Returned && q.queue == p.queue && q.passed == p.passed && q.size == p.size >= 1
  {
    assert Run(p, []) && Final(p, []) == p;
    LeadsStep(p, p, StopCancel);
    PhasesStep(p, StopCancel);
    q := WorkersLeave(p, Next(p, StopCancel), 0);
    NobodyLive(q.workers);
    LeadsStep(p, q, StopReturn);
    q := Next(q, StopReturn);
  }

  ghost predicate Leaving(p: Pool, q: Pool, w: nat) {
    && Leads(p, q) && Phases(q) && q.stop == Cancelled && w <= |q.workers|
    && forall i :: 0 <= i < w ==> q.workers[i] == Gone
  }

  lemma {:induction false} WorkersLeave(p: Pool, q: Pool, w: nat) returns (r: Pool)
    requires Leaving(p, q, w)
    ensures Leaving(p, r, |r.workers|) && r.queue == q.queue && r.passed == q.passed && r.size == q.size
    decreases |q.workers| - w
  {
    r := q;
    if w < |q.workers| {
      if r.workers[w].Handling? {
        PhasesStep(r, Finish(w));
        LeadsStep(p, r, Finish(w));
        r := Next(r, Finish(w));
      }
      if r.workers[w] == Idle {
        PhasesStep(r, Exit(w));
        LeadsStep(p, r, Exit(w));
        r := Next(r, Exit(w));
      }
      r := WorkersLeave(p, r, w + 1);
    }
  }

  lemma {:induction false} NobodyLive(ws: seq<Worker>)
    requires forall w :: 0 <= w < |ws| ==> ws[w] == Gone
    ensures Live(ws) == 0
  {
    if ws != [] { NobodyLive(ws[..|ws| - 1]); }
  }

  lemma LeadsStep(p: Pool, q: Pool, s: Step)
    requires Leads(p, q) && Enabled(q, s)
    ensures Leads(p, Next(q, s))
  {
    var steps :| Run(p, steps) && Final(p, steps) == q;
    RunSnoc(p, steps, s);
  }

  /** And the condition does occur: one submitter passes the test before Stop. */
  lemma StrandingHappens(c: Conn)
    ensures exists p :: Reachable(p) && p.started && p.passed == {c} && p.queue == [] && MayStrand(Next(p, StopMark))
  {
    var p0 := NewPool(1);
    assert Run(p0, []) && Final(p0, []) == p0;
    ReachableStep(p0, Start);
    var p1 := Next(p0, Start);
    ReachableStep(p1, Submit(c));
    var p2 := Next(p1, Submit(c));
    ReachableStep(p2, Check(c));
    var p3 := Next(p2, Check(c));
    assert p3.passed == {c};
    StrandsExactly(p3);
  }

  lemma ReachableStep(p: Pool, s: Step)
    requires Reachable(p) && Enabled(p, s)
    ensures Reachable(Next(p, s))
  {
    var requested, steps :| Run(NewPool(requested), steps) && Final(NewPool(requested), steps) == p;
    RunSnoc(NewPool(requested), steps, s);
  }

  lemma {:induction false} RunSnoc(p: Pool, steps: seq<Step>, s: Step)
    requires Run(p, steps) && Enabled(Final(p, steps), s)
    ensures Run(p, steps + [s]) && Final(p, steps + [s]) == Next(Final(p, steps), s)
    decreases |steps|
  {
    if steps == [] {
      assert Run(Next(p, s), [s][1..]);
    } else {
      assert (steps + [s])[1..] == steps[1..] + [s];
      RunSnoc(Next(p, steps[0]), steps[1..], s);
    }
  }
}
