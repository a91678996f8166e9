/** The retry loop of pkg/executor/executor.go. What the i-th execution of the command does is an
    input, `runner(i)`; attempts are counted from 1. */
module Executor {
  import opened Wrappers
  import opened Conditions
  import Adaptive
  import HttpAware

  datatype Output = Output(exitCode: int, stdout: string, stderr: string)

  /** How one execution can end, as executeAttempt reports it. */
  datatype Outcome = Finished(output: Output) | TimedOut | RunnerError(error: string)

  datatype AttemptMetric = AttemptMetric(exitCode: int, success: bool)

  datatype Stats = Stats(totalAttempts: int, successfulRuns: int, failedRuns: int, success: bool, finalReason: Reason)

  datatype RunMetrics = RunMetrics(succeeded: bool, totalAttempts: int, successfulAttempts: int, failedAttempts: int,
                                   attempts: seq<AttemptMetric>)

  datatype Result = Result(success: bool, attemptCount: int, exitCode: int, timedOut: bool, reason: Reason,
                           stats: Stats, metrics: RunMetrics)

  datatype Config = Config(maxAttempts: int, conditions: Option<Checker>)

  // ---- one attempt ----

  function OutputOf(o: Outcome): Output {
    match o
    case Finished(output) => output
    case _ => Output(-1, "", "")
  }

  function Judge(cfg: Config, output: Output): Verdict {
    match cfg.conditions
    case Some(c) => CheckSuccess(c, output.exitCode, output.stdout, output.stderr)
    case None => Verdict(output.exitCode == 0, ExitCode(output.exitCode))
  }

  predicate ShouldStop(v: Verdict) { v.success || v.reason == FailurePattern }

  function FinalReason(cfg: Config, last: Output, timedOut: bool): Reason {
    var inner := if timedOut then Timeout else Judge(cfg, last).reason;
    if cfg.maxAttempts == 1 then inner else MaxRetries(inner)
  }

  // ---- the meaning of a run ----

  predicate Success(cfg: Config, runner: int -> Outcome, i: int) {
    Judge(cfg, OutputOf(runner(i))).success
  }

  /** Attempt `i` ran without a runner error and asks for another try. */
  predicate GoesOn(cfg: Config, runner: int -> Outcome, i: int) {
    !runner(i).RunnerError? && !ShouldStop(Judge(cfg, OutputOf(runner(i))))
  }

  ghost predicate AllGoOn(cfg: Config, runner: int -> Outcome, n: int) {
    forall i :: 1 <= i <= n ==> GoesOn(cfg, runner, i)
  }

  /** The run ends with attempt `k`: the first that succeeds or matches the failure pattern, else
      the last one allowed. */
  ghost predicate EndsAt(cfg: Config, runner: int -> Outcome, k: int) {
    && 1 <= k <= cfg.maxAttempts
    && AllGoOn(cfg, runner, k - 1)
    && !runner(k).RunnerError?
    && (k == cfg.maxAttempts || ShouldStop(Judge(cfg, OutputOf(runner(k)))))
  }

  /** The run stops at attempt `k` without a result. */
  ghost predicate AbortsAt(cfg: Config, runner: int -> Outcome, k: int) {
    1 <= k <= cfg.maxAttempts && runner(k).RunnerError? && AllGoOn(cfg, runner, k - 1)
  }

  /** Some attempt up to `k` timed out. */
  ghost predicate TimeoutBy(runner: int -> Outcome, k: int) {
    exists i :: 1 <= i <= k && runner(i).TimedOut?
  }

  /** The run ends without a result. */
  ghost predicate Aborts(cfg: Config, runner: int -> Outcome) {
    exists k :: AbortsAt(cfg, runner, k)
  }

  lemma NoAbort(cfg: Config, runner: int -> Outcome, k: int)
    requires EndsAt(cfg, runner, k)
    ensures !Aborts(cfg, runner)
  {
    assert k < cfg.maxAttempts ==> !GoesOn(cfg, runner, k);
    forall j | 1 <= j < k ensures !runner(j).RunnerError? {
      assert GoesOn(cfg, runner, j);
    }
  }

  lemma TimeoutStep(runner: int -> Outcome, k: int)
    requires k >= 0
    ensures TimeoutBy(runner, k + 1) <==> TimeoutBy(runner, k) || runner(k + 1).TimedOut?
  {
  }

  function MetricOf(cfg: Config, o: Outcome): AttemptMetric {
    AttemptMetric(OutputOf(o).exitCode, Judge(cfg, OutputOf(o)).success)
  }

  /** One metric for each of the first `k` attempts. */
  ghost predicate Measured(cfg: Config, runner: int -> Outcome, k: int, ms: seq<AttemptMetric>) {
    |ms| == k && forall i :: 0 <= i < k ==> ms[i] == MetricOf(cfg, runner(i + 1))
  }

  lemma MeasureOneMore(cfg: Config, runner: int -> Outcome, k: int, ms: seq<AttemptMetric>)
    requires Measured(cfg, runner, k, ms)
    ensures var m := MetricOf(cfg, runner(k + 1));
      Measured(cfg, runner, k + 1, ms + [m])
          && CountSuccesses(ms + [m]) == CountSuccesses(ms) + if m.success then 1 else 0
  {
    var m := MetricOf(cfg, runner(k + 1));
    assert (ms + [m])[..|ms|] == ms;
  }

  /** Everything the result says about the trace of `k` attempts. */
  ghost predicate Describes(cfg: Config, runner: int -> Outcome, k: int, r: Result) {
    && r.attemptCount == k
    && r.success == Success(cfg, runner, k)
    && r.exitCode == OutputOf(runner(k)).exitCode
    && (r.timedOut <==> TimeoutBy(runner, k))
    && r.reason == (if ShouldStop(Judge(cfg, OutputOf(runner(k)))) then Judge(cfg, OutputOf(runner(k))).reason
                    else FinalReason(cfg, OutputOf(runner(k)), r.timedOut))
    && r.stats == Stats(k, if r.success then 1 else 0, if r.success then k - 1 else k, r.success, r.reason)
    && Measured(cfg, runner, k, r.metrics.attempts)
    && r.metrics.succeeded == r.success && r.metrics.totalAttempts == k
    && r.metrics.successfulAttempts == (if r.success then 1 else 0)
    && r.metrics.failedAttempts == (if r.success then k - 1 else k)
  }

  function CountSuccesses(ms: seq<AttemptMetric>): nat {
    if ms == [] then 0 else CountSuccesses(ms[..|ms| - 1]) + if ms[|ms| - 1].success then 1 else 0
  }

  method NewRunMetrics(success: bool, attempts: seq<AttemptMetric>) returns (m: RunMetrics)
    ensures m == RunMetrics(success, |attempts|, CountSuccesses(attempts), |attempts| - CountSuccesses(attempts),
        attempts)
  {
    var successful, failed := 0, 0;
    for i := 0 to |attempts|
      invariant successful == CountSuccesses(attempts[..i]) && failed == i - successful
    {
      assert attempts[..i + 1][..i] == attempts[..i];
      if attempts[i].success {
        successful := successful + 1;
      } else {
        failed := failed + 1;
      }
    }
    assert attempts[..|attempts|] == attempts;
    m := RunMetrics(success, |attempts|, successful, failed, attempts);
  }

  /** Result, or the runner error that ended the run without one. */
  datatype Ended = Done(result: Result) | Aborted(error: string)

  /** The result of a run that is not allowed a single attempt. */
  ghost predicate EmptyRun(cfg: Config, r: Result) {
    !r.success && r.attemptCount == cfg.maxAttempts && r.exitCode == 0 && !r.timedOut
    && r.metrics.attempts == [] && r.stats.totalAttempts == 0
    && r.reason == FinalReason(cfg, Output(0, "", ""), false)
  }

  /** A run is aborted exactly by the first runner error; otherwise it has made the attempts up to
      the one it ends with, and its result describes them. */
  ghost predicate Explained(cfg: Config, runner: int -> Outcome, e: Ended) {
    exists k :: ExplainedBy(cfg, runner, k, e)
  }

  ghost predicate ExplainedBy(cfg: Config, runner: int -> Outcome, k: int, e: Ended) {
    match e
    case Aborted(error) => AbortsAt(cfg, runner, k) && runner(k).error == error
    case Done(r) =>
      && r.attemptCount == k && !Aborts(cfg, runner)
      && if cfg.maxAttempts < 1 then EmptyRun(cfg, r) else EndsAt(cfg, runner, k) && Describes(cfg, runner, k, r)
  }

  // ---- what the loop keeps ----

  /** The variables of the retry loop. */
  datatype Progress = Progress(last: Output, timedOut: bool, stats: Stats, attempts: seq<AttemptMetric>)

  const NOTHING_YET := Progress(Output(0, "", ""), false, Stats(0, 0, 0, false, ExitCode(0)), [])

  /** RecordAttemptStart and RecordAttemptEnd of pkg/ui/ui.go. */
  function Tallied(st: Stats, success: bool): Stats {
    if success then st.(totalAttempts := st.totalAttempts + 1, successfulRuns := st.successfulRuns + 1)
    else st.(totalAttempts := st.totalAttempts + 1, failedRuns := st.failedRuns + 1)
  }

  /** One more attempt that ended like this. */
  function Advance(cfg: Config, p: Progress, o: Outcome): Progress {
    var success := Judge(cfg, OutputOf(o)).success;
    Progress(OutputOf(o), p.timedOut || o.TimedOut?, Tallied(p.stats, success), p.attempts + [MetricOf(cfg, o)])
  }

  function ProgressAfter(cfg: Config, runner: int -> Outcome, k: nat): Progress {
    if k == 0 then NOTHING_YET else Advance(cfg, ProgressAfter(cfg, runner, k - 1), runner(k))
  }

  /** What the loop variables say after `k` attempts of which only the last may have succeeded. */
  ghost predicate Counted(cfg: Config, runner: int -> Outcome, k: nat, p: Progress) {
    && (p.timedOut <==> TimeoutBy(runner, k))
    && Measured(cfg, runner, k, p.attempts)
    && p.stats.totalAttempts == k && p.stats.failedRuns == k - p.stats.successfulRuns
    && p.stats.successfulRuns == CountSuccesses(p.attempts) == (if k > 0 && Success(cfg, runner, k) then 1 else 0)
    && (k > 0 ==> p.last == OutputOf(runner(k)))
  }

  lemma {:induction false} LoopCounts(cfg: Config, runner: int -> Outcome, k: nat)
    requires k > 0 ==> AllGoOn(cfg, runner, k - 1)
    ensures Counted(cfg, runner, k, ProgressAfter(cfg, runner, k))
  {
    if k > 0 {
      LoopCounts(cfg, runner, k - 1);
      assert k > 1 ==> GoesOn(cfg, runner, k - 1);
      TimeoutStep(runner, k - 1);
      MeasureOneMore(cfg, runner, k - 1, ProgressAfter(cfg, runner, k - 1).attempts);
    }
  }

  /** The run may be summed up like this. */
  ghost predicate Reportable(cfg: Config, runner: int -> Outcome, success: bool, k: int, p: Progress, reason: Reason) {
    if cfg.maxAttempts < 1 then
      !success && k == cfg.maxAttempts && p == NOTHING_YET && reason == FinalReason(cfg, p.last, p.timedOut)
    else
      && EndsAt(cfg, runner, k) && p == ProgressAfter(cfg, runner, k)
      && if ShouldStop(Judge(cfg, p.last)) then Verdict(success, reason) == Judge(cfg, p.last)
         else !success && reason == FinalReason(cfg, p.last, p.timedOut)
  }

  /** Between attempts `k` and `k + 1`. */
  ghost predicate Retrying(cfg: Config, runner: int -> Outcome, k: int, p: Progress) {
    0 <= k && (k == 0 || k < cfg.maxAttempts) && AllGoOn(cfg, runner, k) && p == ProgressAfter(cfg, runner, k)
  }

  /** An attempt without runner error: the run ends with it or goes on. */
  lemma AttemptStep(cfg: Config, runner: int -> Outcome, k: int, p: Progress)
    requires 1 <= k <= cfg.maxAttempts && Retrying(cfg, runner, k - 1, p) && !runner(k).RunnerError?
    ensures var v, p' := Judge(cfg, OutputOf(runner(k))), Advance(cfg, p, runner(k));
      if ShouldStop(v) then Reportable(cfg, runner, v.success, k, p', v.reason)
      else if k == cfg.maxAttempts then Reportable(cfg, runner, false, k, p', FinalReason(cfg, p'.last, p'.timedOut))
      else Retrying(cfg, runner, k, p')
  {
    if !ShouldStop(Judge(cfg, OutputOf(runner(k)))) {
      assert GoesOn(cfg, runner, k);
    }
  }

  lemma AbortedHere(cfg: Config, runner: int -> Outcome, k: int)
    requires 1 <= k <= cfg.maxAttempts && AllGoOn(cfg, runner, k - 1) && runner(k).RunnerError?
    ensures Explained(cfg, runner, Aborted(runner(k).error))
  {
    assert ExplainedBy(cfg, runner, k, Aborted(runner(k).error));
  }

  method BuildFinalResult(cfg: Config, ghost runner: int -> Outcome, success: bool, attemptCount: int, p: Progress,
                          reason: Reason)
      returns (r: Result)
    requires Reportable(cfg, runner, success, attemptCount, p, reason)
    ensures ExplainedBy(cfg, runner, attemptCount, Done(r))
  {
    var stats := p.stats.(success := success, finalReason := reason);
    var runMetrics := NewRunMetrics(success, p.attempts);
    r := Result(success, attemptCount, p.last.exitCode, p.timedOut, reason, stats, runMetrics);
    if cfg.maxAttempts >= 1 {
      LoopCounts(cfg, runner, attemptCount);
      NoAbort(cfg, runner, attemptCount);
      assert Describes(cfg, runner, attemptCount, r);
    }
  }

  // ---- the strategy beside the loop ----

  /** A strategy that keeps no account of the attempts, one that learns from them, or one that reads
      their output. The last two fall back on another strategy. */
  datatype Backoff = Plain | Learning(learner: Adaptive.Adaptive) | Reading(http: HttpAware.HTTPAware)

  function Objects(b: Backoff): set<object> {
    match b
    case Plain => {}
    case Learning(a) => {a}
    case Reading(h) => {h}
  }

  /** What the world does to a run: how attempt i ends, how long it takes, and what the clock says
      after it; and the delay of the plain or fallback strategy. */
  datatype Env = Env(runner: int -> Outcome, latency: int -> int, clock: int -> int, fallback: int -> int)

  /** A strategy as a value. */
  datatype State =
    | Stateless
    | Learner(l: Adaptive.Learner)
    | Reader(maxRetryAfter: int, lib: HttpAware.Libraries, lastRetryAfter: int)

  ghost function StateOf(b: Backoff): State
    reads Objects(b)
  {
    match b
    case Plain => Stateless
    case Learning(a) => Learner(Adaptive.Learner(a.recorded, a.learningRate, a.memoryWindow))
    case Reading(h) => Reader(h.maxRetryAfter, h.lib, h.lastRetryAfter)
  }

  ghost predicate Sound(b: Backoff)
    reads Objects(b)
  {
    b.Learning? ==> b.learner.Valid()
  }

  /** What Delay(n) may answer. */
  ghost predicate MayPause(s: State, n: int, fallback: int -> int, d: int) {
    match s
    case Stateless => d == fallback(n)
    case Learner(l) => Adaptive.MayAnswer(l, n, fallback, d)
    case Reader(_, _, last) => d == if last > 0 then last else fallback(n)
  }

  type Entry = Adaptive.Attempt
  type Log = seq<Entry>

  /** The timing the output of attempt `n` asks for. */
  ghost function OutputTiming(maxRetryAfter: int, lib: HttpAware.Libraries, env: Env, n: int): int {
    var o := OutputOf(env.runner(n));
    HttpAware.Timing(o.stdout, o.stderr, env.clock(n), maxRetryAfter, lib)
  }

  /** The strategy after it was told of attempt `n`. */
  ghost function Told(s: State, env: Env, n: int, e: Entry): State {
    match s
    case Stateless => s
    case Learner(l) => Learner(Adaptive.Told(l, e))
    case Reader(max, lib, _) => Reader(max, lib, OutputTiming(max, lib, env, n))
  }

  ghost function StateAfter(s: State, env: Env, log: Log): State {
    if log == [] then s else Told(StateAfter(s, env, log[..|log| - 1]), env, |log|, log[|log| - 1])
  }

  /** What was said about attempt `n` to a strategy in state `s`, after a pause that `s` had answered:
      its outcome and, to a learner, a second answer to the same question. */
  ghost predicate ProperEntry(cfg: Config, env: Env, s: State, n: int, pause: int, e: Entry) {
    && e.success == Success(cfg, env.runner, n) && e.latency == env.latency(n)
    && (n > 1 ==> MayPause(s, n - 1, env.fallback, pause))
    && (n > 1 && s.Learner? ==> MayPause(s, n - 1, env.fallback, e.reported))
    && (n == 1 || !s.Learner? ==> e.reported == 0)
  }

  function LastPause(log: Log): int { if log == [] then 0 else log[|log| - 1].computed }

  ghost predicate Proper(cfg: Config, s: State, env: Env, log: Log) {
    log == []
    || var init := log[..|log| - 1];
       Proper(cfg, s, env, init)
       && ProperEntry(cfg, env, StateAfter(s, env, init), |log|, LastPause(init), log[|log| - 1])
  }

  /** The strategy was told of the first `n` attempts, as the log says. */
  ghost predicate Informed(cfg: Config, b: Backoff, start: State, env: Env, log: Log, n: int)
    reads Objects(b)
  {
    && |log| == n && Proper(cfg, start, env, log)
    && Sound(b) && StateOf(b) == StateAfter(start, env, log)
  }

  /** Moreover, the pause after attempt `n` is an answer of the strategy in that state. */
  ghost predicate Waiting(cfg: Config, b: Backoff, start: State, env: Env, log: Log, n: int)
    reads Objects(b)
  {
    Informed(cfg, b, start, env, log, n) && (n > 0 ==> MayPause(StateOf(b), n, env.fallback, LastPause(log)))
  }

  lemma LogGrows(cfg: Config, s: State, env: Env, log: Log, e: Entry)
    requires Proper(cfg, s, env, log)
    requires ProperEntry(cfg, env, StateAfter(s, env, log), |log| + 1, LastPause(log), e)
    ensures Proper(cfg, s, env, log + [e])
    ensures StateAfter(s, env, log + [e]) == Told(StateAfter(s, env, log), env, |log| + 1, e)
  {
    assert (log + [e])[..|log|] == log;
  }

  lemma PauseChangesNothing(cfg: Config, s: State, env: Env, log: Log, d: int)
    requires log != [] && Proper(cfg, s, env, log)
    ensures Proper(cfg, s, env, Adaptive.Repaused(log, d)) && LastPause(Adaptive.Repaused(log, d)) == d
    ensures StateAfter(s, env, Adaptive.Repaused(log, d)) == StateAfter(s, env, log)
  {
    assert Adaptive.Repaused(log, d)[..|log| - 1] == log[..|log| - 1];
  }

  /** Reports the delay of the attempt just made to a learner, by asking Delay of the previous attempt
      again, and shows its output to a reader. */
  method RecordStrategyOutcome(b: Backoff, attempt: int, success: bool, output: Output, env: Env) returns (e: Entry)
    requires Sound(b) && attempt >= 1 && output == OutputOf(env.runner(attempt))
    modifies Objects(b)
    ensures Sound(b) && StateOf(b) == Told(old(StateOf(b)), env, attempt, e)
    ensures e.success == success && e.latency == env.latency(attempt)
    ensures if b.Learning? && attempt > 1 then MayPause(old(StateOf(b)), attempt - 1, env.fallback, e.reported)
            else e.reported == 0
  {
    e := Adaptive.Attempt(0, success, env.latency(attempt), 0);
    match b {
      case Plain =>
      case Reading(h) =>
        h.ProcessCommandOutput(output.stdout, output.stderr, env.clock(attempt));
      case Learning(a) =>
        if attempt > 1 {
          var actualDelay := a.Delay(attempt - 1, env.fallback);
          e := e.(reported := actualDelay);
        }
        a.RecordOutcome(e.reported, success, e.latency);
    }
  }

  /** The delay slept before the next attempt. */
  method AskPause(b: Backoff, attempt: int, fallback: int -> int) returns (delay: int)
    requires Sound(b)
    ensures MayPause(StateOf(b), attempt, fallback, delay)
  {
    match b {
      case Plain => delay := fallback(attempt);
      case Reading(h) => delay := h.Delay(attempt, fallback);
      case Learning(a) => delay := a.Delay(attempt, fallback);
    }
  }

  method LogOutcome(cfg: Config, b: Backoff, attempt: int, ghost start: State, env: Env, log: Log) returns (log': Log)
    requires attempt >= 1 && Waiting(cfg, b, start, env, log, attempt - 1)
    modifies Objects(b)
    ensures Informed(cfg, b, start, env, log', attempt)
  {
    var output := OutputOf(env.runner(attempt));
    var entry := RecordStrategyOutcome(b, attempt, Judge(cfg, output).success, output, env);
    LogGrows(cfg, start, env, log, entry);
    log' := log + [entry];
  }

  method LogPause(cfg: Config, b: Backoff, attempt: int, ghost start: State, env: Env, log: Log) returns (log': Log)
    requires attempt >= 1 && Informed(cfg, b, start, env, log, attempt)
    ensures Waiting(cfg, b, start, env, log', attempt)
  {
    var delay := AskPause(b, attempt, env.fallback);
    PauseChangesNothing(cfg, start, env, log, delay);
    log' := Adaptive.Repaused(log, delay);
  }

  /** One pass of the retry loop: how the run ends with it, if it does. */
  method MakeAttempt(cfg: Config, env: Env, b: Backoff, attempt: int, progress: Progress, ghost start: State, log: Log)
      returns (ended: Option<Ended>, progress': Progress, log': Log)
    requires 1 <= attempt <= cfg.maxAttempts && Retrying(cfg, env.runner, attempt - 1, progress)
    requires Waiting(cfg, b, start, env, log, attempt - 1)
    modifies Objects(b)
    ensures ended.Some? ==> Explained(cfg, env.runner, ended.value) && Informed(cfg, b, start, env, log', |log'|)
    ensures ended.Some? && ended.value.Done? ==> |log'| == ended.value.result.attemptCount
    ensures ended.None? ==> attempt < cfg.maxAttempts && Retrying(cfg, env.runner, attempt, progress')
                            && Waiting(cfg, b, start, env, log', attempt)
  {
    var outcome := env.runner(attempt);
    if outcome.RunnerError? {
      AbortedHere(cfg, env.runner, attempt);
      return Some(Aborted(outcome.error)), progress, log;
    }
    AttemptStep(cfg, env.runner, attempt, progress);
    var verdict := Judge(cfg, OutputOf(outcome));
    progress' := Advance(cfg, progress, outcome);
    log' := LogOutcome(cfg, b, attempt, start, env, log);
    if ShouldStop(verdict) {
      var result := BuildFinalResult(cfg, env.runner, verdict.success, attempt, progress', verdict.reason);
      return Some(Done(result)), progress', log';
    }
    if attempt == cfg.maxAttempts {
      var finalReason := FinalReason(cfg, progress'.last, progress'.timedOut);
      var result := BuildFinalResult(cfg, env.runner, false, attempt, progress', finalReason);
      return Some(Done(result)), progress', log';
    }
    log' := LogPause(cfg, b, attempt, start, env, log');
    return None, progress', log';
  }

  /** `log` is what the loop told the strategy and asked of it. */
  method Run(cfg: Config, env: Env, b: Backoff) returns (r: Ended, log: Log)
    requires Sound(b)
    modifies Objects(b)
    ensures Explained(cfg, env.runner, r)
    ensures Informed(cfg, b, old(StateOf(b)), env, log, |log|)
    ensures r.Done? && cfg.maxAttempts >= 1 ==> |log| == r.result.attemptCount
  {
    var progress := NOTHING_YET;
    log := [];
    ghost var start := StateOf(b);
    var attempt := 1;
    while attempt <= cfg.maxAttempts
      invariant Retrying(cfg, env.runner, attempt - 1, progress)
      invariant Waiting(cfg, b, start, env, log, attempt - 1)
      decreases cfg.maxAttempts - attempt
    {
      var ended;
      ended, progress, log := MakeAttempt(cfg, env, b, attempt, progress, start, log);
      if ended.Some? {
        return ended.value, log;
      }
      attempt := attempt + 1;
    }
    var finalReason := FinalReason(cfg, progress.last, progress.timedOut);
    var result := BuildFinalResult(cfg, env.runner, false, cfg.maxAttempts, progress, finalReason);
    r := Done(result);
  }

  // ---- what follows for every run ----

  /** The number of attempts is determined by the outcomes. */
  lemma OneEnd(cfg: Config, runner: int -> Outcome, k: int, k': int)
    requires EndsAt(cfg, runner, k) && EndsAt(cfg, runner, k')
    ensures k == k'
  {
    assert k < k' ==> GoesOn(cfg, runner, k);
    assert k' < k ==> GoesOn(cfg, runner, k');
  }

  /** Without runner errors a run that may make an attempt has an end. */
  lemma {:induction false} SomeEnd(cfg: Config, runner: int -> Outcome, from: int) returns (k: int)
    requires 1 <= from <= cfg.maxAttempts
    requires forall i :: 1 <= i <= cfg.maxAttempts ==> !runner(i).RunnerError?
    requires AllGoOn(cfg, runner, from - 1)
    ensures EndsAt(cfg, runner, k)
    decreases cfg.maxAttempts - from
  {
    if from == cfg.maxAttempts || ShouldStop(Judge(cfg, OutputOf(runner(from)))) {
      return from;
    }
    assert GoesOn(cfg, runner, from);
    k := SomeEnd(cfg, runner, from + 1);
  }

  // ---- a result in terms of what the command did ----

  /** The exit code of an attempt; -1 when it timed out. */
  function Code(o: Outcome): int {
    if o.Finished? then o.output.exitCode else -1
  }

  /** The pattern occurs in either output stream; a timed-out attempt has two empty ones. */
  ghost predicate Hit(pattern: Option<string -> bool>, o: Outcome) {
    pattern.Some? && if o.Finished? then pattern.value(o.output.stdout) || pattern.value(o.output.stderr)
                     else pattern.value("")
  }

  ghost predicate Fatal(cfg: Config, o: Outcome) {
    cfg.conditions.Some? && Hit(cfg.conditions.value.failurePattern, o)
  }

  ghost predicate Redeemed(cfg: Config, o: Outcome) {
    cfg.conditions.Some? && Hit(cfg.conditions.value.successPattern, o)
  }

  /** Without patterns: exit code 0. With them: no failure pattern, and a success pattern or exit code 0. */
  ghost predicate Won(cfg: Config, o: Outcome) {
    !Fatal(cfg, o) && (Redeemed(cfg, o) || Code(o) == 0)
  }

  /** What a result must say of the attempts. */
  ghost predicate FollowsTrace(cfg: Config, runner: int -> Outcome, r: Result) {
    var k := r.attemptCount;
    && 1 <= k <= cfg.maxAttempts
    && (forall i :: 1 <= i <= k ==> !runner(i).RunnerError?)
    && (forall i :: 1 <= i < k ==> !Won(cfg, runner(i)) && !Fatal(cfg, runner(i)))
    && (k == cfg.maxAttempts || Won(cfg, runner(k)) || Fatal(cfg, runner(k)))
    && r.success == Won(cfg, runner(k)) && r.exitCode == Code(runner(k))
    && (r.timedOut <==> exists i :: 1 <= i <= k && runner(i).TimedOut?)
    && ReasonFollows(cfg, runner(k), r)
    && |r.metrics.attempts| == k
    && forall i :: 1 <= i <= k ==>
         r.metrics.attempts[i - 1].exitCode == Code(runner(i))
             && r.metrics.attempts[i - 1].success == Won(cfg, runner(i))
  }

  /** A pattern that ended the run is the reason; else the exit code, or for a failed run with a timeout
      the timeout; and a failed run that was allowed several attempts says that they are used up. */
  ghost predicate ReasonFollows(cfg: Config, last: Outcome, r: Result) {
    if Fatal(cfg, last) then r.reason == FailurePattern
    else if Redeemed(cfg, last) then r.reason == SuccessPattern
    else if Code(last) == 0 then r.reason == ExitCode(0)
    else
      var inner := if r.timedOut then Timeout else ExitCode(Code(last));
      r.reason == if cfg.maxAttempts == 1 then inner else MaxRetries(inner)
  }

  lemma VerdictFollows(cfg: Config, o: Outcome)
    ensures var v := Judge(cfg, OutputOf(o));
      && v.success == Won(cfg, o) && (v.reason == FailurePattern <==> Fatal(cfg, o))
      && (!Fatal(cfg, o) && Redeemed(cfg, o) ==> v.reason == SuccessPattern)
      && (!Fatal(cfg, o) && !Redeemed(cfg, o) ==> v.reason == ExitCode(Code(o)))
    ensures OutputOf(o).exitCode == Code(o)
  {
  }

  /** Every run that was allowed an attempt and met no runner error reports exactly its trace: it ends
      with the first attempt that wins or is fatal, else with the last one allowed. */
  lemma ResultFollowsTrace(cfg: Config, runner: int -> Outcome, r: Result)
    requires 1 <= cfg.maxAttempts && Explained(cfg, runner, Done(r))
    ensures FollowsTrace(cfg, runner, r)
  {
    var k :| ExplainedBy(cfg, runner, k, Done(r));
    forall i ensures var v := Judge(cfg, OutputOf(runner(i)));
        v.success == Won(cfg, runner(i)) && (v.reason == FailurePattern <==> Fatal(cfg, runner(i)))
    {
      VerdictFollows(cfg, runner(i));
    }
    forall i | 1 <= i < k ensures !runner(i).RunnerError? && !Won(cfg, runner(i)) && !Fatal(cfg, runner(i)) {
      assert GoesOn(cfg, runner, i);
    }
    forall i | 1 <= i <= k
      ensures r.metrics.attempts[i - 1].exitCode == Code(runner(i))
          && r.metrics.attempts[i - 1].success == Won(cfg, runner(i))
    {
      assert r.metrics.attempts[i - 1] == MetricOf(cfg, runner(i));
      VerdictFollows(cfg, runner(i));
    }
    LastFollows(cfg, runner, k, r);
  }

  lemma LastFollows(cfg: Config, runner: int -> Outcome, k: int, r: Result)
    requires EndsAt(cfg, runner, k) && Describes(cfg, runner, k, r)
    ensures r.success == Won(cfg, runner(k)) && r.exitCode == Code(runner(k)) && ReasonFollows(cfg, runner(k), r)
    ensures k == cfg.maxAttempts || Won(cfg, runner(k)) || Fatal(cfg, runner(k))
  {
    VerdictFollows(cfg, runner(k));
  }

  /** Without patterns: success at the first attempt that finishes with exit code 0; all earlier ones
      timed out or finished with another code. */
  lemma PlainRunSucceedsOnZero(cfg: Config, runner: int -> Outcome, r: Result)
    requires 1 <= cfg.maxAttempts && cfg.conditions.None? && Explained(cfg, runner, Done(r))
    ensures r.success <==> runner(r.attemptCount).Finished? && runner(r.attemptCount).output.exitCode == 0
    ensures forall i :: 1 <= i < r.attemptCount ==>
      runner(i).TimedOut? || (runner(i).Finished? && runner(i).output.exitCode != 0)
    ensures r.success || r.attemptCount == cfg.maxAttempts
  {
    ResultFollowsTrace(cfg, runner, r);
    forall i | 1 <= i < r.attemptCount
      ensures runner(i).TimedOut? || (runner(i).Finished? && runner(i).output.exitCode != 0) {
      assert !Won(cfg, runner(i));
    }
  }

  predicate MentionsFailurePattern(r: Reason) {
    r == FailurePattern || (r.MaxRetries? && MentionsFailurePattern(r.last))
  }

  /** The exit status the shell sees: os.Exit keeps the low eight bits. */
  function CliStatus(r: Result): int {
    if r.success then 0 else if MentionsFailurePattern(r.reason) then 1 else r.exitCode % 256
  }

  /** The status is zero exactly on success for the codes a command can have, -1 to 255, and so for
      every run from the command line, which only lets 1 to 1000 attempts through
      (cmd/patience/subcommands.go:49, pkg/config/config.go:511). With a CommandRunner of one's own
      the one exception is a failing code that is a multiple of 256. */
  lemma CliStatusTellsSuccess(cfg: Config, runner: int -> Outcome, r: Result)
    requires 1 <= cfg.maxAttempts && Explained(cfg, runner, Done(r))
    ensures CliStatus(r) == 0 <==> r.success || (!MentionsFailurePattern(r.reason) && r.exitCode % 256 == 0)
    ensures -1 <= r.exitCode <= 255 ==> (CliStatus(r) == 0 <==> r.success)
  {
    FailedWithCodeZeroExactly(cfg, runner, r);
  }

  /** All statuses of a run: 0 for a success, 1 when the failure pattern ended it, 255 when its last
      attempt timed out, and else the exit code of that attempt, as far as a status can show it. */
  lemma CliStatusIs(cfg: Config, runner: int -> Outcome, r: Result)
    requires 1 <= cfg.maxAttempts && Explained(cfg, runner, Done(r))
    ensures var last := runner(r.attemptCount);
      && (Won(cfg, last) ==> CliStatus(r) == 0)
      && (Fatal(cfg, last) ==> CliStatus(r) == 1)
      && (!Won(cfg, last) && !Fatal(cfg, last) && last.TimedOut? ==> CliStatus(r) == 255)
      && (!Won(cfg, last) && !Fatal(cfg, last) && 0 <= Code(last) <= 255 ==> CliStatus(r) == Code(last))
  {
    ResultFollowsTrace(cfg, runner, r);
    var last := runner(r.attemptCount);
    assert ReasonFollows(cfg, last, r);
    assert !MentionsFailurePattern(Timeout) && !MentionsFailurePattern(ExitCode(Code(last)));
  }

  /** A failure that shows neither an exit code nor a failure pattern comes only from a run that was
      allowed no attempt, as a caller of the package can ask for; and from each such run, unless the
      failure pattern matches the empty text. */
  lemma FailedWithCodeZeroExactly(cfg: Config, runner: int -> Outcome, r: Result)
    requires Explained(cfg, runner, Done(r))
    ensures !r.success && r.exitCode == 0 && !MentionsFailurePattern(r.reason)
       <==> cfg.maxAttempts < 1 && !(cfg.conditions.Some? && Found(cfg.conditions.value.failurePattern, "", ""))
  {
    var k :| ExplainedBy(cfg, runner, k, Done(r));
    if cfg.maxAttempts < 1 {
      ReasonMentions(cfg, NOTHING_YET.last, false);
    } else {
      ReasonMentions(cfg, OutputOf(runner(k)), r.timedOut);
      assert runner(k).TimedOut? ==> OutputOf(runner(k)).exitCode == -1;
    }
  }

  lemma ReasonMentions(cfg: Config, last: Output, timedOut: bool)
    ensures MentionsFailurePattern(FinalReason(cfg, last, timedOut))
        <==> !timedOut && Judge(cfg, last).reason == FailurePattern
    ensures Judge(cfg, last).reason == FailurePattern
       <==> cfg.conditions.Some? && Found(cfg.conditions.value.failurePattern, last.stdout, last.stderr)
    ensures !Judge(cfg, last).success && Judge(cfg, last).reason != FailurePattern ==> last.exitCode != 0
  {
    var v := Judge(cfg, last);
    assert MentionsFailurePattern(v.reason) <==> v.reason == FailurePattern;
    assert !MentionsFailurePattern(Timeout);
  }

  /** A run stops early only with a success or a failure-pattern match, so a success is always the
      last attempt and the only one. */
  lemma SuccessOnlyLast(cfg: Config, runner: int -> Outcome, k: int, r: Result)
    requires EndsAt(cfg, runner, k) && Describes(cfg, runner, k, r)
    ensures k < cfg.maxAttempts ==> r.success || r.reason == FailurePattern
    ensures forall i :: 0 <= i < k ==> (r.metrics.attempts[i].success <==> i == k - 1 && r.success)
  {
    forall i | 0 <= i < k - 1 ensures !r.metrics.attempts[i].success {
      assert GoesOn(cfg, runner, i + 1);
    }
  }

  // ---- what the strategy was told and asked ----

  /** The pause after attempt `n` when the strategy does not learn: what the output of that very
      attempt asks for, if anything, else the fallback delay. */
  ghost function PauseAfter(s: State, env: Env, n: int): int {
    if s.Reader? && OutputTiming(s.maxRetryAfter, s.lib, env, n) > 0 then OutputTiming(s.maxRetryAfter, s.lib, env, n)
    else env.fallback(n)
  }

  /** Every pause of such a run follows from the attempt before it alone. */
  lemma {:induction false} EveryPauseFollowsItsOutput(cfg: Config, s: State, env: Env, log: Log)
    requires !s.Learner? && Proper(cfg, s, env, log)
    ensures forall n :: 1 <= n < |log| ==> log[n - 1].computed == PauseAfter(s, env, n)
    ensures StateAfter(s, env, log) == if log == [] || s.Stateless? then s
                                       else s.(lastRetryAfter := OutputTiming(s.maxRetryAfter, s.lib, env, |log|))
  {
    if log != [] {
      var init := log[..|log| - 1];
      EveryPauseFollowsItsOutput(cfg, s, env, init);
      assert forall i :: 0 <= i < |init| ==> init[i] == log[i];
    }
  }

  /** The log names the outcome of every attempt. */
  lemma {:induction false} LogIsTheTrace(cfg: Config, s: State, env: Env, log: Log)
    requires Proper(cfg, s, env, log)
    ensures forall i :: 0 <= i < |log| ==>
      log[i].success == Success(cfg, env.runner, i + 1) && log[i].latency == env.latency(i + 1)
  {
    if log != [] {
      var init := log[..|log| - 1];
      LastIsProper(cfg, s, env, log);
      LogIsTheTrace(cfg, s, env, init);
      assert forall i :: 0 <= i < |init| ==> init[i] == log[i];
    }
  }

  lemma LastIsProper(cfg: Config, s: State, env: Env, log: Log)
    requires log != [] && Proper(cfg, s, env, log)
    ensures Proper(cfg, s, env, log[..|log| - 1])
    ensures log[|log| - 1].success == Success(cfg, env.runner, |log|) && log[|log| - 1].latency == env.latency(|log|)
  {
  }

  /** A learner is asked about every pause twice, in the same state. */
  lemma {:induction false} LearnerIsAskedTwice(cfg: Config, l: Adaptive.Learner, env: Env, log: Log)
    requires Proper(cfg, Learner(l), env, log)
    ensures Adaptive.Attempts(l, log, env.fallback)
    ensures StateAfter(Learner(l), env, log) == Learner(Adaptive.After(l, log))
  {
    if log != [] {
      var init, last := log[..|log| - 1], log[|log| - 1];
      LearnerIsAskedTwice(cfg, l, env, init);
      Adaptive.AttemptsGrow(l, init, env.fallback, last);
      assert log == init + [last];
    }
  }

  /** A learner that starts empty hears of nothing but failures before it is asked, in any run: it
      rates every bucket 0, so its best bucket is unique exactly when at most one bucket has two
      samples; and then the delay reported is the delay computed before the attempt. */
  lemma FreshLearnerHearsFailures(cfg: Config, l: Adaptive.Learner, env: Env, log: Log, n: nat)
    requires l.recorded == [] && Proper(cfg, Learner(l), env, log)
    requires 1 <= n < |log| && AllGoOn(cfg, env.runner, |log| - 1)
    ensures var told := Adaptive.After(l, log[..n]);
      && (forall i :: i in Adaptive.BucketsOf(told) ==> Adaptive.BucketsOf(told)[i].successRate == 0.0)
      && (Adaptive.UniqueBest(told) <==> Adaptive.OneEligible(Adaptive.BucketsOf(told)))
      && (Adaptive.OneEligible(Adaptive.BucketsOf(told)) ==> log[n].reported == log[n - 1].computed)
      && (Adaptive.OneEligible(Adaptive.BucketsOf(told)) && env.fallback(n) >= 0 ==>
            log[n].reported == Adaptive.Slept(log[n - 1]))
  {
    var told := Adaptive.After(l, log[..n]);
    LogIsTheTrace(cfg, Learner(l), env, log);
    LearnerIsAskedTwice(cfg, l, env, log);
    forall i | 0 <= i < n ensures !log[..n][i].success {
      assert GoesOn(cfg, env.runner, i + 1);
    }
    Adaptive.FailedRunTeachesFailures(l, log[..n]);
    Adaptive.UniqueBestAfterFailures(told);
    if Adaptive.UniqueBest(told) { Adaptive.ReportedIsSlept(l, log, env.fallback, n); }
  }
}
