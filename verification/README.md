# Retry scheduling, learning and bookkeeping of `patience`, in Dafny

`patience` runs a command again and again until it succeeds. Around the retry loop it keeps a
daemon that admits planned requests under a rate limit, strategies that read delays out of the
command's output or learn them from past outcomes, condition and JSON matchers that decide what
counts as success, a worker pool that serves connections, and a store of run metrics. This project
models that logic and proves what it promises, over all inputs, all runs and all interleavings.

Each module follows one source file (or one part of it): `RateWindows` and `Diophantine` (admission
check), `Scheduler`, `SchedulerRuns`, `CleanupTransparency` and `ExecutorIds` (request table, whole
runs of it, what cleanup can show, and what the executor's request IDs do to it, with their text in
`RequestIds`), `BraceScanner`,
`JsonText` and `HttpAware` (finding a retry delay in output), `WorkerPool`, `Adaptive` and
`AdaptiveDefaults`, `Conditions` and `Executor`, `JsonMatcher`, `Storage` and `Aggregation`, `RunningMean`, `DecorrelatedJitter`.
`Filters`, `SortSlice`, `KeyedLists`, `GoNumbers` and `Wrappers` are shared. Code that updates fields
is a class, code that loops is a method proved against a specification function or predicate, and the
properties are lemmas about those.

Conventions: times and durations are integer nanoseconds; `float64` is `real`; a call that holds a
mutex is one atomic step; clock readings, random draws, command outcomes, regular expressions,
`strconv` and `encoding/json` are parameters.

## What turned out to be false

Each of these is kept as the code has it, with the input that shows it and the exact condition under
which the code does meet the property.

- The rate limit over everything ever registered fails when registrations expire too early. Say that a
  planned request is due at most `late` before the clock reading of its check; the caller reads its own
  clock before the daemon does (pkg/executor/executor.go:243, pkg/daemon/scheduler.go:86), so with an
  offset of zero `late` is the time the question takes to arrive. The limit holds for every such run
  exactly when the lifetime is at least the window plus `late`, the limit is zero, or the window is
  empty (`SafeExactlyWhenLifetimeCoversWindow`). The executor fixes the lifetime at one hour
  (pkg/executor/executor.go:325) and the default window is one hour (cmd/patience/subcommands.go:1117),
  so the defaults are safe only for questions that take no time at all.
- The executor's request IDs hold a Unix second and an index, so of a second plan for the same
  resource within one second only the entries beyond the length of the first land
  (`SecondPlanLands`). Every further plan of that second is then checked against the first alone, and
  any number of them is admitted (`OneSecondAdmitsAnyNumber`). When window and `late` fit into the hour
  the limit over everything admitted holds in all runs exactly when two copies of the plan less than a
  second apart never fit the limit (`SafeAsIssuedExactly`); plans whose offsets are all equal have an
  exact condition for every window (`EqualOffsetsSafeExactly`). A plan of at most half the limit, like the
  default of three attempts under 100 an hour, does not meet that (`HalfTheLimitLeavesRoom`).
- Cleanup is not always invisible. It is exactly when every ID that is used again while stored is
  used before its registration expires, or for a request that is itself expired
  (`CleanupUnseenExactly`, shown on one reused ID by `ReusedIdShowsCleanup`).
- A connection that was accepted can stay in the queue for ever after Stop, neither served nor
  closed, although Stop is called graceful (`StoppedQueueIsStranded`). A Stop can do this exactly when,
  at the moment it takes the lock, a connection is queued or a submitter has passed the started test
  (`StrandsExactly`).
- When delay buckets tie, the delay reported to the learner need not be the one slept: with the
  defaults of the command line a command that keeps failing runs into the first tie after seven
  attempts (`TieSplitsTheDelay`). After any run the next report is bound to be the delay slept exactly
  when the learner knows fewer than three outcomes or the tied buckets lead to the same delay, and
  moreover no answer is negative (`ReportedIsSleptExactly`). For learning rates of at least two in a
  billion and a fallback delay that is not negative that means no tie (`DeterminedExactly`), and for a
  learner that starts empty, at most one bucket with two samples (`FreshLearnerHearsFailures`).
- JSON on standard error is not always read: it is ignored exactly behind a standard output of at
  least 10 * 1024 - 1 bytes, one less than the search limit, because of the joining newline
  (`StderrIgnoredExactly`).
- `Executor.Run` called from Go code with fewer than one allowed attempt
  reports a failure with exit code 0 and no failure pattern, and no other run does
  (`FailedWithCodeZeroExactly`); the command line refuses such a setting
  (cmd/patience/subcommands.go:49, pkg/config/config.go:511).
- A negative rate limit still admits the empty plan on an idle resource, and nothing else
  (`NegativeLimitAdmitsNothing`); the command line refuses limits below 1
  (cmd/patience/subcommands.go:635).
- A cap below the base delay is exceeded by every decorrelated-jitter delay, a cap that is not is
  exceeded by none (`DelayRespectsBaseAndCap`).

## Model

| member | source | states |
|---|---|---|
| `Diophantine.Strategy.CanScheduleRequest` | pkg/backoff/diophantine.go:26-55 | sorting in place and counting only from request times answers yes exactly when every window, at any instant, holds at most the limit of existing plus planned times (or there are none at all) |
| `Diophantine.AdmitsIsTheLimit` | pkg/backoff/diophantine.go:26-55 | for a non-negative limit the answer is: for every instant t, existing plus planned requests in [t, t+window) are at most the limit |
| `RateWindows.RunsDecideEveryWindow` | pkg/backoff/diophantine.go:38-54 | in a sorted list, windows that start at an entry decide the limit for all windows, both directions |
| `Diophantine.SortingKeepsTheAnswer` | pkg/backoff/diophantine.go:35-37 | a permutation keeps the limit over every window |
| `Diophantine.FewerExistingStillAdmits` | pkg/backoff/diophantine.go:26-55 | a yes survives removing existing requests; the answer depends on them only as a multiset |
| `Diophantine.NegativeLimitAdmitsNothing` | pkg/backoff/diophantine.go:40-54 | a negative limit says yes exactly to an empty plan with no existing request |
| `RateWindows.PlanShift` | pkg/backoff/diophantine.go:28-33 | a plan fits the limit at every start or at none |
| `Scheduler.RequestScheduler.constructor` | pkg/daemon/scheduler.go:18-22 | the table starts empty |
| `Scheduler.RequestScheduler.AddRequest` | pkg/daemon/scheduler.go:25-41 | refused exactly when the ID is stored under any resource, and then nothing changes; otherwise appended to its own resource and nothing else changes |
| `Scheduler.RequestScheduler.GetActiveRequests` | pkg/daemon/scheduler.go:44-59 | the unexpired requests of the resource, in registration order |
| `Scheduler.RequestScheduler.CleanupExpiredRequests` | pkg/daemon/scheduler.go:62-76 | every resource keeps exactly its unexpired requests in order, whatever the map iteration order |
| `Scheduler.RequestScheduler.CanScheduleWithStrategy` | pkg/daemon/scheduler.go:79-95 | yes exactly when the plan added to the requests active now respects the limit in every window |
| `Scheduler.RequestScheduler.GetNextAvailableSlot` | pkg/daemon/scheduler.go:98-110 | the least of 1440 minute steps that is schedulable at its own clock reading, else the preferred time plus 24 hours |
| `Scheduler.SlotMustBeFound` | pkg/daemon/scheduler.go:98-110 | if the active requests and the plan each fit and candidate k keeps a window clear of every active request, the slot found is no later than candidate k |
| `Scheduler.SeparatedListsFit` | pkg/backoff/diophantine.go:40-54 | two lists within the limit, one a window after the other, are within it together |
| `Scheduler.OverfullMeansTomorrow` | pkg/daemon/scheduler.go:98-110 | if the active requests alone break the limit the answer is always the preferred time plus 24 hours |
| `Scheduler.AliveTwice` | pkg/daemon/scheduler.go:44-76 | filtering now and again later is the same as filtering later |
| `SchedulerRuns.RateLimitHolds` | pkg/daemon/scheduler.go:25-95 | in every run of clock ticks, cleanups and check-then-register admissions with fresh IDs, planned requests due at most `late` before the clock of their check and lifetime at least window plus `late`, everything ever registered on a resource, also what was forgotten, respects the limit in every window |
| `SchedulerRuns.SafeStep` | pkg/daemon/scheduler.go:25-95 | each step keeps the invariant: the limit over the history, stored entries outlive the window by the lateness, and every window that a request still to come can enter sees stored entries as it sees the history |
| `SchedulerRuns.ForgettingIsHarmless` | pkg/daemon/scheduler.go:62-76 | dropping expired entries changes no window that reaches past the clock less the lateness |
| `SchedulerRuns.AdmittedWindow` | pkg/daemon/scheduler.go:79-95 | after an admission every window over the whole history is within the limit although the check saw only active requests |
| `SchedulerRuns.AdmitEffect` | pkg/executor/executor.go:270-272 | registering a plan with fresh IDs appends exactly it, to its resource only |
| `SchedulerRuns.SafeExactlyWhenLifetimeCoversWindow` | pkg/executor/executor.go:317-330 | for every lateness, all runs respect the limit if and only if lifetime >= window + late, or the limit is 0, or the window is not positive |
| `SchedulerRuns.ForgettingTooEarly` | pkg/executor/executor.go:325-325 | a shorter lifetime always has a four-step run that puts twice the limit into one window |
| `ExecutorIds.CreatePlannedRequests` | pkg/executor/executor.go:317-330 | one entry per offset at base plus offset that expires one hour after it is due, under an ID of resource, Unix second and index |
| `ExecutorIds.SecondPlanLands` | pkg/executor/executor.go:317-330 | of two plans registered one after the other the second lands from the index on where the first ends if they share a second, else whole; all of it lands if and only if the seconds differ or a plan is empty |
| `ExecutorIds.SafeAsIssuedExactly` | pkg/executor/executor.go:317-330 | with these IDs and window plus lateness within an hour, everything admitted respects the limit in every run if and only if two copies of the plan less than a second apart never fit it, or the plan or the window is empty; the condition is needed for every window |
| `ExecutorIds.EqualOffsetsSafeExactly` | pkg/executor/executor.go:317-330 | for plans whose offsets are all equal and any window: all runs are safe if and only if no plan gets in, or two copies never fit and an hour covers window plus lateness |
| `RequestIds.RequestIdTellsApart` | pkg/executor/executor.go:322-322 | the text of an ID determines resource, second since 1970 and index |
| `RequestIds.NegativeSecondsCollide` | pkg/executor/executor.go:322-322 | before 1970 it does not |
| `ExecutorIds.RequestIdDistinguishes` | pkg/executor/executor.go:322-322 | so the results for any rendering that tells requests apart hold of the one in use |
| `ExecutorIds.IssuedIsFresh` | pkg/daemon/scheduler.go:25-41 | if a second plan of a second is always refused, every admitted plan has IDs that are not stored, across all resources and cleanups |
| `ExecutorIds.OneSecondAdmitsAnyNumber` | pkg/daemon/scheduler.go:25-95 | if two copies fit, there is for every n a run that admits n plans on top of the first within one second |
| `ExecutorIds.HalfTheLimitLeavesRoom` | cmd/patience/subcommands.go:1115-1118 | a plan of at most half the limit fits twice at once |
| `CleanupTransparency.CleanupIsInvisible` | pkg/daemon/scheduler.go:25-95 | with distinct IDs, a table cleaned at arbitrary moments and one never cleaned give the same active lists in the same order, and the same scheduling answers, at every later instant |
| `CleanupTransparency.CleanupUnseenExactly` | pkg/daemon/scheduler.go:25-76 | for every list of calls from any table, no way to insert cleanups changes an active list after any call, if and only if each reuse of a stored ID comes before its registration expires or adds an expired request |
| `CleanupTransparency.OneStep` | pkg/daemon/scheduler.go:25-76 | each such call keeps the active lists of the cleaned and the uncleaned table equal and the IDs of the first among those of the second |
| `CleanupTransparency.LateReuse` | pkg/daemon/scheduler.go:25-76 | any other list of calls has a place where one cleanup shows |
| `CleanupTransparency.ReusedIdShowsCleanup` | pkg/daemon/scheduler.go:25-41 | an ID used again at time 1 shows a cleanup exactly when its first request has expired by then |
| `CleanupTransparency.IdsStayUnique` | pkg/daemon/scheduler.go:25-76 | stored IDs stay unique across all resources in every run |
| `BraceScanner.FindMatchingBrace` | pkg/backoff/http_aware.go:196-238 | returns the first position up to which the text is complete strings and marks with balanced braces; -1 exactly when there is no such position |
| `BraceScanner.FeedTokens` | pkg/backoff/http_aware.go:206-235 | over complete quoted strings and single characters the three loop variables move by exactly the brace balance outside strings |
| `BraceScanner.Tokenize` | pkg/backoff/http_aware.go:206-235 | every text is complete tokens followed by at most one unfinished string, and the loop variables say which |
| `JsonText.ValueIsNeutral` | pkg/backoff/http_aware.go:206-235 | the scan passes over any JSON value of RFC 8259 without net depth and without going below its start |
| `JsonText.ObjectCloses` | pkg/backoff/http_aware.go:196-238 | for every object tree with any whitespace, nesting, escapes and braces in strings, anywhere in a text and followed by anything, the brace found is the object's own |
| `JsonText.NoMatchMeansNoObject` | pkg/backoff/http_aware.go:196-238 | -1 means no JSON object starts at that brace |
| `HttpAware.MatchIsUnique` | pkg/backoff/http_aware.go:196-238 | the brace that FindMatchingBrace may answer is determined |
| `HttpAware.ReadFields` | pkg/backoff/http_aware.go:171-186 | the delay of the first of the five retry fields that is present and holds a number, in whole seconds towards zero, or a text of digits; none if no field does |
| `HttpAware.TryBrace` | pkg/backoff/http_aware.go:150-190 | at one brace the search ends with the delay of the object there, or goes on strictly further with the same delay ahead |
| `HttpAware.ParseJsonResponse` | pkg/backoff/http_aware.go:131-193 | terminates and, on any text, returns the delay of the first outermost object with a readable retry field, 0 if there is none; an object is outermost if it lies in no earlier outermost one, and braces without a match or around text that does not decode hide nothing |
| `HttpAware.VisitsTheOutermost` | pkg/backoff/http_aware.go:139-192 | on any text the search visits exactly the outermost objects, in order |
| `HttpAware.AnswerIsUnique` | pkg/backoff/http_aware.go:131-193 | that delay is determined |
| `HttpAware.VisitsExactlyTheObjects` | pkg/backoff/http_aware.go:139-192 | on brace-free text woven with JSON objects the search visits exactly these objects, in order |
| `HttpAware.DelayOfWovenOutput` | pkg/backoff/http_aware.go:131-193 | on such output within the size limit the delay is that of the first object with a readable retry field, 0 if there is none |
| `HttpAware.HTTPAware.ProcessCommandOutput` | pkg/backoff/http_aware.go:50-81 | the remembered delay is that of a positive Retry-After header, else of a positive retry-after rate-limit header, else, only without such a header, the time to a reset still to come, else of the JSON body; reduced to the cap if that is set and smaller; 0 otherwise: nothing of an earlier output survives |
| `HttpAware.TimingIsCapped` | pkg/backoff/http_aware.go:241-246 | the remembered delay is never negative, is within a set cap, and is positive exactly when a source offers a positive delay |
| `HttpAware.StderrIgnoredExactly` | pkg/backoff/http_aware.go:50-81 | behind standard outputs of length n the JSON delay never depends on standard error, for all texts and libraries, if and only if n is at least the search limit less one |
| `HttpAware.OnlyTheHeadOfStderrMatters` | pkg/backoff/http_aware.go:50-81 | standard errors that agree in the bytes left by standard output and the newline give the same JSON delay |
| `WorkerPool.PoolSize` | pkg/daemon/worker_pool.go:29-35 | the requested number between 1 and 1000, 10 for less and 1000 for more |
| `WorkerPool.InvRun` | pkg/daemon/worker_pool.go:50-143 | every interleaving of Start, submitters, workers and Stop keeps conservation, answers and phases |
| `WorkerPool.ConservedStep` | pkg/daemon/worker_pool.go:98-143 | each atomic step keeps every connection in one place, and what was taken is held or served |
| `WorkerPool.PhasesStep` | pkg/daemon/worker_pool.go:50-95 | each step keeps the queue within twice the workers, first in first out, and the wait group equal to the live workers |
| `WorkerPool.AnsweredStep` | pkg/daemon/worker_pool.go:98-120 | each step keeps yes exactly for the sent and no exactly for the closed connections |
| `WorkerPool.ExactlyOnePlace` | pkg/daemon/worker_pool.go:98-143 | in every reachable state a submitted connection is with its submitter, queued, with one worker or closed: exactly one, and closed at most once |
| `WorkerPool.AnswersTellThePlace` | pkg/daemon/worker_pool.go:98-120 | submit says no exactly for what it closed itself and yes exactly for what it queued; the queue never exceeds twice the workers and is served in order |
| `WorkerPool.RefusedMeansFull` | pkg/daemon/worker_pool.go:107-120 | until Stop cancels the context a submitter past the test is refused only when exactly twice as many connections as workers are queued |
| `WorkerPool.SubmitNeverWaits` | pkg/daemon/worker_pool.go:98-120 | a submitter always has a step to take, and below twice the workers one that queues its connection and says yes |
| `WorkerPool.FullHappens` | pkg/daemon/worker_pool.go:29-66 | a pool of any size reaches a state with every worker busy and twice as many connections queued |
| `WorkerPool.StopLeavesNoWorker` | pkg/daemon/worker_pool.go:70-95 | when the effective Stop has returned no worker is left and none holds a connection |
| `WorkerPool.StoppedQueueIsStranded` | pkg/daemon/worker_pool.go:70-95 | after that, in every continuation, what is queued is never served and never closed |
| `WorkerPool.StrandsExactly` | pkg/daemon/worker_pool.go:70-120 | from every reachable started pool, some continuation of a Stop returns with a connection queued if and only if a connection is queued or a submitter has passed the test when Stop takes the lock |
| `WorkerPool.StopDrains` | pkg/daemon/worker_pool.go:70-143 | from any marked state Stop can return with queue and submitters as they were |
| `WorkerPool.StrandingHappens` | pkg/daemon/worker_pool.go:98-120 | a pool is reachable in which nothing is queued, one submitter has passed the test, and Stop can strand |
| `Adaptive.NewAdaptive` | pkg/backoff/adaptive.go:43-64 | a learner exists exactly for a fallback strategy, a rate in (0, 1] and a memory of 1 to 10000 |
| `Adaptive.Adaptive.RecordOutcome` | pkg/backoff/adaptive.go:94-115 | memory is the last min(n, window) outcomes in order; each bucket holds the number and total latency of the remembered outcomes in its range, and as rate the sum of rate * (1-rate)^a over its successes, where a counts its later outcomes |
| `Adaptive.Adaptive.UpdateDelayBuckets` | pkg/backoff/adaptive.go:163-197 | buckets reset and rebuilt in place equal the fold of count, latency and moving-average rate over the remembered outcomes |
| `Adaptive.LearnedSumsUp` | pkg/backoff/adaptive.go:163-214 | the moving-average fold is that closed sum for every memory and bucket |
| `Adaptive.Adaptive.FindBucketIndex` | pkg/backoff/adaptive.go:201-214 | in any map order, the one bucket whose range holds the delay; the last for longer ones, -1 for negative ones |
| `Adaptive.Adaptive.InitializeBuckets` | pkg/backoff/adaptive.go:280-306 | fresh buckets are the fold of no outcomes |
| `Adaptive.Adaptive.ResetBuckets` | pkg/backoff/adaptive.go:167-173 | resetting in any map order gives the fold of no outcomes |
| `Adaptive.Adaptive.CalculateOptimalDelay` | pkg/backoff/adaptive.go:118-146 | blends the midpoint of some eligible bucket with no better eligible one; 0 exactly in the absence of eligible buckets or from the blend |
| `Adaptive.Adaptive.Delay` | pkg/backoff/adaptive.go:67-91 | the fallback for attempts below 1, for fewer than three outcomes and for a non-positive learned delay, else a learned delay |
| `Adaptive.RateBounds` | pkg/backoff/adaptive.go:163-197 | each success rate lies in [0, 1-(1-rate)^n]; all successes reach the top, and below rate 1 only they do |
| `Adaptive.SamplesAddUp` | pkg/backoff/adaptive.go:163-214 | sample counts add up to the remembered outcomes with non-negative delay |
| `Adaptive.BlendBetween` | pkg/backoff/adaptive.go:149-159 | a blend of non-negative delays lies between them after truncation |
| `Adaptive.LearnedDelayIsBetween` | pkg/backoff/adaptive.go:67-159 | any learned delay lies between the midpoint of a best eligible bucket and the fallback delay |
| `Adaptive.ReportedIsSlept` | pkg/executor/executor.go:375-385 | in every run of the retry loop, when the best buckets agree or the learner is too young to be asked, the delay reported after an attempt is the one computed before it, and the one slept if the fallback is not negative |
| `Adaptive.ReportedIsSleptExactly` | pkg/executor/executor.go:375-385 | after any run the next report is bound to equal the next sleep if and only if fewer than three outcomes are known or the best buckets lead to one delay, and no possible answer is negative |
| `Adaptive.DeterminedExactly` | pkg/backoff/adaptive.go:67-159 | for every learner one delay is possible if and only if the attempt is below 1, fewer than three outcomes are known, or all best buckets lead to the same delay; for rates of at least 2e-9 and a fallback not negative, if and only if no two buckets tie |
| `AdaptiveDefaults.TieSplitsTheDelay` | cmd/patience/subcommands.go:974-1012 | a run of the default learner on the default exponential fallback, from an empty memory, whose eighth attempt sleeps 54.35 seconds and reports 56 |
| `Adaptive.UniqueBestAfterFailures` | pkg/backoff/adaptive.go:118-197 | a learner told only of failures rates every bucket 0, so its best bucket is unique exactly when at most one has two samples |
| `Conditions.CheckSuccess` | pkg/conditions/conditions.go:63-96 | a failure-pattern match always fails; otherwise success is a success-pattern match or exit code 0; the reason names the pattern or the code |
| `Executor.Run` | pkg/executor/executor.go:441-552 | ends with the first success or failure-pattern match, else with the last attempt allowed; result, stats, metrics and timed-out flag agree with that trace; aborts exactly at the first runner error; the strategy has been told of and asked about exactly the attempts of the log, in order |
| `Executor.ResultFollowsTrace` | pkg/executor/executor.go:350-439 | every result in terms of exit codes, timeouts and pattern matches of the attempts: the run ends with the first attempt that wins or matches the failure pattern, else the last allowed; success, exit code, timeout flag, reason and every metric follow |
| `Executor.PlainRunSucceedsOnZero` | pkg/executor/executor.go:353-367 | without patterns a run succeeds exactly when its last attempt finished with exit code 0; every earlier one timed out or finished with another code |
| `Executor.MakeAttempt` | pkg/executor/executor.go:461-544 | one pass keeps the trace and the log in step, or ends the run explained |
| `Executor.RecordStrategyOutcome` | pkg/executor/executor.go:375-394 | a learner is told the outcome with the re-asked delay of the previous attempt, 0 for the first; a reader is shown the output of this attempt |
| `Executor.AskPause` | pkg/executor/executor.go:527-531 | the pause is an answer the strategy may give in its present state |
| `Executor.EveryPauseFollowsItsOutput` | pkg/executor/executor.go:498-544 | in every run with an HTTP-aware strategy each pause is the timing the output of the attempt just made asks for, else the fallback delay: no earlier output shows |
| `Executor.LogIsTheTrace` | pkg/executor/executor.go:485-498 | what the strategy is told of each attempt is its outcome |
| `Executor.LearnerIsAskedTwice` | pkg/executor/executor.go:375-385 | in every run pause and report are two answers to one question by one learner |
| `Executor.FreshLearnerHearsFailures` | pkg/executor/executor.go:498-544 | in every run a learner that starts empty has heard only of failures whenever it is asked: all rates are 0, its best bucket is unique exactly when at most one has two samples, and then the report is the delay computed, and slept if the fallback is not negative |
| `Executor.BuildFinalResult` | pkg/executor/executor.go:425-439 | the result describes the run that the loop variables were folded over |
| `Executor.NewRunMetrics` | pkg/metrics/metrics.go:50-81 | successes and failures partition the attempts |
| `Executor.NoAbort` | pkg/executor/executor.go:461-544 | a run with an end has no aborting attempt |
| `Executor.OneEnd` | pkg/executor/executor.go:461-544 | the number of attempts is determined by the outcomes |
| `Executor.SomeEnd` | pkg/executor/executor.go:461-544 | without runner errors every run with at least one allowed attempt has an end |
| `Executor.SuccessOnlyLast` | pkg/executor/executor.go:461-544 | a successful attempt is the last and only one; stopping early means success or a failure-pattern match |
| `Executor.CliStatusTellsSuccess` | cmd/patience/subcommands.go:448-460 | for the exit codes a command can have, -1 to 255, the status is zero exactly on success; for a runner with other codes the one exception is a failing multiple of 256 |
| `Executor.CliStatusIs` | cmd/patience/subcommands.go:448-460 | 0 for a success, 1 when the failure pattern ended the run, 255 when the last attempt timed out, else its exit code |
| `Executor.FailedWithCodeZeroExactly` | pkg/executor/executor.go:397-422 | a failed result has exit code 0 and no failure pattern if and only if no attempt was allowed and the pattern does not match the empty text |
| `JsonMatcher.ExtractValueRecursive` | pkg/patterns/json_matcher.go:238-303 | the wildcard loop computes the recursive extraction |
| `JsonMatcher.CompareEqual` | pkg/patterns/json_matcher.go:338-358 | true exactly when some nested array element equals the expected scalar |
| `JsonMatcher.JSONPatternMatcher.Match` | pkg/patterns/json_matcher.go:188-223 | an error exactly for undecodable input; otherwise the match, counted once as success, failure or, for an unresolved path, neither |
| `JsonMatcher.PathNamesThePlace` | pkg/patterns/json_matcher.go:238-313 | a path without wildcards finds a value exactly in the documents that have it in the place the path names |
| `JsonMatcher.EqualFindsTheValue` | pkg/patterns/json_matcher.go:338-358 | == matches exactly when the expected scalar itself, without conversion of kinds, is a leaf within reach |
| `JsonMatcher.NumbersAreOrdered` | pkg/patterns/json_matcher.go:361-381 | for a number and an expected number exactly one of >, < and == matches; >= is > or ==, <= is < or == |
| `JsonMatcher.OrderPointsTheRightWay` | pkg/patterns/json_matcher.go:361-381 | > survives a smaller expected number and < a larger one, each has a match one apart, and integers count as numbers |
| `JsonMatcher.OrderNeedsNumbers` | pkg/patterns/json_matcher.go:361-381 | on anything but two numbers none of the four orders matches |
| `JsonMatcher.RegexNeedsText` | pkg/patterns/json_matcher.go:384-406 | the regex operator matches exactly a text that the pattern matches |
| `JsonMatcher.ExtractKeepsLeaves` | pkg/patterns/json_matcher.go:238-303 | extraction keeps exactly the leaves that choosing an element at each wildcard reaches |
| `JsonMatcher.ResolvesExactly` | pkg/patterns/json_matcher.go:238-303 | extraction finds something exactly when the path leads somewhere |
| `JsonMatcher.EqualMatchesReachableLeaf` | pkg/patterns/json_matcher.go:316-358 | == matches exactly when some reachable value has a non-array leaf equal to the expected scalar |
| `JsonMatcher.ExactlyOneOfEqualAndNotEqual` | pkg/patterns/json_matcher.go:316-358 | exactly one of == and != matches when the path resolves, neither when not |
| `Storage.MetricsStorage.constructor` | pkg/storage/storage.go:62-69 | an empty consistent store |
| `Storage.MetricsStorage.Store` | pkg/storage/storage.go:72-88 | what is kept stays a suffix of everything stored since Clear, in time order; after a cleanup that ran it is the longest suffix young and short enough |
| `Storage.MetricsStorage.CleanupIfNeeded` | pkg/storage/storage.go:249-275 | nothing within five minutes of the last cleanup, else exactly the longest keepable suffix |
| `Storage.MetricsStorage.Clear` | pkg/storage/storage.go:241-246 | forgets everything and keeps the cleanup time |
| `Storage.MetricsStorage.GetRecent` | pkg/storage/storage.go:91-105 | the newest entries of everything stored since Clear, as many as asked for when that is 1 to the stored number, else all |
| `Storage.FilterAndTrim` | pkg/storage/storage.go:256-274 | filter and trim leave exactly the longest keepable suffix of everything stored since Clear |
| `Storage.CleanupKeepsLongest` | pkg/storage/storage.go:256-274 | this holds of the whole history, not only of what was still there before |
| `Storage.FilterIsSuffix` | pkg/storage/storage.go:258-266 | on entries in time order the age filter drops exactly a prefix |
| `Storage.LongestIsUnique` | pkg/storage/storage.go:249-275 | a cleanup has one possible outcome |
| `Aggregation.GetAggregatedStats` | pkg/storage/storage.go:123-217 | totals, averages, a sorted list with one exact record per command cut to ten, and a sorted list with one exact record per hour, over exactly the runs in range |
| `Aggregation.Accumulate` | pkg/storage/storage.go:144-203 | the pass over any runs gives their sums and one exact record per command and per hour |
| `Aggregation.MetricsInRange` | pkg/storage/storage.go:278-286 | exactly the runs strictly inside the range, in order |
| `Aggregation.HourOfIs` | pkg/storage/storage.go:183-184 | the hour of a run is the full hour that was running |
| `Aggregation.TrackCommand` | pkg/storage/storage.go:159-180 | updating one record in place keeps every record exact |
| `Aggregation.TrackHour` | pkg/storage/storage.go:183-202 | the same for hours |
| `Aggregation.RunsAreConserved` | pkg/storage/storage.go:123-217 | total = successful + failed = sum over commands before the cut = sum over hours |
| `Aggregation.RecordsAreExact` | pkg/storage/storage.go:159-180 | a listed command's record covers exactly its own runs |
| `Aggregation.HourRecordsAreExact` | pkg/storage/storage.go:183-202 | a listed hour's record covers exactly its own runs |
| `Aggregation.RatesAreExact` | pkg/storage/storage.go:159-202 | every listed rate, of a command or an hour, times its listed count is the number of successes among its own runs |
| `Aggregation.TopCommandsAreTop` | pkg/storage/storage.go:289-306 | the top list is sorted by count, and a command is left out only behind ten that ran at least as often |
| `Aggregation.CommandAverageDrift` | pkg/storage/storage.go:160-180 | a command's average duration is never high, and n times it is low by at most n(n-1)/2 |
| `RunningMean.DriftBound` | pkg/backoff/effectiveness_tracker.go:45-57 | n*avg <= sum <= n*avg + n(n-1)/2 for all non-negative samples |
| `RunningMean.DriftIsAttained` | pkg/backoff/effectiveness_tracker.go:45-57 | the samples 0, 1, ..., n-1 reach the bound for every n |
| `RunningMean.MeanBetween` | pkg/backoff/effectiveness_tracker.go:45-57 | the mean stays between the smallest and the largest sample, and the intermediate product within n times the largest |
| `RunningMean.EffectivenessTracker.RecordAttempt` | pkg/backoff/effectiveness_tracker.go:31-61 | each strategy's counters, rate and mean summarise exactly the samples recorded for it, and no other strategy changes |
| `RunningMean.CountAttempt` | pkg/backoff/effectiveness_tracker.go:39-60 | a record that summarises some samples summarises one more |
| `RunningMean.EffectivenessTracker.Reset` | pkg/backoff/effectiveness_tracker.go:134-139 | forgets all samples |
| `DecorrelatedJitter.DecorrelatedJitter.Delay` | pkg/backoff/strategy.go:170-199 | the delay and the remembered one are the next of the sequence of draws |
| `DecorrelatedJitter.PossibleExactly` | pkg/backoff/strategy.go:170-199 | a delay can be drawn if and only if it is the base, or lies above it, below a set cap, and at least a nanosecond below multiplier times the previous delay (the base when there is none) |
| `DecorrelatedJitter.DelayRespectsBaseAndCap` | pkg/backoff/strategy.go:149-199 | in every sequence of calls a delay is at least the base, and a set cap is respected exactly when it is not below the base |
| `DecorrelatedJitter.GrowthBound` | pkg/backoff/strategy.go:170-199 | the k-th delay is at most base times multiplier to the k |

## Left out

- Sockets, HTTP server, dashboard, logging, PID files, signals, process execution: input and output.
- pkg/daemon/unix_server.go and pkg/daemon/client.go: fixed-answer handlers and wire plumbing. The admission protocol is modelled at the request table, with "check, then register at the checked time" as one step; the executor registers the time from before its wait (pkg/executor/executor.go:271), which that step does not cover.
- Regular expressions, `encoding/json` and `strconv` appear as parameters only; rendering of reasons and IDs as text is not modelled, reasons are values.
- int64 overflow and float64 rounding: integers are unbounded and rates are real. `RunningMean.MeanBetween` bounds the intermediate product.
- Executor.Run: does not model the reporter or the daemon coordination before the loop, which returns no error on any path (pkg/executor/executor.go:225-280); the time an attempt takes is an input.
- WorkerPool.InvRun: Start is taken once, as the daemon takes it; a second Start after Stop is not modelled. What a worker does with a connection is one step that closes it.
- JsonMatcher.JSONPatternMatcher.Match: starts from parsed path parts and a scalar expected value; path text, `$ctx.` values and the timing fields of the metrics are not modelled.
- ExecutorIds.SafeAsIssuedExactly: when window plus lateness exceed an hour only one direction is stated for general plans; the exact condition is open there, since late entries of a plan may keep refusing what its early ones no longer can. `ExecutorIds.EqualOffsetsSafeExactly` closes it for plans that fire at once.
- JsonText.ObjectCloses: numbers are any non-empty run of digit, sign, point and exponent characters, which includes every JSON number and more.
- Aggregation.GetAggregatedStats: hours are instants instead of formatted text.
- Adaptive.Adaptive.Delay: the fallback strategy is a function of the attempt, so a fallback with random draws or state of its own is not covered.
- `limitedBuffer`, GetByTimeRange, GetBestStrategy and the getters: they would only add easy members.
- DiophantineStrategy.Delay and the Fixed, Linear, Exponential, Jitter, Fibonacci and Polynomial strategies: single formulas.
- pkg/backoff/http_aware_selector.go, pkg/discovery, pkg/config, pkg/ui and the command line.
