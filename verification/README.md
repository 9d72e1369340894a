# Verification of the epoll server's stateful components

A Dafny model of the seven components of the server that carry state, with proofs about whole runs:

- the **sliding-window limiter** with its per-key log of admission times;
- the **thread pool**, as an interleaving of the atomic steps of its workers, its callers and `shutdown`;
- the **metrics** table, its percentile window and the health rule with hysteresis;
- the **monitor** with its circuit breaker and exponential back-off;
- the **per-address request counter** and the admission test built on it;
- the **event handler**: accepting, reading, dispatching, answering, writing, sweeping, and descriptor reuse;
- the **reactor** loop that feeds it batches of events.

`dafny verify dfyconfig.toml` checks everything.

## How it is built

Each object of the source is a class whose methods update its fields in place. A ghost history (all arrivals,
all checks, all octets received, ...) says what the fields stand for: `Valid()` ties the fields to a function
of that history, every method extends the history by what was asked of it, and the theorems are lemmas about
those functions for all histories. Each is defined without the bookkeeping: the limiter's reference never
forgets an admission, statistics are counts over all events, the rate is a position in the list of request times,
the reader of responses is written from RFC 9112 and knows nothing of how they are built.

What the outside decides (clock readings, kernel results, responses of monitored sites, scheduling) is an
argument or an arbitrary value restricted only by what the kernel or the standard promises. Clock readings
never decrease. The thread pool follows the condition-variable semantics of section 33.5.3 of the C++17
standard, with spurious wake-ups.

Files: `TimeWindows`, `Addresses` and `OrderStatistics` are shared vocabulary. `SlidingWindowLimiter` and
`LimiterOptimality`; `ThreadPoolSteps`, `ThreadPoolSafety`, `ThreadPoolTheorems`, `ThreadPoolShutdown` and
`ThreadPoolObject`; `Metrics`, `MetricsTheorems` and `ExportTheorems`; `MonitorManager`, `BreakerTheorems`,
`VisitTheorems` and `BackOffTheorems`; `IPTracker`, `RateTheorems` and `RateAdmission`; `Http`, `HttpReader`,
`ClientConnection`, `ConnectionTheorems`, `ConnectionTable`, `PageTheorems`, `RequestLedger`, `Reactor` and `Server`
each hold a component and, where separate, its theorems. The theorems state thresholds, codes, status lines and
field names as literals, not by the names the model gives them.

## Where the code surprises

These are proved with their exact conditions.

- A negative `maxRequests` is compared as an unsigned number: the limiter then never refuses
  (`NegativeLimitNeverRefuses`). It is optimal for every window and limit except a negative window with limit 0
  (`OptimalExactlyWhen`).
- A pool with no worker loses tasks at shutdown; with at least one it never does (`DrainsExactlyWithWorkers`).
- `stop` is written outside the lock, so `shutdown` can wait for ever on a worker that missed `notify_all`
  (`LostWakeUp`). A worker between its predicate test and its block when `stop` is set is the exact cause: with one,
  some schedule ends stuck; without one, every schedule returns (`ShutdownReturnsExactlyWhen`), after boundedly many
  steps (`ShutdownIsBounded`). Writing `stop` under the lock would be enough (`StopUnderLockSuffices`).
- Breaker and metrics stay aligned only if no host is added twice, which `addSite` does not check
  (`AlignmentNeedsDistinctHosts`).
- The back-off expression overflows 32 bits from the 28th opening in a row on (`BackOffFitsExactlyUpTo27`). The
  model lets it take any value from there on.
- The repository's README.md:105-110 says one failure in HALF_OPEN reopens the breaker. In the code it takes three
  (`ReopensExactlyOnThirdFailure`), and the first cooldown is 20 s. The model follows the code.
- A health read from `getHealth` or `exportMetrics` can differ from the stored one
  (`ReevaluationDiffersExactlyWhen`).
- The rate check reads the clock twice. A request whose window runs out in between is admitted whatever the
  count, so a window admits 50 requests and possibly one more (`OneWindowExactly`), and a second up to 101
  (`TwoWindowBound`). With one reading per request the best bound is 99, not the 100 that two full windows suggest:
  a second that reaches into two windows never contains the request that opened the first of them.

## Model

| member | source | states |
|---|---|---|
| SlidingWindowLimiter.SlidingWindowLimiter.constructor | src/security/sliding_window_limiter.cpp:3-4 | an empty limiter, defaults 100 and 1000 |
| SlidingWindowLimiter.SlidingWindowLimiter.AllowRequest | src/security/sliding_window_limiter.cpp:14-30 | the answer is the one the full, never pruned admission record gives; that record grows by exactly the admitted call, other keys' logs are untouched, and the called key's log equals its record filtered to age at most the window (for a negative window: just this call if admitted) |
| SlidingWindowLimiter.SlidingWindowLimiter.Prune | src/security/sliding_window_limiter.cpp:19-21 | popping expired stamps from the front leaves exactly the stamps of the window ending now |
| SlidingWindowLimiter.SlidingWindowLimiter.WindowsBounded | src/security/sliding_window_limiter.cpp:16-29 | in every reachable state no closed interval of window length holds more admissions of a key than the limit |
| SlidingWindowLimiter.WindowSafety | src/security/sliding_window_limiter.cpp:16-29 | the same for every non-decreasing arrival sequence and every interval |
| SlidingWindowLimiter.RefusedIffWindowFull | src/security/sliding_window_limiter.cpp:23-26 | a request is refused if and only if exactly `limit` admissions lie in the window that ends with it |
| SlidingWindowLimiter.OwnSubstream | src/security/sliding_window_limiter.cpp:17-17 | a key's answers on an interleaved stream are those on its own sub-stream |
| LimiterOptimality.StaysAhead | src/security/sliding_window_limiter.cpp:14-30 | against every other policy that respects the limit, the k-th admission is never later than that policy's k-th (exchange argument) |
| LimiterOptimality.OptimalExactlyWhen | src/security/sliding_window_limiter.cpp:14-30 | on every arrival sequence, hence every prefix, no policy that respects the limit admits more, exactly unless the window is negative and the limit 0 |
| LimiterOptimality.NegativeLimitNeverRefuses | src/security/sliding_window_limiter.cpp:23-26 | a non-negative `maxRequests` bounds every window, a negative one admits everything |
| ThreadPoolSafety.InvariantHolds | src/threadpool/ThreadPool.cpp:3-44 | every state of every run of any number of workers satisfies the invariant: FIFO, each task accounted for once, shutdown's progress, wake-ups cover the queue, one holder of the lock |
| ThreadPoolSafety.CoveredStep | src/threadpool/ThreadPool.cpp:10-33 | every step keeps: while a worker sleeps, queued tasks are at most undelivered notifications plus workers on their way to the queue |
| ThreadPoolTheorems.EachTaskOnce | src/threadpool/ThreadPool.cpp:18-22 | pushes equal dispatched tasks followed by the queue; a dispatched task is finished or running, never both, on one worker |
| ThreadPoolTheorems.ShutdownDrains | src/threadpool/ThreadPool.cpp:36-44 | when shutdown has returned, every task pushed before `stop` was set has run to completion |
| ThreadPoolTheorems.DrainsExactlyWithWorkers | src/threadpool/ThreadPool.cpp:3-26 | that holds in all runs if and only if there is at least one worker |
| ThreadPoolTheorems.NoStrandedTask | src/threadpool/ThreadPool.cpp:10-33 | before shutdown, with a task queued and no notification pending, some worker is running, ready or woken |
| ThreadPoolTheorems.SleepOnlyWhenCovered | src/threadpool/ThreadPool.cpp:10-33 | a worker sleeps only if each queued task has a wake-up of its own under way |
| ThreadPoolShutdown.ShutdownReturnsExactlyWhen | src/threadpool/ThreadPool.cpp:36-43 | in every state of every run with `stop` set and not announced: every schedule that comes to rest has returned from shutdown if and only if no worker is between its predicate test and its block; otherwise some schedule without push, spurious wake-up or second shutdown ends stuck, joining a sleeping worker with nothing left to move it but a push or a spurious wake-up |
| ThreadPoolShutdown.DoomedGetsStuck | src/threadpool/ThreadPool.cpp:10-43 | the schedule that hangs, for any number of workers: notify, park, let the others leave, join those before |
| ThreadPoolShutdown.ShutdownIsBounded | src/threadpool/ThreadPool.cpp:36-43 | if no worker is missed, a schedule has no more steps than the work there was plus four per further push |
| ThreadPoolShutdown.QuietMeansDone | src/threadpool/ThreadPool.cpp:36-43 | and where nothing but a push or another shutdown is enabled, all workers and shutdown have returned |
| ThreadPoolTheorems.AlertRun | src/threadpool/ThreadPool.cpp:10-22 | from an alert state nobody ever sleeps again, and worker steps plus remaining effort equal the initial effort plus two per push |
| ThreadPoolTheorems.AlertNeverStuck | src/threadpool/ThreadPool.cpp:10-22 | while a worker has not returned, some worker can move |
| ThreadPoolTheorems.WakeUpsAreArbitrary | src/threadpool/ThreadPool.cpp:13-32 | any sleeping worker may be woken by a notification, or by chance |
| ThreadPoolTheorems.LostWakeUp | src/threadpool/ThreadPool.cpp:36-43 | a run in which shutdown joins a worker asleep, where exactly a push or a spurious wake-up of that worker is possible |
| ThreadPoolShutdown.StopUnderLockSuffices | src/threadpool/ThreadPool.cpp:37-37 | in every run of the variant that takes the lock to set `stop`, every state after that always returns, and none can get stuck |
| ThreadPoolObject.ThreadPool.Push | src/threadpool/ThreadPool.cpp:28-32 | the critical section of enqueue is the push step and keeps the invariant |
| ThreadPoolObject.ThreadPool.Evaluate | src/threadpool/ThreadPool.cpp:10-20 | one pass through the lock is the evaluate step: sleep, leave, or take the oldest task not dispatched yet |
| ThreadPoolObject.ThreadPool.SetStop | src/threadpool/ThreadPool.cpp:37-37 | setting `stop` is the step of that name |
| OrderStatistics.SortIsUnique | src/metrics/Metrics.cpp:53-54 | any ascending rearrangement equals the one computed, so the sorting algorithm does not matter |
| OrderStatistics.PercentileIgnoresOrder | src/metrics/Metrics.cpp:46-63 | windows with the same samples have the same percentiles |
| OrderStatistics.SlideMovesFewRanks | src/metrics/Metrics.cpp:158-161 | replacing the k oldest samples moves every order statistic by at most k ranks |
| MetricsTheorems.PercentileIsOrderStatistic | src/metrics/Metrics.cpp:46-63 | the percentile is the sample of its rank, and only that one, however the window is ordered or sorted |
| OrderStatistics.PercentileByCounting | src/metrics/Metrics.cpp:46-63 | for every non-empty window and percentage below 100, full or not: the percentile is the one sample with at most that share of the samples below it and more than that share not above it |
| MetricsTheorems.PercentilesAreStable | src/metrics/Metrics.cpp:158-161 | on a full window of 1000, k successes leave the new percentile between the old samples k ranks below and k ranks above index 10*percent (500, 900, 990) |
| Metrics.Metrics.RecordSuccess | src/metrics/Metrics.cpp:136-174 | the stored record becomes the statistics of the history extended by this success |
| Metrics.Metrics.RecordFailure | src/metrics/Metrics.cpp:178-189 | the same for a generic failure |
| Metrics.Metrics.RecordFailureType | src/metrics/Metrics.cpp:193-226 | the same for a classified failure |
| Metrics.Metrics.EvaluateAndAlert | src/metrics/Metrics.cpp:114-132 | stores the health of the updated record as the last health of the extended history |
| Metrics.Metrics.GetHealth | src/metrics/Metrics.cpp:312-321 | the rule evaluated on the history's statistics, HEALTHY without any |
| MetricsTheorems.HealthTable | src/metrics/Metrics.cpp:80-131 | the stored and the reported health of every history as a decision table over the last health, three failures in a row, p90 and the share of failures: 0 after three failures; 1 or 2 from SLOW by 900 ms; 2 above 1200 ms; 3 if ten times the failures exceed three times the checks; else 1; and 1 without any check |
| Metrics.Metrics.ExportMetrics | src/metrics/Metrics.cpp:230-308 | all eighteen exported numbers of every known site, computed from its history's statistics |
| MetricsTheorems.CountersAddUp | src/metrics/Metrics.cpp:146-171 | checks, failures and successes equal the sums of their classes plus the unclassified ones |
| MetricsTheorems.WindowIsRecentLatencies | src/metrics/Metrics.cpp:158-161 | the window is the last min(1000, successes) latencies in order |
| MetricsTheorems.TrailingFailuresIsRun | src/metrics/Metrics.cpp:150-150 | `consecutive_failures` is the length of the run of failures the history ends with |
| MetricsTheorems.ExportIsOrdered | src/metrics/Metrics.cpp:241-287 | in every reachable state min <= p50 <= p90 <= p99 <= max and min <= avg <= max, for negative latencies too |
| MetricsTheorems.ExportAddsUp | src/metrics/Metrics.cpp:251-304 | the exported success and failure counters add up to all checks, and to their classes plus the unclassified ones |
| ExportTheorems.OneMoreSuccess | src/metrics/Metrics.cpp:136-174 | what a successful check changes in each exported counter, status classes by their limits |
| ExportTheorems.OneMoreFailure | src/metrics/Metrics.cpp:178-226 | what a failed check changes, kind by kind; with `NothingYet` this fixes every exported counter of every history |
| ExportTheorems.QuantilesCount | src/metrics/Metrics.cpp:246-284 | p50, p90 and p99 by counting among the last 1000 latencies, or all if there are fewer |
| ExportTheorems.ExtremesAndAverage | src/metrics/Metrics.cpp:241-291 | min and max are the extremes of all latencies (max at least 0), avg is the total over the successes, truncated toward zero |
| MetricsTheorems.ReevaluationDiffersExactlyWhen | src/metrics/Metrics.cpp:80-131 | evaluating again differs from the stored health exactly when the last update left SLOW with more than 30% failures; then HEALTHY is stored, DEGRADED reported |
| MetricsTheorems.TwoEvaluationsSettle | src/metrics/Metrics.cpp:80-110 | two evaluations reach a fixed point from any record |
| MetricsTheorems.SlowAfterUpdate | src/metrics/Metrics.cpp:96-104 | unless DOWN, a site turns SLOW exactly above 1200 and stops exactly below 900 |
| MetricsTheorems.SlowIsSticky | src/metrics/Metrics.cpp:96-104 | over any run with p90 in 900..1200 and no three failures in a row, SLOW neither starts nor ends |
| MetricsTheorems.DownExactlyAfterThreeFailures | src/metrics/Metrics.cpp:93-94 | a site is DOWN after an update if and only if its last three checks failed |
| MonitorManager.MonitorManager.AddSite | src/Monitoring/MonitorManager.cpp:30-41 | appends a closed site, without looking for duplicates |
| MonitorManager.MonitorManager.SchedulerPass | src/Monitoring/MonitorManager.cpp:62-174 | one pass leaves the sites and all recorded histories as visiting each site in order does |
| MonitorManager.MonitorManager.CheckSite | src/Monitoring/MonitorManager.cpp:65-173 | the loop body is one visit: wait, half-open, skip, or probe and record |
| MonitorManager.MonitorManager.RecordProbe | src/Monitoring/MonitorManager.cpp:114-172 | the outcome is recorded in the metrics and applied to the breaker |
| BreakerTheorems.VisitKeepsAligned | src/Monitoring/MonitorManager.cpp:65-173 | every visit keeps: failure run = 3*open_attempts + local failures, local failures below 3, CLOSED iff no open attempts |
| BreakerTheorems.RunsKeepAlignment | src/Monitoring/MonitorManager.cpp:58-179 | any number of passes over distinct hosts keeps every site aligned |
| BreakerTheorems.DownMeansBreakerInEveryRun | src/Monitoring/MonitorManager.cpp:91-101 | from newly added distinct sites, after any run, a site is reported DOWN exactly when its breaker is OPEN or HALF_OPEN |
| BreakerTheorems.IntervalHalvedOnlyWhenClosed | src/Monitoring/MonitorManager.cpp:92-99 | the interval is shortened only in CLOSED |
| BreakerTheorems.SitesAreIndependent | src/Monitoring/MonitorManager.cpp:65-173 | with distinct hosts a pass is one independent visit to each site |
| BreakerTheorems.AlignmentNeedsDistinctHosts | src/Monitoring/MonitorManager.cpp:30-41 | for newly added sites, every run keeps all sites aligned if and only if their hosts are distinct |
| BreakerTheorems.OneFailingPassDecides | src/Monitoring/MonitorManager.cpp:30-172 | one pass in which every check fails already decides it |
| BreakerTheorems.BackOffFitsExactlyUpTo27 | src/Monitoring/MonitorManager.cpp:158-160 | the 32-bit back-off product fits exactly up to 27 attempts, and then is min(300, 10*2^attempts) |
| BreakerTheorems.VisitKeepsCooldown | src/Monitoring/MonitorManager.cpp:134-160 | the cooldown is 10 when CLOSED and the back-off of the attempts otherwise, and never shrinks before recovery |
| BreakerTheorems.ReopensExactlyOnThirdFailure | src/Monitoring/MonitorManager.cpp:114-172 | a probe opens the breaker exactly on the third failure, from HALF_OPEN too; a success restores a fresh closed site |
| VisitTheorems.ProbesExactlyWhen | src/Monitoring/MonitorManager.cpp:70-105 | an OPEN site stays as it is exactly until its cooldown is over; apart from that a site is probed exactly when its interval has passed, the full one unless it is CLOSED and slow or degraded, then half of it and at least a second; after the cooldown an undue site becomes HALF_OPEN |
| VisitTheorems.OpenProbesAfterCooldown | src/Monitoring/MonitorManager.cpp:70-105 | an OPEN site is probed if and only if both its cooldown and its interval are over |
| VisitTheorems.NewSiteWaitsOneInterval | src/Monitoring/MonitorManager.cpp:30-41 | the first probe of an added site is due one interval after it was added |
| VisitTheorems.CooldownTable | src/Monitoring/MonitorManager.cpp:146-160 | the cooldown is 10, 20, 40, 80, 160 and then 300 seconds, by the number of openings since the last recovery |
| VisitTheorems.ProbeIsRecorded | src/Monitoring/MonitorManager.cpp:107-144 | a probe is recorded with the latency, octets and status of its response, or with its kind of failure, and in no other counter |
| BackOffTheorems.SiteFollowsColumn | src/Monitoring/MonitorManager.cpp:58-179 | with distinct hosts, a site of any run of the scheduler goes through exactly the visits meant for it, with the probes at the times something is recorded for its host |
| BackOffTheorems.ProbesKeepDistance | src/Monitoring/MonitorManager.cpp:58-179 | for every site of every run of the scheduler: in an outage probe m keeps the sum of its gaps from the first one: cooldown or interval after each opening, the shortened interval only in the first cycle |
| BackOffTheorems.BackOffBound | src/Monitoring/MonitorManager.cpp:58-179 | for every site of every run of the scheduler: probe 3k+1 comes no earlier after the first than the first k cooldowns plus 2k shortest intervals, for k up to 27 |
| BackOffTheorems.SumOfCooldowns | src/Monitoring/MonitorManager.cpp:158-160 | the first k cooldowns last 20, 60, 140 and from the fourth on 300(k-3) seconds in all |
| IPTracker.IPTracker.RecordRequest | src/ip_tracking/IPTracker.cpp:8-32 | the record becomes that of the request times extended by now: total, window opener, requests since it |
| IPTracker.IPTracker.GetTotalRequests | src/ip_tracking/IPTracker.cpp:34-43 | the number of all requests recorded for the address |
| IPTracker.IPTracker.GetCurrentRate | src/ip_tracking/IPTracker.cpp:45-67 | the requests since the opener of a window that is not over, otherwise 0 |
| RateTheorems.NeverOverCounts | src/ip_tracking/IPTracker.cpp:45-67 | the rate is at most the number of requests in the last second of the full history |
| RateTheorems.ExactWhenWindowCoversSecond | src/ip_tracking/IPTracker.cpp:13-31 | it equals that number if and only if no request of the last second lies outside the current window |
| RateTheorems.WindowsApart | src/ip_tracking/IPTracker.cpp:16-28 | windows start at least a second apart |
| RateTheorems.OneWindowExactly | src/main.cpp:209-237 | a window admits exactly its first 50 requests, and beyond them only a last one whose rate is read after the window is over |
| RateTheorems.TwoWindowBound | src/main.cpp:209-237 | the best bound on the admitted requests of an address in a half-open second: a number bounds every second of every history if and only if it is at least 101, or at least 99 when record and query read the same time |
| RateTheorems.RefusalDeserved | src/main.cpp:220-237 | a refused request comes after more than 50 requests of its address in the last second |
| RateAdmission.RateGate.Exceeds | src/main.cpp:209-221 | record then query: refuses exactly the requests that the history says are not admitted |
| RateAdmission.RateGate.AdmissionsBounded | src/main.cpp:209-237 | in every reachable state no half-open second holds more than 101 admissions of an address |
| Http.FindHeaderEnd | src/main.cpp:201-204 | the first position of an empty line, none if there is none |
| PageTheorems.RequestIsUpToEmptyLine | src/main.cpp:201-240 | the request is the shortest prefix of the stream that ends with an empty line, and there is none exactly if no prefix does |
| PageTheorems.PathIsSecondWord | src/main.cpp:242-248 | the path is the second word of the request, for any white space around and between the words |
| PageTheorems.NoSecondWord | src/main.cpp:242-248 | and empty if there is no second word |
| PageTheorems.PathIsRequestTarget | src/main.cpp:239-248 | of a request line the dispatched path is the request target |
| PageTheorems.TargetOfStream | src/main.cpp:201-248 | a stream that starts with a request line is dispatched by the target of that line |
| HttpReader.DecimalRoundTrip | src/main.cpp:289-292 | parsing a printed length gives it back |
| HttpReader.DecimalIsCanonical | src/main.cpp:289-292 | a printed length has no leading zero |
| HttpReader.ErrorResponseRoundTrip | src/main.cpp:115-149 | a reader following RFC 9112 sections 2.1, 6.2 and 6.3 recovers exactly the body, nothing left over, and is told that the connection closes |
| HttpReader.OkResponseRoundTrip | src/main.cpp:255-297 | the same for every body of a 200, and the reader finds the content type |
| HttpReader.ErrorOctets | src/main.cpp:115-149 | the octets of the 503, 403 and 429 answers, line by line |
| HttpReader.OkOctets | src/main.cpp:255-297 | the octets of a 200, line by line |
| HttpReader.RefusalsAreFramed | src/main.cpp:115-149 | the 503, 403 and 429 answers are such messages, with these status lines and bodies |
| HttpReader.PagesAreFramed | src/main.cpp:255-297 | so is the answer to any path with any counters and metrics text |
| PageTheorems.StatsNumbers | src/main.cpp:255-264 | a reader finds both numbers of the statistics page under their names |
| PageTheorems.AnswerByTarget | src/main.cpp:239-297 | for a stream that starts with a request line: "/stats" is answered by JSON with the request total and the open connections, "/metrics" by the metrics text, every other target by the fixed text, as a reader sees it |
| PageTheorems.AcceptOutcome | src/main.cpp:113-160 | at 1000 connections a pending one gets the 503, else if blocked the 403, else it becomes a connection watched for reading with empty buffers |
| PageTheorems.RefusalOutcome | src/main.cpp:220-237 | a refused request is sent the 429, any other nothing at once |
| ConnectionTheorems.ReadKeepsPhase | src/main.cpp:165-304 | a read event takes a connection from one phase to the next or to a consistent ending, and only extends its log |
| ConnectionTheorems.WriteKeepsPhase | src/main.cpp:307-340 | a write event does too; Completed means the whole answer was sent exactly once |
| ConnectionTheorems.WriteConserves | src/main.cpp:314-333 | octets sent followed by the buffer left equal the buffer before, for every sequence of short sends; emptied iff nothing is left |
| ConnectionTheorems.WriteOutcome | src/main.cpp:314-339 | a write event by what `send` reports: everything taken completes the connection, EAGAIN leaves exactly the rest, an error or 0 closes it as broken |
| ConnectionTheorems.LifeKeepsPhase | src/main.cpp:165-340 | after any sequence of events a connection is reading, writing or consistently closed |
| ConnectionTheorems.PortionsDoNotMatter | src/main.cpp:173-199 | one event's outcome depends on the octets, not on how `recv` portions them |
| ConnectionTheorems.ReadOutcome | src/main.cpp:173-302 | a read event by what `recv` reports: over 8192 octets close the connection; so do the end of the stream and an error, uncounted and unanswered even after a complete request; EAGAIN keeps it reading or dispatches the complete request |
| ConnectionTheorems.RequestOfPrefix | src/main.cpp:201-240 | the first complete request of a prefix is the first one of the stream |
| ConnectionTheorems.DispatchIsChunkIndependent | src/main.cpp:173-302 | a request within the limit is dispatched, and is the same, for every division of the stream into chunks and events, whatever the server does between the events; the context of the event that completes it decides the answer or the refusal |
| ConnectionTheorems.SameStreamSameRequest | src/main.cpp:201-240 | two connections fed the same stream dispatch the same request |
| ConnectionTable.PutKeeps | src/main.cpp:185-340 | storing an event's outcome keeps the table: watched descriptors = listener plus connections, at most 1000, every log accounted for |
| RequestLedger.ReadCounts | src/main.cpp:201-302 | a reading connection is counted in an event if and only if that event completes its request, and then answered unless refused; never twice |
| RequestLedger.ReadKeeps | src/main.cpp:165-304 | a read event keeps the table, the request total equal to the connections answered or refused, and for every address and period the logged answers equal to what the rate check admitted |
| ConnectionTable.AcceptsKeep | src/main.cpp:98-161 | accepting any queue keeps it and leaves open connections untouched |
| ConnectionTable.RestStillThere | src/core/Reactor.cpp:50-52 | handling one event leaves the connections of the remaining events of the batch in place |
| Reactor.Reactor.AddFd | src/core/Reactor.cpp:17-22 | watches a descriptor unless it is watched already |
| Reactor.Reactor.ModifyFd | src/core/Reactor.cpp:24-29 | changes the mask of a watched descriptor |
| Reactor.Reactor.RemoveFd | src/core/Reactor.cpp:31-33 | stops watching |
| Server.ReceiveLoop | src/main.cpp:173-199 | the receive loop computes the outcome of the whole script |
| Server.SendLoop | src/main.cpp:314-333 | the send loop computes the outcome of the whole script and terminates |
| Server.Server.HandleRead | src/main.cpp:165-304 | the connection becomes what a read event makes of it, with the refusal decided by the address's whole request history and answered by the 429; a page is built with the total including this request and the open connections; every other connection stays; `total_requests` and the tracker advance exactly when a request completes |
| Server.Server.HandleWrite | src/main.cpp:307-340 | the connection becomes what a write event makes of it; every other stays, and so do the total, the tracker and the answers sent to clients turned away |
| Server.Server.HandleAccept | src/main.cpp:96-162 | accepts the queue: the 503 and 403 answers sent are exactly those of the queue, in order; the others become new watched connections |
| Server.Server.AcceptOne | src/main.cpp:113-160 | one accepted descriptor: which answer it gets if turned away, the new entry if not |
| Server.Server.HandleHeartbeat | src/main.cpp:90-93 | exactly the idle connections are closed and unwatched, the rest of the table and of the logs stays |
| Server.Server.HandleEvent | src/main.cpp:85-342 | the table becomes what accepting, reading or writing makes of it, by descriptor and bits; the answers sent at once are those of that event; no other connection is touched |
| Server.Server.RunBatch | src/core/Reactor.cpp:50-52 | the events of a batch are handled in order, those of clients for the connection identity they were reported for, although descriptors are reused |
| Server.Server.Run | src/core/Reactor.cpp:35-54 | any number of rounds keeps all invariants of table, logs, request counter and rate check; the handler is called for every reported event and once, with -1, for every empty report, in order and for nothing else; logs only grow and an answer is never replaced |
| Server.Server.AnswersBounded | src/main.cpp:206-237 | in every reachable state, for every address and period the requests answered or counted according to the connections' logs are those the rate check admitted or saw; hence at most 101 requests of an address recorded in a half-open second are answered |
| Server.Server.CompletedAreDelivered | src/main.cpp:299-339 | in every reachable state a completed client was sent one well-formed message whose body is the page for its first request |
| Server.Server.CompletedByTarget | src/main.cpp:239-339 | and if its stream began with a request line, a reader of what it was sent finds the answer to the target of that line |
| Server.Server.ConnectionsAreLimited | src/main.cpp:113-160 | in every reachable state at most 1000 connections, and epoll watches exactly them and the listener |

## Left out

- MetricsTheorems.ExportIsOrdered: sums and counters are unbounded integers, so a latency total beyond 64 bits is not modelled.
- OrderStatistics.Percentile: percent*n/100 replaces the truncated floating-point product, which agrees for 50, 90 and 99 and at most 1000 samples.
- Metrics.ComputeHealth: the failure rate is compared as 10*failures > 3*checks instead of in floating point.
- BackOffTheorems.BackOffBound: nothing is claimed beyond 27 openings in a row, because the source's arithmetic is undefined there.
- ThreadPoolTheorems.ShutdownDrains: tasks are assumed to return normally; the memory model of the atomic is sequentially consistent.
- Server.Server.Run: signals, an interrupted `epoll_wait` and the closing of the listening socket are not modelled; the number of rounds is an argument.
- Server.Server.HandleHeartbeat: which connections are idle is arbitrary, since the idle-time arithmetic belongs to ConnectionManager, which is not part of this model.
- Server.Server.AcceptOne: whether an address is blocked is arbitrary (`IPBlacklist`, `ThreatDetector` are left out), and the direct sends of the 503, 403 and 429 answers are recorded as sent, not followed octet by octet.
- `src/http/HttpClient.cpp`: the outcome of a check is an arbitrary response.
- Metrics text layout: the body of `/metrics` is an arbitrary string; the numbers in it are `ExportMetrics`.
- Logging, configuration loading, start-up and the Dockerfile.
- Unsigned 64-bit request totals of the tracker: unbounded here.
- The repository's README describes requests running on the thread pool and a load-aware scheduler; the code has neither, so the pool and the limiter are modelled on their own.
