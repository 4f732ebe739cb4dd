# OpsSwarm: verified core of the incident control plane

OpsSwarm takes an incident from a GitHub issue through investigation, planning, execution and verification, with
humans approving what the policy does not allow to happen by itself. This project models the stateful machines
that carry that promise and proves what they keep over every run.

| file | machine |
|---|---|
| `TaskGraph.dfy` | validation of the investigation task graph: the three-colour search and the longest-chain bound |
| `WaveScheduler.dfy` | the loop that executes dependency-ready tasks in waves under a task budget |
| `WaveLaws.dfy` | that loop for arbitrary specialists, wave by wave, by positions in the list of pending tasks |
| `WaveTasks.dfy` | the tasks of one wave as they interleave: preflight, semaphore, specialist call, release |
| `WaveBudget.dfy` | the two together: a loop of arbitrary interleaved waves that counts tasks and OpenClaw calls |
| `Breakers.dfy` | the circuit breaker, alone and driven by concurrent calls with late verdicts and late releases |
| `Backoff.dfy`, `GitHubClient.dfy` | retry delays, error classification, the request loop and its write barrier |
| `WriteBarrier.dfy` | the write barrier over any interleaving of requests |
| `Readiness.dfy` | in-flight slots of handlers and detached tasks, and the drain |
| `Evidence.dfy` | the chained, deduplicated evidence log and its three readers |
| `Policy.dfy`, `Lifecycle.dfy` | risk policy, and the life of a run driven by arbitrary answers, comments and restarts |
| `RateLimiter.dfy`, `AntiReplay.dfy` | the sliding-window limiter and the single use of derived tokens |
| `Leases.dfy`, `CasStore.dfy` | run leases and compare-and-swap updates |

Code that changes state is written as classes and methods, each proved equal to a step function; the theorems are
about those functions over arbitrary schedules. Sections of the original without an await are one step.
Everything outside is a parameter: model answers, server replies, clock readings, random draws, the point at which an
await raises. Concurrent machines are driven by a sequence of actions (`Schedule`, `After`), and a theorem about every
such sequence is a theorem about every interleaving.

## What turned out different from the documentation

Where the code does not meet a property in full, the code is modelled as it is, and the exact condition is proved.

- The wave loop slices the ready tasks to the remaining budget, and in audit mode a declined preflight does not leave
  the loop. When nothing raises and no other budget interferes, it terminates in every interleaving if and only if the
  remaining task budget and the remaining call budget both cover the pending tasks
  (`WaveBudget.TerminatesIffBudgetsCover`); once any budget is used up with work pending, it only counts waves
  (`WaveBudget.UsedUpRunStandsStill`). In strict enforcement a declined preflight raises instead: enough task budget
  suffices for termination (`WaveBudget.StrictRunEnds`), and another budget that is used up ends the loop with an
  exception (`WaveBudget.StrictUsedUpRaises`).
- A graph with exactly as many tasks as the task or the call limit is validated and executed, over however many waves,
  and then always stops at the preflight that follows, which compares with `>=`
  (`WaveBudget.FullGraphStopsAtPreflight`).
- "A single probe call is admitted" (`opsswarm/resilience.py:592`) holds for a half-open period if and only if no probe
  of an earlier period is still running when it begins (`Breakers.ProbesBoundedIff`, `Breakers.StaleProbeIsReachable`).
- The abandonment markers of a drain timeout are right in number. They name the labelled tasks that still hold their
  slots if and only if none of the labels written belongs to a task between its release and its done-callback
  (`Readiness.TimeoutNamesRunningIff`, `Readiness.TimeoutCanNameFinishedTask`).
- An append is dropped if and only if a record of its kind has the same signed fields (`Evidence.DuplicateIff`), and its
  payload is lost unless some record has all of it (`Evidence.PayloadLostIff`). The key fields of a recovery plan
  (`option_ids`) and of a task graph (`task_ids`, `types`) are not in the payloads the orchestrator writes, so a run
  keeps only the first of each (`Evidence.UnkeyedKeptOnce`, `Evidence.LaterPlansAreDropped`).
- Loading the log refuses an unsigned record that listing skips (`Evidence.UnsignedRecordSplitsReaders`).
- Autonomous execution goes by the label of the model alone. The exact options that are executed although their approval
  would be denied, and although approval would be required, are in `Policy.AutoOverridesDenialIff` and
  `Policy.AutoSkipsApprovalIff`.
- The issue can be closed on an older execution: the verified result is that of the last execution if and only if no
  execution has been left without a result (`Lifecycle.ClosureIsCurrentIff`). `Lifecycle.ResumeClosesOnOlderExecution`
  takes a run there by five comments, the third of which ends in an exception during the execution.
- In strict enforcement a rejection is refused while the run waits for approval, and `resume` can never verify a failed
  run; without it an approval executes in any non-terminal state, a resolved one included
  (`Lifecycle.EnforcementDecides`).
- The write barrier misses exactly the unknown outcomes that end in an unexpected exception or a cancelled call
  (`GitHubClient.AmbiguousIff`).
- A lease stays with its holder if and only if every rival comes by the expiry the holder wrote last, which a later
  attempt of its own can have made earlier (`Leases.HolderOwnsThroughoutIff`, `Leases.RivalGrantedIff`).
- The limiter raises on every call when `max_requests` is zero or less (`RateLimiter.CrashesIffNoRequests`), and its
  number of buckets is bounded by max(1, `max_buckets`).
- An accepted token can be accepted again if and only if its timestamp lies more than 299 seconds after the replay test
  of its first request and that request ended within the tolerance (`AntiReplay.AcceptedAgainIff`). That takes a request
  with more than 239 seconds between its first two clock readings (`AntiReplay.LatestAcceptedAgainIff`,
  `AntiReplay.SlowRequestAcceptsTwice`).

## Model

| member | source | states |
|---|---|---|
| `TaskGraph.ValidateTaskGraph` | `opsswarm/validators.py:115-200` | Accepts exactly the graphs with unique ids, no dangling dependency, no cycle and no chain longer than the bound; every error is raised only when all earlier checks hold and carries a true witness (a count, a missing id, a closed walk, a longest chain) |
| `TaskGraph.CheckUnique` | `opsswarm/validators.py:133-145` | Fails iff some id repeats, and reports an id with how often it occurs |
| `TaskGraph.CheckDangling` | `opsswarm/validators.py:147-152` | Fails iff some dependency names no task, and reports such a pair |
| `TaskGraph.CycleSearch.constructor` | `opsswarm/validators.py:154-158` | Everything white, empty path |
| `TaskGraph.CycleSearch.Enter` | `opsswarm/validators.py:162-163` | Pushing keeps the grey set equal to the path, and the path a chain of dependencies |
| `TaskGraph.CycleSearch.Leave` | `opsswarm/validators.py:175-177` | Popping keeps that, and the black tasks stay in an order with dependencies first |
| `TaskGraph.CycleSearch.GreyDependencyClosesWalk` | `opsswarm/validators.py:167-171` | The slice of the path from a grey dependency is a real closed walk |
| `TaskGraph.CycleSearch.Dfs` | `opsswarm/validators.py:160-178` | Either a closed walk, or the node is finished, the path is restored and no white task was added |
| `TaskGraph.CycleSearch.Follow` | `opsswarm/validators.py:164-174` | One dependency: a closed walk, or the dependency is finished |
| `TaskGraph.CycleSearch.Search` | `opsswarm/validators.py:180-183` | A closed walk, or a topological order of the whole graph |
| `TaskGraph.TopologicalIsAcyclic` | `opsswarm/validators.py:154-183` | A topological order excludes every closed walk, so a normal return decides acyclicity |
| `TaskGraph.VisitedNeverFires` | `opsswarm/validators.py:185-195` | On an acyclic graph the ancestors passed as `visited` never change the result |
| `TaskGraph.DepthOfDependencies` | `opsswarm/validators.py:185-195` | The depth is one more than the deepest dependency, or one for a leaf |
| `TaskGraph.LongestDepthIsLongestChain` | `opsswarm/validators.py:185-195` | The computed depth is the node count of the longest dependency chain |
| `TaskGraph.CheckDepth` | `opsswarm/validators.py:197-200` | Fails iff some chain is longer than the bound, and reports the length of a longest chain |
| `WaveScheduler.Investigate` | `opsswarm/orchestrator.py:423-459` | The loop computes the wave semantics for any answers and any observation horizon; it is finished iff nothing is pending, and then every task is done; unsatisfied means that every pending task has an open dependency; running means that the horizon is reached |
| `WaveScheduler.Gather` | `opsswarm/orchestrator.py:430-456` | One gathered batch yields the executed tasks, the ids named by the findings, and whether a specialist raised |
| `WaveScheduler.NothingIsLost` | `opsswarm/orchestrator.py:423-459` | A task leaves the pending ones only by being named done, and how the ends of the loop show in its result |
| `WaveLaws.SelectedIsBatch` | `opsswarm/orchestrator.py:426-450` | A wave executes the first pending tasks whose dependencies are done, as many as the task budget has room for |
| `WaveLaws.BegunAre` | `opsswarm/orchestrator.py:430-448` | Of those, exactly the ones that are not declined are executed, in their order |
| `WaveLaws.WaveMoves` | `opsswarm/orchestrator.py:452-459` | Done becomes what was done or is named by a finding; the pending tasks that are not named stay, in their order |
| `WaveLaws.WaveHappens` | `opsswarm/orchestrator.py:430-459` | A wave without an exception is such a step; one with an exception leaves done and pending alone and counts what was executed |
| `WaveLaws.LoopEnds` | `opsswarm/orchestrator.py:423-459` | For arbitrary specialists: the loop goes through such steps and ends finished, unsatisfied, running or failed, each under its exact condition |
| `WaveLaws.InvestigationEnds` | `opsswarm/orchestrator.py:421-459` | The same from the start, where the pending tasks are those without a finding, in their order |
| `WaveScheduler.SomeTaskIsReady` | `opsswarm/orchestrator.py:426-428` | While something is pending in a validated graph, some task is ready, so the unsatisfied-dependencies error cannot occur |
| `WaveScheduler.OwnWave` | `opsswarm/orchestrator.py:449-459` | A wave whose findings carry their own ids removes exactly the executed tasks from the pending ones |
| `WaveScheduler.HonestWaveKeepsOrder` | `opsswarm/orchestrator.py:426-459` | A wave starts a task only after all of its dependencies |
| `WaveScheduler.HonestWaveGoesDeeper` | `opsswarm/orchestrator.py:426-459` | After wave k every task of depth at most k is done |
| `WaveScheduler.CompletesWithinDepth` | `opsswarm/orchestrator.py:423-459` | For answers that are all findings under their own ids, and task budget for all pending tasks: finishes within the validated depth, each pending task exactly once, dependencies first |
| `WaveScheduler.FreshRunCompletes` | `opsswarm/orchestrator.py:337-352` | For such answers the limit enforced on the graph is all the task budget a fresh run needs |
| `WaveScheduler.InvestigateFresh` | `opsswarm/orchestrator.py:405-459` | Validation and loop together: admitted iff the five conditions hold, and for such answers every admitted graph completes within the validated depth |
| `WaveScheduler.SpinsWithoutBudget` | `opsswarm/orchestrator.py:449-459` | When every task a wave would execute is declined, for whatever budget, or none is left to execute, waves change nothing but their own count |
| `WaveScheduler.NeverFinishesShortOfBudget` | `opsswarm/orchestrator.py:449-459` | With too little budget the loop is still running after any number of waves |
| `WaveScheduler.TerminatesIffBudgetCovers` | `opsswarm/orchestrator.py:423-459` | For such answers the loop terminates if and only if the remaining task budget covers the pending tasks |
| `WaveScheduler.WaveProgressIff` | `opsswarm/orchestrator.py:449-459` | For arbitrary answers, a wave shrinks the pending list exactly when a finding names a pending task |
| `WaveTasks.StepKeepsInv` | `opsswarm/orchestrator.py:430-447` | Every step of a wave keeps permits plus callers equal to the capacity and the budget counters equal to what happened |
| `WaveTasks.WaveKeepsLimits` | `opsswarm/orchestrator.py:430-451` | Every interleaving: executed tasks, concurrent specialists and OpenClaw calls stay within their limits |
| `WaveTasks.BeginIs` | `opsswarm/orchestrator.py:430-435` | A task is turned away iff a budget is used up, waits iff it is queued or max(1, `max_parallel`) specialists are at work, and calls its own otherwise |
| `WaveTasks.WakeIff` | `opsswarm/orchestrator.py:126-141` | A waiting task can go on iff fewer specialists than that are at work |
| `WaveTasks.PermitsReturn` | `opsswarm/orchestrator.py:126-141` | Once a wave is settled, failures included, all permits are back |
| `WaveTasks.CoveredWaveDeclinesNothing` | `opsswarm/orchestrator.py:100-113` | With budget for the whole wave, no interleaving makes a preflight decline a task |
| `WaveTasks.CoveredWaveSucceeds` | `opsswarm/orchestrator.py:430-456` | What the wave loop assumes of a covered wave: in every interleaving without a raising specialist, every task returns its finding, and counters and permits account for it |
| `WaveTasks.WaveNeverStuck` | `opsswarm/orchestrator.py:126-141` | The semaphore never deadlocks: an unsettled wave has a next step without anything raising |
| `WaveTasks.DecliningRun` | `opsswarm/orchestrator.py:325-335` | When a counter is at its limit, or the other budgets always say no, no interleaving begins a task or moves a counter; a declined task may also raise |
| `WaveTasks.StrictNeverDeclines` | `opsswarm/models.py:52-57` | In strict enforcement a preflight that fails raises, because the loop cannot leave the investigation for a decision |
| `WaveTasks.StrictUsedUpRaises` | `opsswarm/orchestrator.py:325-335` | In strict enforcement a used-up budget makes every settled wave with a task in it raise |
| `WaveTasks.FirstTaskBegins` | `opsswarm/orchestrator.py:325-335` | With both counters below their limits, every settled wave has executed some task |
| `WaveTasks.SequentialRun` | `opsswarm/orchestrator.py:430-447` | From any start there is an interleaving, one task after the other, that settles the wave within the call budget |
| `WaveBudget.WaveCounts` | `opsswarm/orchestrator.py:64-68` | The task and call counters of a settled wave move by exactly the number of tasks that contributed a finding |
| `WaveBudget.NextIsWave` | `opsswarm/orchestrator.py:430-459` | The loop over interleaved waves is the scheduler's loop for the answers those waves give |
| `WaveBudget.WaveConserves` | `opsswarm/orchestrator.py:430-459` | Every interleaving keeps executed plus pending and calls plus pending constant |
| `WaveBudget.CoveredWave` | `opsswarm/orchestrator.py:430-459` | When both budgets cover the batch, no interleaving declines anything: the wave is the honest one |
| `WaveBudget.CoveredRunCompletes` | `opsswarm/orchestrator.py:423-459` | When both budgets cover the pending tasks, every run of interleaved waves ends within the validated depth, always has something ready until everything is done, executes and calls each pending task once, dependencies first |
| `WaveBudget.UnfinishedGoesOn` | `opsswarm/orchestrator.py:426-451` | An unfinished loop over a validated graph always has another wave that settles |
| `WaveBudget.ShortBudgetRunsOn` | `opsswarm/orchestrator.py:449-459` | When a budget falls short of the pending tasks there are runs of any length, none of which finishes |
| `WaveBudget.TerminatesIffBudgetsCover` | `opsswarm/orchestrator.py:423-459` | With no exception and no other budget in the way, the loop terminates in every interleaving iff nothing is pending or both the task and the call budget cover the pending tasks |
| `WaveBudget.StrictWave` | `opsswarm/orchestrator.py:430-451` | In strict enforcement a wave that raises nothing has declined nothing and is the honest one |
| `WaveBudget.StrictRunEnds` | `opsswarm/orchestrator.py:423-459` | In strict enforcement, with task budget for the pending tasks, every run ends within the validated depth, whatever the other budgets |
| `WaveBudget.StrictUsedUpRaises` | `opsswarm/orchestrator.py:430-451` | In strict enforcement, once the calls or another budget are used up with task budget left and work ready, every interleaving of the next wave raises |
| `WaveBudget.UsedUpRunStandsStill` | `opsswarm/orchestrator.py:325-335` | Once the task, call or any other budget is used up with work pending, every run in which nothing raises only counts its waves |
| `WaveBudget.WaveStandsStillIff` | `opsswarm/orchestrator.py:449-459` | A wave leaves the pending tasks as they are iff the task or the call counter has reached its limit |
| `WaveBudget.FreshRunCompletes` | `opsswarm/orchestrator.py:337-352` | A fresh run of a validated graph that fits both budgets completes within the validated depth in every interleaving |
| `WaveBudget.FullGraphStopsAtPreflight` | `opsswarm/orchestrator.py:461-462` | After a fresh run of any validated graph that fits both budgets, over any number of waves, the next preflight fails iff the graph is exactly as large as one of the two limits |
| `Breakers.CircuitBreaker.constructor` | `opsswarm/resilience.py:602-625` | Starts closed with no failures |
| `Breakers.CircuitBreaker.Acquire` | `opsswarm/resilience.py:652-685` | The admission step: reject while cooling down, take a probe slot when half open |
| `Breakers.CircuitBreaker.ReleaseProbe` | `opsswarm/resilience.py:687-697` | The release step, ignored outside the half-open state |
| `Breakers.CircuitBreaker.RecordSuccess` | `opsswarm/resilience.py:699-707` | The success step: closes the circuit |
| `Breakers.CircuitBreaker.RecordFailure` | `opsswarm/resilience.py:709-727` | The failure step: reopens a half-open circuit, trips a closed one at the threshold |
| `Breakers.SlotsAlwaysAccounted` | `opsswarm/resilience.py:652-727` | Every interleaving: slots are 0 outside half-open, within the limit inside it, and never exceed the outstanding probes |
| `Breakers.NeverWedged` | `opsswarm/resilience.py:652-697` | A half-open circuit with no outstanding probe admits the next call |
| `Breakers.ExactSlotsBoundProbes` | `opsswarm/resilience.py:676-697` | When slots and probes agree, probes stay within the limit until the next verdict |
| `Breakers.StaleProbeOverflows` | `opsswarm/resilience.py:659-697` | When they do not, new calls can push the probes over the limit |
| `Breakers.ProbesBoundedIff` | `opsswarm/resilience.py:592-592` | The documented bound holds through a half-open period iff no earlier probe is outstanding when it begins |
| `Breakers.StaleProbeIsReachable` | `opsswarm/github_client.py:424-437` | In every configuration, ordinary calls that fail once each reopen the circuit over a running probe |
| `Breakers.StateRefinesHistory` | `opsswarm/resilience.py:652-727` | The failure counter is the trailing run of failures, closed iff below the threshold, and no admission within the recovery timeout of an opening unless a success came first |
| `Breakers.HistoryFromBoot` | `opsswarm/resilience.py:652-727` | The same from the start, for every schedule |
| `Breakers.AdmissionIff` | `opsswarm/resilience.py:652-685` | After every schedule, from the log alone: ordinary admission iff the trailing failures are below the threshold; rejection iff they are not and either no half-open period has begun and the last opening is too recent, or all its slots are taken; a probe otherwise |
| `Backoff.DelayBounds` | `opsswarm/resilience.py:559-576` | A delay is the lesser of a positive server value and the maximum, or lies between (1 - jitter) times and once the lesser of base * 2^(attempt-1) and the maximum |
| `Backoff.DelayReachesBothEnds` | `opsswarm/resilience.py:573-576` | The least and the greatest draw give the two ends |
| `Backoff.JitterBounds` | `opsswarm/resilience.py:573-576` | Jitter only shortens, by at most its ratio |
| `GitHubClient.Client.constructor` | `opsswarm/github_client.py:295-384` | A client starts with no unreconciled write |
| `GitHubClient.Client.Attempt` | `opsswarm/github_client.py:439-568` | The loop performs the specified effects and raises the barrier iff the outcome is ambiguous |
| `GitHubClient.Client.Try` | `opsswarm/github_client.py:451-568` | One send: its error and its verdict for the breaker, for every kind of reply |
| `GitHubClient.Client.Req` | `opsswarm/github_client.py:386-437` | Result, effects and barrier of a whole request, for every admission and every reply, cancelled calls included |
| `GitHubClient.RequestGuarantees` | `opsswarm/github_client.py:386-437` | Nothing happens iff a write is behind the barrier or the circuit is open; everything but GET and HEAD is sent at most once; the barrier gains exactly the write that was lost in transit; a probe slot is taken first and handed back last |
| `GitHubClient.Client.AcknowledgeAmbiguousWrite` | `opsswarm/github_client.py:576-587` | Lifts exactly the named key and says whether it was there |
| `GitHubClient.LoopBounds` | `opsswarm/github_client.py:451-568` | A write is sent once (or not at all when cancelled before the send), a read at most `max_attempts` times; at most one verdict for each send; total sleep at most (attempts - 1) times the maximal delay |
| `GitHubClient.LoopIsExact` | `opsswarm/github_client.py:451-568` | A read is sent again iff the reply is a 429, a 403 with rate-limit evidence, a 5xx or a transport fault and attempts are left; the sends, the sleeps and the error of the whole loop follow exactly |
| `GitHubClient.SomeAttemptDecides` | `opsswarm/github_client.py:484-525` | Every loop has such a last attempt |
| `GitHubClient.RetriesByReply` | `opsswarm/github_client.py:484-525` | The retry test and the server's waiting time in terms of status and fault |
| `GitHubClient.ErrorsByReply` | `opsswarm/resilience.py:413-516` | The error for every status, fault and exception |
| `GitHubClient.VerdictsByReply` | `opsswarm/github_client.py:478-530` | The breaker hears of a success iff 2xx, of a failure iff 5xx or a transport fault |
| `GitHubClient.GeometricSleep` | `opsswarm/github_client.py:484-525` | Without a Retry-After the total sleep is at most base times (2^(attempts-1) - 1) |
| `GitHubClient.ClientErrorsGiveNoVerdict` | `opsswarm/resilience.py:413-472` | No 4xx reply reaches the breaker |
| `GitHubClient.ReadsAreNeverAmbiguous` | `opsswarm/resilience.py:475-516` | A read never raises the barrier |
| `GitHubClient.AmbiguousIff` | `opsswarm/resilience.py:475-516` | A write raises the barrier iff its one request failed in transport and may have been delivered; of the unknown outcomes it misses exactly unexpected exceptions and cancelled calls |
| `WriteBarrier.StepKeepsInv` | `opsswarm/github_client.py:411-437` | Every step keeps: a key is unreconciled iff it has an ambiguous outcome without a later acknowledgement |
| `WriteBarrier.NoReplayBeforeAcknowledgement` | `opsswarm/github_client.py:411-437` | Every interleaving: whatever a write sends, it had started when all earlier ambiguous outcomes of its target were acknowledged |
| `WriteBarrier.WritesSendOnce` | `opsswarm/github_client.py:451-568` | Every interleaving: no write request sends a second time |
| `WriteBarrier.RequestIsSchedule` | `opsswarm/github_client.py:386-437` | Every write request of the client is a schedule of this machine that leaves the same barrier |
| `WriteBarrier.OthersDoNotInterfere` | `opsswarm/github_client.py:386-437` | Steps of other requests and acknowledgements never disable the next step of a request |
| `Readiness.ReadinessManager.constructor` | `opsswarm/runtime.py:59-83` | Not ready, nothing in flight, event set |
| `Readiness.ReadinessManager.StartupComplete` | `opsswarm/runtime.py:85-90` | The startup step |
| `Readiness.ReadinessManager.BeginDispatch` | `opsswarm/runtime.py:92-98` | Refuses iff draining, otherwise takes a slot |
| `Readiness.ReadinessManager.TrackDispatch` | `opsswarm/runtime.py:118-128` | Takes a slot without asking the gate |
| `Readiness.ReadinessManager.ReleaseInflight` | `opsswarm/runtime.py:104-116` | Gives a slot back and sets the event at zero |
| `Readiness.ReadinessManager.InitiateDrain` | `opsswarm/runtime.py:286-300` | Closes the gate; complete at once iff nothing is in flight |
| `Readiness.DetachedDispatch.constructor` | `opsswarm/runtime.py:130-168` | A detached dispatch reserves a slot |
| `Readiness.DetachedDispatch.ReleaseOnce` | `opsswarm/runtime.py:163-168` | Gives the slot back the first time and does nothing after |
| `Readiness.NoUnderflow` | `opsswarm/runtime.py:104-116` | Every release finds a slot: the underflow guard never fires |
| `Readiness.StepKeepsInv` | `opsswarm/runtime.py:92-228` | Every step keeps in-flight = open handlers + unreleased detached tasks, and the event set iff that is zero |
| `Readiness.DrainIsStable` | `opsswarm/runtime.py:92-128` | Draining with nothing in flight stays so in every interleaving |
| `Readiness.DrainSuccessIsTruthful` | `opsswarm/runtime.py:286-325` | When the drain reports success, no handler is open and every detached task has given its slot back |
| `Readiness.GateIff` | `opsswarm/runtime.py:85-98` | Over whole runs: ready iff a startup came after the last drain; a request is refused iff a drain came after the last startup, and gets a slot otherwise |
| `Readiness.AbandonAll` | `opsswarm/runtime.py:303-325` | The two loops write exactly `remaining` markers, names first |
| `Readiness.TimeoutWritesRemaining` | `opsswarm/runtime.py:303-325` | After any interleaving, a timeout writes one marker for each slot in flight |
| `Readiness.LabelsAlwaysRegistered` | `opsswarm/runtime.py:186-228` | Labels name distinct tasks whose done-callback has not happened |
| `Readiness.TimeoutNames` | `opsswarm/runtime.py:303-325` | The markers are the first labels, as many as there are slots, then unnamed ones |
| `Readiness.TimeoutNamesRunningIff` | `opsswarm/runtime.py:303-325` | After any interleaving, the labels written are the labelled tasks that still hold their slots, all and in order, iff none of the labels written awaits its done-callback |
| `Readiness.TimeoutCanNameFinishedTask` | `opsswarm/runtime.py:163-228` | A reachable state in which the marker names finished work instead of an open handler |
| `Readiness.CancelledWorkIsMarked` | `opsswarm/runtime.py:200-228` | A cancelled task leaves a marker with the name it was detached with iff it had started; any other ending leaves none |
| `Evidence.Load` | `opsswarm/evidence.py:273-341` | Succeeds iff the parsed rows form a valid chain; then the index holds their payload signatures and the tip is the last signature |
| `Evidence.List` | `opsswarm/evidence.py:347-424` | Succeeds iff the signed rows form a valid chain, and returns exactly those |
| `Evidence.Verify` | `opsswarm/evidence.py:426-479` | Succeeds iff the file exists, no row is malformed and the parsed rows form a valid chain; otherwise reports every defect in order |
| `Evidence.DefectsAreReported` | `opsswarm/evidence.py:426-479` | A row is reported as malformed, unsigned or broken iff it is, against the last signature before it, and no row twice |
| `Evidence.NoDefects` | `opsswarm/evidence.py:426-479` | There is no defect iff no row is malformed and the parsed rows form a valid chain |
| `Evidence.LoadIffListAndAllSigned` | `opsswarm/evidence.py:273-424` | Loading succeeds iff listing does and no record is unsigned; the listing is then every parsed row |
| `Evidence.UnsignedRecordSplitsReaders` | `opsswarm/evidence.py:273-424` | A log that lists but does not load |
| `Evidence.PrefixIsValid` | `opsswarm/evidence.py:426-479` | Every prefix of a valid log still verifies |
| `Evidence.TipDeterminesHistory` | `opsswarm/evidence.py:119-135` | Two valid logs with the same last signature have the same kinds and signed fields throughout |
| `Evidence.DeletionDetectedIff` | `opsswarm/evidence.py:119-135` | Deleting one record is detected iff it is not the last |
| `Evidence.SignedFields` | `opsswarm/evidence.py:45-135` | What a signature protects, field by field: for each of the nine kinds its named fields in presence and value, for every other kind everything but timestamp, eid, id and run_id |
| `Evidence.EditUndetectedIff` | `opsswarm/evidence.py:102-135` | Editing a record under its old signature goes unnoticed iff the kind is unchanged and the payloads agree in those fields |
| `Evidence.SwapDetected` | `opsswarm/evidence.py:119-135` | Exchanging any two records is detected |
| `Evidence.SignatureDeterminesPrefix` | `opsswarm/evidence.py:119-135` | A valid log that ends in a signature of another valid log has the history of that log up to there |
| `Evidence.InsertionUndetectedIff` | `opsswarm/evidence.py:119-135` | Inserting a record goes unnoticed iff it is a properly linked record at the end |
| `Evidence.ReorderingDetected` | `opsswarm/evidence.py:119-135` | Of all arrangements of the records of a valid log, only the log itself is valid |
| `Evidence.EvidenceStore.Append` | `opsswarm/evidence.py:203-271` | The append step on the shared file: untrusted, duplicate, failed write or appended, with index and tip refreshed |
| `Evidence.AppendExtendsList` | `opsswarm/evidence.py:203-271` | An append extends the listing by exactly its record and stores its payload; any other outcome leaves the log alone; after a skipped one some record has the same kind and signed fields |
| `Evidence.StoresShareOneChain` | `opsswarm/evidence.py:203-271` | Any interleaving of stores: the log stays trusted, no signed fields are written twice for a kind, and for every accepted or skipped append a record with its kind and signed fields is there at the end |
| `Evidence.DuplicateIff` | `opsswarm/evidence.py:203-271` | An append is dropped iff it is deduplicated and a record of its kind agrees with it in the fields the kind protects |
| `Evidence.OutcomeIff` | `opsswarm/evidence.py:203-271` | The exact condition of every outcome: trust, then deduplication, then the disk |
| `Evidence.DistinctContents` | `opsswarm/evidence.py:102-117` | Distinct payload signatures are records that differ in kind or in a protected field |
| `Evidence.PayloadLostIff` | `opsswarm/evidence.py:203-271` | With a working disk, a payload is absent afterwards iff the append is dropped and no record has all of its fields |
| `Evidence.UnkeyedKeptOnce` | `opsswarm/evidence.py:45-55` | Of payloads without a key field of their kind, a log keeps exactly the first |
| `Evidence.LaterPlansAreDropped` | `opsswarm/orchestrator.py:418-493` | With the payloads the orchestrator writes, this is so for recovery plans and task graphs |
| `Policy.FirstMatchWins` | `opsswarm/registry.py:197-216` | A lookup finds the earliest matching rule, and none iff none matches |
| `Policy.LabelNeverLowersRisk` | `opsswarm/policy.py:109-137` | A matching rule decides alone; otherwise the effective risk is at least the model's label and never read |
| `Policy.VerdictIff` | `opsswarm/policy.py:42-57` | Every verdict on a plan under its exact condition; required business input comes first, an unconfigured risk is denied |
| `Policy.EffectiveRiskIs` | `opsswarm/policy.py:109-137` | The effective risk in every case, in terms of the first matching rule, the text and the label |
| `Policy.MatchedRuleIs` | `opsswarm/registry.py:197-216` | Which rule decides, if any |
| `Policy.ContainsIff` | `opsswarm/policy.py:31-40` | A text contains another iff it is something, the other, and something more |
| `Policy.LowerIs` | `opsswarm/policy.py:31-40` | Lower-casing moves the 26 capital letters and nothing else |
| `Policy.AutoOverridesDenialIff` | `opsswarm/policy.py:42-57` | Under the shipped policy, the exact options that are executed autonomously although their approval would be denied |
| `Policy.AutoSkipsApprovalIff` | `opsswarm/policy.py:42-57` | The exact options that are executed autonomously although their effective risk requires human approval |
| `Lifecycle.Run.constructor` | `opsswarm/orchestrator.py:391-397` | A new record: open, nothing confirmed, its delivery known |
| `Lifecycle.Run.Stored` | `opsswarm/models.py:505-520` | A record stored by an older version: what counts as already confirmed is the older field |
| `Lifecycle.Run.Await` | `opsswarm/orchestrator.py:748-985` | An await raises exactly when the budget of returning awaits is used up; the bounds below say how many a call takes |
| `Lifecycle.Run.SetState` | `opsswarm/models.py:566-610` | A transition outside the table raises in strict mode and leaves the state; otherwise it is made |
| `Lifecycle.Run.Preflight` | `opsswarm/orchestrator.py:325-335` | Passes iff within budget; a failing one asks for a decision |
| `Lifecycle.Run.Verify` | `opsswarm/orchestrator.py:644-685` | Final state and effects of a verification; on an exception a prefix of the effects; closure only when justified |
| `Lifecycle.Run.Resolve` | `opsswarm/orchestrator.py:678-685` | Closes the issue, then the report phase if enabled |
| `Lifecycle.Run.PlanRcaPhase` | `opsswarm/orchestrator.py:688-746` | Ends resolved, or aborted when its clock runs out |
| `Lifecycle.Run.ExecuteOption` | `opsswarm/orchestrator.py:527-581` | An authorised option: executed at most once, an ambiguous write asks for a decision, a failure fails the run, success is verified |
| `Lifecycle.Run.Plan` | `opsswarm/orchestrator.py:483-525` | Preflight, the request for a plan, the record of it, and what follows from its classification |
| `Lifecycle.Run.Follow` | `opsswarm/orchestrator.py:494-525` | Only an automatic classification executes; the four others wait or fail |
| `Lifecycle.Run.Investigation` | `opsswarm/orchestrator.py:405-481` | An uncertain diagnosis waits for input, otherwise planning follows |
| `Lifecycle.Run.Start` | `opsswarm/orchestrator.py:399-403` | From a new record to the first waiting or final state |
| `Lifecycle.StartIssue` | `opsswarm/orchestrator.py:377-403` | A seen delivery or a run neither failed nor aborted is kept; a missing label raises; otherwise a new run is started, with its delivery recorded |
| `Lifecycle.Run.Migrate` | `opsswarm/orchestrator.py:760-764` | Adds the older confirmations as confirmed and changes no recorded outcome |
| `Lifecycle.Run.Repeated` | `opsswarm/orchestrator.py:766-788` | True iff the comment was carried out before or its delivery seen before |
| `Lifecycle.Run.TurnedIff` | `opsswarm/orchestrator.py:753-788` | Exactly which comments are turned away: any but `resume` on a failed, aborted or completed run, a confirmed comment by either field, a seen delivery |
| `Lifecycle.Run.Admit` | `opsswarm/orchestrator.py:790-800` | Records comment and delivery before anything is done |
| `Lifecycle.Run.MarkInProgress` | `opsswarm/models.py:528-530` | Changes one outcome, never a confirmed one |
| `Lifecycle.Run.MarkConfirmed` | `opsswarm/models.py:532-536` | Confirms in both fields |
| `Lifecycle.Run.ApproveOption` | `opsswarm/orchestrator.py:880-937` | No plan, an unknown option or a denied risk raises with nothing done; otherwise the approval, then the execution |
| `Lifecycle.Run.ResumeFrom` | `opsswarm/orchestrator.py:944-985` | From an arbitrary checkpoint, what is resumed and with which effects |
| `Lifecycle.Run.Perform` | `opsswarm/orchestrator.py:819-985` | Final state and effects of each command; a refused or blocked one leaves the run as it is |
| `Lifecycle.Run.Obey` | `opsswarm/orchestrator.py:803-942` | An actor below the level of the command, on the ladder, gets an exception and changes nothing; the outcome marks enclose the command |
| `Lifecycle.PermittedIff` | `opsswarm/orchestrator.py:803-811` | The rank test is the comparison of positions on the ladder none, read, triage, write, maintain, admin; an unknown permission stands at the foot, an unknown level is out of reach |
| `Lifecycle.MayCommandIff` | `opsswarm/orchestrator.py:812-817` | Which configured level each command needs: abort its own, provide, investigate and resume that for input, approve and reject that for approval |
| `Lifecycle.ApprovalRefusedIff` | `opsswarm/orchestrator.py:885-932` | An approval is refused iff the actor is too low, there is no plan, no option has the id, or the first that has it is denied |
| `Lifecycle.ResumeIs` | `opsswarm/orchestrator.py:944-985` | When resuming investigates, plans or verifies, and that it verifies only a recorded execution, a successful one unless the run is executing |
| `Lifecycle.Run.HandleComment` | `opsswarm/orchestrator.py:748-985` | A repeated comment, delivery or a command on a finished run changes nothing; free text only adds an input; a command from an actor below its level on the ladder changes nothing and raises, any other but an approval raises only in strict mode or at an await; a command does what its result says; confirmed stays confirmed |
| `Lifecycle.Run.Recover` | `opsswarm/orchestrator.py:223-231` | Turns executing outcomes into unknown and touches no other |
| `Lifecycle.Live` | `opsswarm/orchestrator.py:377-985` | From no run, or a stored one: any sequence of starts, comments and restarts of an issue, cut short anywhere, keeps the whole trace of every run safe; the first start that finds issue and label creates one |
| `Lifecycle.SafeAppend` | `opsswarm/orchestrator.py:483-985` | A trace with a further effect is safe iff it was safe and the effect is authorised |
| `Lifecycle.CurrentPlanMeaning` | `opsswarm/orchestrator.py:490-492` | The plan in force is the last one recorded |
| `Lifecycle.LastExecutionMeaning` | `opsswarm/orchestrator.py:539-541` | The current execution is the last one recorded |
| `Lifecycle.ExecutionsAreAuthorised` | `opsswarm/orchestrator.py:494-499` | Whole traces: each execution is of an option of the plan in force, either its sole one, just recorded, without required input and configured AUTO, or just approved by someone at or above the approval level on the ladder and not denied |
| `Lifecycle.ClosuresAreVerified` | `opsswarm/orchestrator.py:652-682` | Whole traces: each closure directly follows a verification, at or above the threshold, of the last result recorded |
| `Lifecycle.ClosureIsCurrentIff` | `opsswarm/orchestrator.py:539-568` | That result belongs to the last execution of all iff no execution has been left without a result |
| `Lifecycle.ResumeClosesOnOlderExecution` | `opsswarm/orchestrator.py:979-985` | A run, driven through its methods, whose whole trace is safe and ends with the issue closed while the last execution is unanswered |
| `Lifecycle.GateIsIdempotent` | `opsswarm/orchestrator.py:766-798` | Whole traces: no delivery is admitted twice and no comment after its confirmation |
| `Lifecycle.CommandExecutesTarget` | `opsswarm/orchestrator.py:803-985` | A completed command executes exactly its target, once, or nothing; the target is defined without the control flow |
| `Lifecycle.PlanExecutes` | `opsswarm/orchestrator.py:483-525` | Planning alone executes at most the sole option of an automatic plan |
| `Lifecycle.ExecutionCloses` | `opsswarm/orchestrator.py:527-685` | An executed option closes the issue iff the execution came back unambiguous and successful and its verification passed, both within budget; then and only then the run gets past its resolution |
| `Lifecycle.CommandCloses` | `opsswarm/orchestrator.py:803-985` | The same for every command: closed iff what it executes is remedied or a resumed verification passes, and no other way into the resolved states |
| `Lifecycle.ExecutionEnds` | `opsswarm/orchestrator.py:527-746` | For each final state of an executed option the exact answers that lead to it, and which effects they leave |
| `Lifecycle.PlanEnds` | `opsswarm/orchestrator.py:483-525` | The final state of a plan for each verdict; required business input waits and executes nothing |
| `Lifecycle.InvestigationEnds` | `opsswarm/orchestrator.py:461-481` | A decision without budget, input without a sure diagnosis, the plan's end otherwise |
| `Lifecycle.CommandEnds` | `opsswarm/orchestrator.py:819-942` | The final state and effects of each command that is not refused; an approval executes the first option with the id |
| `Lifecycle.EnforcementDecides` | `opsswarm/models.py:566-610` | In which states strict mode blocks each command, that a declined preflight of the wave loop raises there and only there, and that an approval ignores the state otherwise |
| `Lifecycle.EnteredFrom` | `opsswarm/models.py:47-110` | The transition table read by its targets, and the terminal states |
| `RateLimiter.SimpleRateLimiter.constructor` | `opsswarm/auth.py:111-127` | Starts empty |
| `RateLimiter.SimpleRateLimiter.OldestKey` | `opsswarm/auth.py:129-135` | Finds a least recently used key |
| `RateLimiter.SimpleRateLimiter.IsAllowed` | `opsswarm/auth.py:146-166` | The decision and the new buckets, with eviction of a least recently used key; a denial changes nothing |
| `RateLimiter.AdmissionTracks` | `opsswarm/auth.py:137-166` | The stored list is the end of all admissions, and what was dropped is a window old |
| `RateLimiter.StepKeepsInv` | `opsswarm/auth.py:129-166` | Every call keeps the bookkeeping of every key and the bound on the number of keys |
| `RateLimiter.WindowNeverExceeded` | `opsswarm/auth.py:146-166` | Every schedule: no half-open interval of one window holds more than `max_requests` admissions of a key between its evictions; at most max(1, `max_buckets`) keys |
| `RateLimiter.AdmittedIff` | `opsswarm/auth.py:146-166` | Every schedule: a call is admitted iff fewer than `max_requests` of all admissions of its key, since it was stored, lie in the window that ends now |
| `RateLimiter.RetryAfterIsExact` | `opsswarm/auth.py:146-166` | After a denial a retry at the advertised time is admitted, and one more than a second earlier is denied |
| `RateLimiter.OnlyLruDisturbed` | `opsswarm/auth.py:129-166` | An admission stamps its own key; another key goes only if the key is new and the buckets are at the cap, and then a least recently used one |
| `RateLimiter.EvictedIsOldest` | `opsswarm/auth.py:129-135` | Every schedule: a key that is dropped has no later last admission than any other stored key |
| `RateLimiter.CrashesIffNoRequests` | `opsswarm/auth.py:146-166` | The call fails iff `max_requests` is zero or less |
| `AntiReplay.AntiReplayStore.constructor` | `opsswarm/auth.py:333-336` | Starts empty |
| `AntiReplay.AntiReplayStore.IsReplay` | `opsswarm/auth.py:338-353` | Without '=' nothing happens; otherwise a replay iff the MAC was stored at most 360 seconds ago, all older entries go, and a new MAC is stored with the present time |
| `AntiReplay.MacIsCarried` | `opsswarm/auth.py:341-342` | The MAC of a token is what follows its first '=' |
| `AntiReplay.EveryOutcome` | `opsswarm/auth.py:598-645` | Preshared iff a pre-shared key; derived iff not, with a MAC that is not retained and a timely timestamp within 60 seconds; denied otherwise; and what each leaves in the store |
| `AntiReplay.VerifyBearerHmac` | `opsswarm/auth.py:469-489` | True iff the timestamp is inside the tolerance of its two clock readings and the MAC matches; how many readings it takes |
| `AntiReplay.VerifyScopedBearer` | `opsswarm/auth.py:598-645` | The check computes its specification exactly: access, store and clock readings, for pre-shared keys and derived tokens |
| `AntiReplay.AcceptsIff` | `opsswarm/auth.py:616-645` | A derived token is accepted iff it is no replay and some timestamp around the reading after the replay test carries its MAC and is not too old at the reading when its turn comes |
| `AntiReplay.AcceptanceFits` | `opsswarm/auth.py:616-645` | Of an accepted token: its MAC was not retained and now is, and its timestamp fits the readings |
| `AntiReplay.RetainedMacIsRejected` | `opsswarm/auth.py:338-353` | A MAC whose entry outlasts its timestamp is never accepted again, across all evictions |
| `AntiReplay.LateMacIsRejected` | `opsswarm/auth.py:469-489` | Once the clock is past the tolerance of its timestamp, a MAC is never accepted again |
| `AntiReplay.CheckIsLocal` | `opsswarm/auth.py:598-645` | A check depends on its own clock readings only |
| `AntiReplay.AcceptedAgainIff` | `opsswarm/auth.py:616-645` | An accepted token can be accepted again, under some later clock and requests, iff its timestamp is more than 299 seconds after the replay test and the check ended within the tolerance |
| `AntiReplay.LatestAcceptedAgainIff` | `opsswarm/auth.py:616-645` | For the latest timestamp of a check: iff more than 239 seconds, to the whole second, lie between its first two readings |
| `AntiReplay.AcceptedAtMostOnce` | `opsswarm/auth.py:616-645` | Every run of requests within that bound accepts a MAC at most once, ever, across evictions |
| `AntiReplay.SlowRequestAcceptsTwice` | `opsswarm/auth.py:616-645` | With 240 seconds between the first two readings, the bearer check itself accepts the same token twice |
| `Leases.LeaseTable.constructor` | `opsswarm/ha_db.py:389-435` | No lease |
| `Leases.LeaseTable.AcquireRunLease` | `opsswarm/ha_db.py:389-435` | The upsert, and the owner read back; success means an unexpired lease of one's own |
| `Leases.LeaseTable.ReleaseRunLease` | `opsswarm/ha_db.py:438-463` | Deletes the row iff it is one's own |
| `Leases.LeaseTable.CheckInstanceLeases` | `opsswarm/ha_db.py:231-253` | Exactly the runs this instance owns unexpired |
| `Leases.HolderStays` | `opsswarm/ha_db.py:403-463` | Operations of others and failed transactions never take a lease before its expiry |
| `Leases.LeaseIsExclusive` | `opsswarm/ha_db.py:403-463` | After a grant with expiry E nobody else is granted the run up to and including E, unless the holder released it or wrote an earlier expiry |
| `Leases.HolderKeepsRow` | `opsswarm/ha_db.py:403-463` | Through harmless operations the stored row is the one the holder wrote last |
| `Leases.HolderOwnsThroughoutIff` | `opsswarm/ha_db.py:403-463` | A run stays with its holder through any operations iff it does not release it and every rival comes by the expiry it wrote last |
| `Leases.RivalGrantedIff` | `opsswarm/ha_db.py:403-463` | A rival is granted the run iff it comes after that expiry, however often the holder has tried in between |
| `Leases.ExpiredLeaseIsTaken` | `opsswarm/ha_db.py:403-430` | A grant happens iff the run is free, one's own, or strictly expired |
| `CasStore.FileStore.constructor` | `opsswarm/store.py:57-88` | No records |
| `CasStore.FileStore.UpdateWithCas` | `opsswarm/store.py:304-323` | Wins iff the record exists at the expected revision; then every patched field it has gets the patch's value, every other keeps its own, revision and time are new; otherwise, and for other records, nothing changes |
| `CasStore.WritersAreSerialised` | `opsswarm/store.py:304-323` | Any interleaving: one winner for each revision, consecutive revisions, and the record is the winning patches in order |
| `CasStore.FieldsComeFromWinners` | `opsswarm/store.py:304-323` | Any interleaving, field by field: the last winner that names a field decides it, otherwise it keeps its initial value |
| `CasStore.StampedByLastWin` | `opsswarm/store.py:318-321` | The record carries the time of the last win |
| `CasStore.MissingRunStaysMissing` | `opsswarm/store.py:304-323` | Updates never create a record |

## Left out

- OpenClaw calls, prompts, comment texts, labels, metrics, logging, HTTP and SQL plumbing: parameters or single steps.
- `WaveBudget.CoveredRunCompletes`: speaks of runs in which no specialist raises; an exception ends the investigation (`WaveScheduler.Investigate`), and in `WaveTasks` the task returns its permit.
- `WaveScheduler.CompletesWithinDepth`: takes the answers as given; that budgets do not decline is derived in `WaveBudget`.
- `WaveScheduler.FreshRunCompletes`: likewise; `WaveBudget.FreshRunCompletes` needs no such assumption.
- `WaveScheduler.InvestigateFresh`: likewise, for the completion of the graphs it admits.
- `WaveScheduler.TerminatesIffBudgetCovers`: about the task budget alone; `WaveBudget.TerminatesIffBudgetsCover` has both.
- `WaveBudget.StrictRunEnds`: does not say when a run short of task budget spins in strict enforcement, which depends on whether another budget raises first.
- Wall clock, tokens, corrective actions and steps of an agent as budgets: one arbitrary verdict at each preflight, `otherLimit`, in `WaveTasks` and `WaveBudget`, and the budget answers of `Lifecycle`.
- Tasks appended by `/opsswarm investigate` are not validated again by the code; `WaveScheduler` makes its termination claims for validated graphs only.
- Wakening order of the semaphore and of the event loop: any order.
- `Lifecycle` treats the record as durable after every change; memory lost in a crash before the next save is not modelled. A crash shows as an exception at an await, followed by a restart.
- `Lifecycle.Live`: comments do not overlap each other or a start; the code takes no lock for comments. An absent or empty comment or delivery id is None.
- `Lifecycle.Run.Preflight`: each verdict is an arbitrary answer; that a used-up budget stays used up until the clock restarts is not modelled.
- `Lifecycle.Run.ExecuteOption`: its branch for an ambiguous write is in the code, but no modelled call raises that exception during an execution.
- `Lifecycle.Run.ResumeFrom`: takes an arbitrary checkpoint, because what the checkpoint reader returns is not modelled.
- `Lifecycle.Run.Investigation`: the wave loop is one request here, which ends; when it does is `WaveBudget`'s part. The corrective-action issues are modelled by whether the report clock ran out among them.
- `GitHubClient.Client.Req`: cancellation while the verdict waits for the lock of the breaker is not modelled; there the barrier is not raised either.
- `Breakers`, `RateLimiter`, `AntiReplay` and `Leases` measure time in exact reals; floating point is not modelled.
- `Evidence` takes the hash as collision-free on kind, signed fields and previous signature; the canonical JSON, the 16-digit truncation and JSON rows that are not objects are not modelled, and a row is written whole or not at all.
- `AntiReplay` takes the MAC as collision-free (RFC 2104, section 2); scopes and the case of the HTTP method are not modelled, and whether a token is a pre-shared key is a parameter.
- `Policy.FirstMatchWins`: a rule's pattern in its mode is an arbitrary predicate, and lower-casing is ASCII only.
- `Readiness`: an exception while the drain waits for its event is not modelled; after a new startup the gate is open again, which the drain theorems exclude.
- `CasStore`: plain saves and checkpoint saves happen outside the compare-and-swap, and patches do not rename a run.
- Lease epochs, take-over authorisations, the PostgreSQL rate limit, governed remediation, reconciliation, skill and schema validation, origin lists, redaction: no protocol state, or not reached by the modelled code.
