/**
 The wave loop together with the tasks inside its waves: every wave is an arbitrary interleaving, and what a task
 contributes follows from its phase when the wave is settled. Task budget and OpenClaw-call budget are both counted.
 */
module WaveBudget {
  import opened Common
  import opened TaskGraph
  import opened WaveScheduler
  import Tasks = WaveTasks

  /** The loop variables and the OpenClaw calls counted so far. */
  datatype Budgeted = Budgeted(loop: Loop, calls: int)

  /** The id on the finding of a task. */
  type Naming = (nat, Task) -> TaskId

  const OWN: Naming := (w: nat, t: Task) => t.id
  const HONEST: Specialist := (w: nat, t: Task) => Found(t.id)

  function Batch(l: Tasks.Limits, b: Budgeted): seq<Task> {
    Selected(b.loop, l.maxTasks)
  }

  function Entry(l: Tasks.Limits, b: Budgeted): Tasks.Wave {
    Tasks.InitialWave(l, |Batch(l, b)|, b.loop.executed, b.calls)
  }

  /** `run` is an interleaving of the next wave up to its end, in which nothing raises out of the wave. */
  ghost predicate Settles(l: Tasks.Limits, b: Budgeted, run: seq<Tasks.Action>) {
    && Tasks.Schedule(l, Entry(l, b), run)
    && Tasks.Settled(Tasks.After(l, Entry(l, b), run))
    && Tasks.Failed !in Tasks.After(l, Entry(l, b), run).phases
    && Tasks.Refused !in Tasks.After(l, Entry(l, b), run).phases
  }

  ghost function Outcome(l: Tasks.Limits, b: Budgeted, run: seq<Tasks.Action>): Tasks.Wave
    requires Settles(l, b, run)
  {
    Tasks.After(l, Entry(l, b), run)
  }

  function SucceededSet(batch: seq<Task>, phases: seq<Tasks.Phase>): set<Task> {
    set i | 0 <= i < |batch| && i < |phases| && phases[i] == Tasks.Succeeded :: batch[i]
  }

  /** What the tasks of a settled wave contribute. */
  function Contributions(batch: seq<Task>, phases: seq<Tasks.Phase>, naming: Naming): Specialist {
    var succeeded := SucceededSet(batch, phases);
    (w: nat, t: Task) => if t in succeeded then Found(naming(w, t)) else Declined
  }

  /** The loop after a wave: the findings move it, the counters are those of the wave. */
  ghost function Next(l: Tasks.Limits, b: Budgeted, run: seq<Tasks.Action>, naming: Naming): Budgeted
    requires Settles(l, b, run)
  {
    var w := Outcome(l, b, run);
    var moved := Wave(b.loop, l.maxTasks, Contributions(Batch(l, b), w.phases, naming));
    Budgeted(moved.(executed := w.executed), w.calls)
  }

  /** The loop goes round once for each interleaving in `runs`. */
  ghost predicate LoopRun(l: Tasks.Limits, b: Budgeted, runs: seq<seq<Tasks.Action>>, naming: Naming)
    decreases |runs|
  {
    runs == [] ||
    (b.loop.pending != [] && Ready(b.loop) != [] && Settles(l, b, runs[0])
     && LoopRun(l, Next(l, b, runs[0], naming), runs[1..], naming))
  }

  ghost function LoopAfter(l: Tasks.Limits, b: Budgeted, runs: seq<seq<Tasks.Action>>, naming: Naming): Budgeted
    requires LoopRun(l, b, runs, naming)
    decreases |runs|
  {
    if runs == [] then b else LoopAfter(l, Next(l, b, runs[0], naming), runs[1..], naming)
  }

  /** Findings carry their own task's id, no specialist raises, and only the two counted budgets decline. */
  ghost predicate CalmRun(l: Tasks.Limits, b: Budgeted, runs: seq<seq<Tasks.Action>>) {
    LoopRun(l, b, runs, OWN) && forall i :: 0 <= i < |runs| ==> Tasks.Calm(runs[i])
  }

  // ---- One wave ----

  lemma BatchDistinct(l: Tasks.Limits, b: Budgeted)
    requires UniqueIds(b.loop.pending)
    ensures forall i, j :: 0 <= i < j < |Batch(l, b)| ==> Batch(l, b)[i] != Batch(l, b)[j]
  {
    var ready := Ready(b.loop);
    KeepDistinct(b.loop.pending, UnblockedSet(b.loop.pending, b.loop.done));
    forall i, j | 0 <= i < j < |ready| ensures ready[i] != ready[j] {
      assert Ids(ready)[i] != Ids(ready)[j];
    }
  }

  lemma {:induction false} KeptCount(batch: seq<Task>, phases: seq<Tasks.Phase>, kept: set<Task>)
    requires |phases| == |batch|
    requires forall i :: 0 <= i < |batch| ==> phases[i] in {Tasks.Declined, Tasks.Succeeded}
    requires forall i :: 0 <= i < |batch| ==> (batch[i] in kept <==> phases[i] == Tasks.Succeeded)
    ensures |Keep(batch, kept)| == |batch| - Tasks.NotBegun(phases) == Tasks.Count(phases, Tasks.Succeeded)
  {
    if batch != [] {
      KeptCount(batch[..|batch|-1], phases[..|phases|-1], kept);
    }
  }

  /** The counters of a settled wave count exactly the tasks that contributed a finding. */
  lemma WaveCounts(l: Tasks.Limits, b: Budgeted, run: seq<Tasks.Action>, naming: Naming)
    requires UniqueIds(b.loop.pending) && Settles(l, b, run)
    ensures var w := Outcome(l, b, run);
      var begun := Begun(Batch(l, b), b.loop.waves, Contributions(Batch(l, b), w.phases, naming));
      w.executed == b.loop.executed + |begun| && w.calls == b.calls + |begun|
  {
    var w := Outcome(l, b, run);
    var batch := Batch(l, b);
    Tasks.InitialInv(l, |batch|, b.loop.executed, b.calls);
    Tasks.WaveKeepsLimits(l, b.loop.executed, b.calls, Entry(l, b), run);
    BatchDistinct(l, b);
    var kept := BegunSet(batch, b.loop.waves, Contributions(batch, w.phases, naming));
    forall i | 0 <= i < |batch| ensures batch[i] in kept <==> w.phases[i] == Tasks.Succeeded {
    }
    KeptCount(batch, w.phases, kept);
  }

  /** The loop that counts is the loop of the scheduler: its own count of executed tasks is the same. */
  lemma NextIsWave(l: Tasks.Limits, b: Budgeted, run: seq<Tasks.Action>, naming: Naming)
    requires UniqueIds(b.loop.pending) && Settles(l, b, run)
    ensures Next(l, b, run, naming).loop ==
            Wave(b.loop, l.maxTasks, Contributions(Batch(l, b), Outcome(l, b, run).phases, naming))
  {
    WaveCounts(l, b, run, naming);
  }

  /** What every wave keeps: nothing is lost between pending and executed tasks, nor between them and the calls. */
  lemma WaveConserves(tasks: seq<Task>, l: Tasks.Limits, b: Budgeted, run: seq<Tasks.Action>)
    requires UniqueIds(tasks) && Consistent(tasks, b.loop) && Settles(l, b, run)
    ensures var b' := Next(l, b, run, OWN);
      && Consistent(tasks, b'.loop)
      && b'.loop.executed + |b'.loop.pending| == b.loop.executed + |b.loop.pending|
      && b'.calls + |b'.loop.pending| == b.calls + |b.loop.pending|
  {
    hide Selected, Keep, Begun, Wave;
    WaveCounts(l, b, run, OWN);
    OwnWave(tasks, b.loop, l.maxTasks, Contributions(Batch(l, b), Outcome(l, b, run).phases, OWN));
  }

  /** When every task of a wave succeeds, the wave is the honest one. */
  lemma FullWave(l: Tasks.Limits, b: Budgeted, run: seq<Tasks.Action>)
    requires UniqueIds(b.loop.pending) && Settles(l, b, run)
    requires |Outcome(l, b, run).phases| == |Batch(l, b)|
    requires forall i :: 0 <= i < |Batch(l, b)| ==> Outcome(l, b, run).phases[i] == Tasks.Succeeded
    ensures Next(l, b, run, OWN) == Budgeted(Wave(b.loop, l.maxTasks, HONEST), b.calls + |Batch(l, b)|)
  {
    hide Selected, Keep, Settles;
    var w := Outcome(l, b, run);
    var batch := Batch(l, b);
    var sp := Contributions(batch, w.phases, OWN);
    forall t | t in batch ensures sp(b.loop.waves, t) == HONEST(b.loop.waves, t) {
      var i :| 0 <= i < |batch| && batch[i] == t;
      assert batch[i] in SucceededSet(batch, w.phases);
    }
    WaveCongruent(b.loop, l.maxTasks, sp, HONEST);
    WaveCounts(l, b, run, OWN);
    NextIsWave(l, b, run, OWN);
    HonestBatch(batch, b.loop.waves, HONEST);
  }

  /** When both budgets cover the batch, an interleaving has no say: the wave is the honest one. */
  lemma CoveredWave(l: Tasks.Limits, b: Budgeted, run: seq<Tasks.Action>)
    requires UniqueIds(b.loop.pending) && Settles(l, b, run) && Tasks.Calm(run)
    requires b.loop.executed + |Batch(l, b)| <= l.maxTasks && b.calls + |Batch(l, b)| <= l.maxCalls
    ensures Next(l, b, run, OWN) == Budgeted(Wave(b.loop, l.maxTasks, HONEST), b.calls + |Batch(l, b)|)
  {
    hide Selected, Keep, Next;
    Tasks.FailuresComeFromRaises(l, Entry(l, b), run);
    forall i | 0 <= i < |Batch(l, b)| ensures Outcome(l, b, run).phases[i] == Tasks.Succeeded {
      Tasks.CoveredWaveSucceeds(l, |Batch(l, b)|, b.loop.executed, b.calls, run, i);
    }
    FullWave(l, b, run);
  }

  /** In strict enforcement a wave that raises nothing has declined nothing: it is the honest one. */
  lemma StrictWave(l: Tasks.Limits, b: Budgeted, run: seq<Tasks.Action>)
    requires UniqueIds(b.loop.pending) && Settles(l, b, run) && Tasks.Strict(run)
    ensures Next(l, b, run, OWN) == Budgeted(Wave(b.loop, l.maxTasks, HONEST), b.calls + |Batch(l, b)|)
  {
    hide Selected, Keep, Next;
    Tasks.StrictNeverDeclines(l, Entry(l, b), run);
    FullWave(l, b, run);
  }

  // ---- Both budgets cover the pending tasks ----

  ghost predicate Covers(l: Tasks.Limits, b: Budgeted) {
    b.loop.executed + |b.loop.pending| <= l.maxTasks && b.calls + |b.loop.pending| <= l.maxCalls
  }

  lemma BatchWithinPending(l: Tasks.Limits, b: Budgeted)
    ensures |Batch(l, b)| <= |b.loop.pending|
  {
    KeepSplits(b.loop.pending, UnblockedSet(b.loop.pending, b.loop.done),
      (set t | t in b.loop.pending) - UnblockedSet(b.loop.pending, b.loop.done));
  }

  /** What an honest wave keeps on the way to completion. */
  ghost predicate Progresses(b: Budgeted, b': Budgeted) {
    && b'.loop.waves == b.loop.waves + 1
    && b'.loop.executed + |b'.loop.pending| == b.loop.executed + |b.loop.pending|
    && b'.calls + |b'.loop.pending| == b.calls + |b.loop.pending|
    && multiset(b'.loop.started) + multiset(b'.loop.pending) == multiset(b.loop.started) + multiset(b.loop.pending)
  }

  lemma HonestStep(tasks: seq<Task>, order: seq<TaskId>, done0: set<TaskId>, l: Tasks.Limits, b: Budgeted)
    requires OnTrack(tasks, order, done0, b.loop, l.maxTasks)
    ensures var b' := Budgeted(Wave(b.loop, l.maxTasks, HONEST), b.calls + |Batch(l, b)|);
      OnTrack(tasks, order, done0, b'.loop, l.maxTasks) && Progresses(b, b')
  {
    hide Wave, Selected, DependenciesStartedFirst, DeeperThanWaves, Validated;
    ValidatedIds(tasks, order);
    HonestWave(tasks, b.loop, l.maxTasks, HONEST);
    OnTrackStep(tasks, order, done0, b.loop, l.maxTasks, HONEST);
  }

  lemma CoveredStep(tasks: seq<Task>, order: seq<TaskId>, done0: set<TaskId>, l: Tasks.Limits, b: Budgeted,
                    run: seq<Tasks.Action>)
    requires OnTrack(tasks, order, done0, b.loop, l.maxTasks) && Covers(l, b)
    requires Settles(l, b, run) && Tasks.Calm(run)
    ensures var b' := Next(l, b, run, OWN);
      OnTrack(tasks, order, done0, b'.loop, l.maxTasks) && Covers(l, b') && Progresses(b, b')
  {
    hide Wave, Selected, Next, Settles, DependenciesStartedFirst, DeeperThanWaves, Validated;
    BatchWithinPending(l, b);
    CoveredWave(l, b, run);
    HonestStep(tasks, order, done0, l, b);
  }

  /**
   Main result. When both budgets cover the pending tasks, every calm run of the loop, whatever the interleavings
   of its waves, takes at most `maxDepth` waves, and at any point either everything is done or something is ready;
   at its end every pending task has been executed exactly once, after its dependencies, and called once.
   */
  lemma {:induction false} CoveredRunCompletes(tasks: seq<Task>, order: seq<TaskId>, done0: set<TaskId>,
                                               l: Tasks.Limits, b: Budgeted,
                                              maxDepth: nat, runs: seq<seq<Tasks.Action>>)
    requires OnTrack(tasks, order, done0, b.loop, l.maxTasks) && Covers(l, b)
    requires DepthWithin(GraphOf(tasks), maxDepth) && CalmRun(l, b, runs)
    ensures var r := LoopAfter(l, b, runs, OWN);
      && (|runs| > 0 ==> b.loop.waves + |runs| <= maxDepth)
      && (r.loop.pending == [] || Ready(r.loop) != [])
      && r.loop.executed + |r.loop.pending| == b.loop.executed + |b.loop.pending|
      && r.calls + |r.loop.pending| == b.calls + |b.loop.pending|
      && multiset(r.loop.started) + multiset(r.loop.pending) == multiset(b.loop.started) + multiset(b.loop.pending)
      && DependenciesStartedFirst(done0, r.loop.started)
    decreases |runs|
  {
    hide Next, Settles, DependenciesStartedFirst, Consistent, DeeperThanWaves, Validated, Ready, DepthWithin, Covers;
    if b.loop.pending != [] {
      PendingMeansShallow(tasks, order, done0, b.loop, l.maxTasks, maxDepth);
    }
    if runs != [] {
      CoveredStep(tasks, order, done0, l, b, runs[0]);
      CoveredRunCompletes(tasks, order, done0, l, Next(l, b, runs[0], OWN), maxDepth, runs[1..]);
    }
  }

  // ---- A wave can always be taken, and need not exceed the call budget ----

  lemma SomeWave(l: Tasks.Limits, b: Budgeted) returns (run: seq<Tasks.Action>)
    ensures Settles(l, b, run) && Tasks.Calm(run)
    ensures Outcome(l, b, run).calls <= Tasks.Max(b.calls, l.maxCalls)
    ensures Outcome(l, b, run).executed <= Tasks.Max(b.loop.executed, l.maxTasks)
  {
    var w := Entry(l, b);
    run := Tasks.SequentialRun(l, w, 0);
    Tasks.InitialInv(l, |Batch(l, b)|, b.loop.executed, b.calls);
    Tasks.WaveKeepsLimits(l, b.loop.executed, b.calls, w, run);
  }

  /** A loop that is not finished can go on: its calm runs all end with everything done, or not at all. */
  lemma UnfinishedGoesOn(tasks: seq<Task>, order: seq<TaskId>, l: Tasks.Limits, b: Budgeted)
    returns (run: seq<Tasks.Action>)
    requires Validated(tasks, order) && Consistent(tasks, b.loop) && b.loop.pending != []
    ensures Ready(b.loop) != [] && Settles(l, b, run) && Tasks.Calm(run)
    ensures Next(l, b, run, OWN).calls <= Tasks.Max(b.calls, l.maxCalls)
    ensures Next(l, b, run, OWN).loop.executed <= Tasks.Max(b.loop.executed, l.maxTasks)
  {
    hide Settles;
    var ready := SomeTaskIsReady(tasks, order, b.loop, b.loop.pending[0]);
    run := SomeWave(l, b);
  }

  lemma CalmRunPrepend(l: Tasks.Limits, b: Budgeted, run: seq<Tasks.Action>, runs: seq<seq<Tasks.Action>>)
    requires b.loop.pending != [] && Ready(b.loop) != [] && Settles(l, b, run) && Tasks.Calm(run)
    requires CalmRun(l, Next(l, b, run, OWN), runs)
    ensures CalmRun(l, b, [run] + runs)
    ensures LoopAfter(l, b, [run] + runs, OWN) == LoopAfter(l, Next(l, b, run, OWN), runs, OWN)
  {
    hide Settles, Next, Ready, Tasks.Calm;
    assert ([run] + runs)[1..] == runs;
  }

  /** One of the two budgets is smaller than what is pending. */
  ghost predicate FallsShort(l: Tasks.Limits, b: Budgeted) {
    b.loop.pending != [] && !Covers(l, b)
  }

  /** When a budget falls short, there are calm runs of any length, none of which finishes. */
  lemma {:induction false} ShortBudgetRunsOn(tasks: seq<Task>, order: seq<TaskId>, l: Tasks.Limits, b: Budgeted, n: nat)
    returns (runs: seq<seq<Tasks.Action>>)
    requires Validated(tasks, order) && Consistent(tasks, b.loop) && FallsShort(l, b)
    ensures |runs| == n && CalmRun(l, b, runs) && FallsShort(l, LoopAfter(l, b, runs, OWN))
    decreases n
  {
    if n == 0 {
      runs := [];
    } else {
      hide Settles, Next, Validated, Consistent, Ready;
      var run := UnfinishedGoesOn(tasks, order, l, b);
      ValidatedIds(tasks, order);
      WaveConserves(tasks, l, b, run);
      var rest := ShortBudgetRunsOn(tasks, order, l, Next(l, b, run, OWN), n - 1);
      CalmRunPrepend(l, b, run, rest);
      runs := [run] + rest;
    }
  }

  lemma ValidatedIds(tasks: seq<Task>, order: seq<TaskId>)
    requires Validated(tasks, order)
    ensures UniqueIds(tasks)
  {
  }

  ghost predicate BoundedBy(l: Tasks.Limits, b: Budgeted, bound: nat) {
    forall runs :: CalmRun(l, b, runs) ==> |runs| <= bound
  }

  /**
   Exactly when the loop terminates in every interleaving: nothing is pending, or the remaining task budget and the
   remaining call budget both cover the pending tasks. Otherwise some interleaving keeps it going round for ever.
   */
  lemma TerminatesIffBudgetsCover(tasks: seq<Task>, order: seq<TaskId>, done: set<TaskId>, executed: int, calls: int,
                                  l: Tasks.Limits)
    requires Validated(tasks, order)
    ensures var b := Budgeted(Start(tasks, done, executed), calls);
      (exists bound :: BoundedBy(l, b, bound)) <==> b.loop.pending == [] || Covers(l, b)
  {
    var b := Budgeted(Start(tasks, done, executed), calls);
    StartConsistent(tasks, done, executed);
    if b.loop.pending == [] {
      assert BoundedBy(l, b, 0);
    } else if Covers(l, b) {
      DepthWithinCount(tasks, order);
      StartOnTrack(tasks, order, done, executed, l.maxTasks);
      forall runs | CalmRun(l, b, runs) ensures |runs| <= |order| {
        CoveredRunCompletes(tasks, order, done, l, b, |order|, runs);
      }
      assert BoundedBy(l, b, |order|);
    } else {
      forall bound: nat ensures !BoundedBy(l, b, bound) {
        var runs := ShortBudgetRunsOn(tasks, order, l, b, bound + 1);
      }
    }
  }

  // ---- Strict enforcement ----

  /** Findings carry their own task's id, nothing raises, and a declined task could only have raised. */
  ghost predicate StrictRun(l: Tasks.Limits, b: Budgeted, runs: seq<seq<Tasks.Action>>) {
    LoopRun(l, b, runs, OWN) && forall i :: 0 <= i < |runs| ==> Tasks.Strict(runs[i])
  }

  /**
   In strict enforcement the task budget suffices for termination: when it covers the pending tasks, every run ends
   within the depth, with everything done or, if another budget is used up on the way, with an exception.
   */
  lemma {:induction false} StrictRunEnds(tasks: seq<Task>, order: seq<TaskId>, done0: set<TaskId>, l: Tasks.Limits,
                                        b: Budgeted, maxDepth: nat, runs: seq<seq<Tasks.Action>>)
    requires OnTrack(tasks, order, done0, b.loop, l.maxTasks)
    requires DepthWithin(GraphOf(tasks), maxDepth) && StrictRun(l, b, runs)
    ensures var r := LoopAfter(l, b, runs, OWN);
      && (|runs| > 0 ==> b.loop.waves + |runs| <= maxDepth)
      && OnTrack(tasks, order, done0, r.loop, l.maxTasks) && (r.loop.pending == [] || Ready(r.loop) != [])
      && r.loop.executed + |r.loop.pending| == b.loop.executed + |b.loop.pending|
      && multiset(r.loop.started) + multiset(r.loop.pending) == multiset(b.loop.started) + multiset(b.loop.pending)
    decreases |runs|
  {
    hide Next, Settles, DependenciesStartedFirst, DeeperThanWaves, Validated, Ready, DepthWithin;
    if b.loop.pending != [] {
      PendingMeansShallow(tasks, order, done0, b.loop, l.maxTasks, maxDepth);
    }
    if runs != [] {
      StrictWave(l, b, runs[0]);
      HonestStep(tasks, order, done0, l, b);
      StrictRunEnds(tasks, order, done0, l, Next(l, b, runs[0], OWN), maxDepth, runs[1..]);
    }
  }

  /**
   Once another budget is used up with task budget left and work ready, no wave goes by in strict enforcement:
   however it interleaves, a declined task raises out of the loop.
   */
  lemma StrictUsedUpRaises(l: Tasks.Limits, b: Budgeted, run: seq<Tasks.Action>)
    requires b.calls >= l.maxCalls || Tasks.AllOtherLimited(run)
    requires b.loop.executed < l.maxTasks && Ready(b.loop) != []
    requires Tasks.Schedule(l, Entry(l, b), run) && Tasks.Settled(Tasks.After(l, Entry(l, b), run)) && Tasks.Strict(run)
    ensures Tasks.Refused in Tasks.After(l, Entry(l, b), run).phases && !Settles(l, b, run)
  {
    Tasks.StrictUsedUpRaises(l, |Batch(l, b)|, b.loop.executed, b.calls, run);
  }

  // ---- Standing still ----

  /** No task of any coming wave can begin. */
  ghost predicate UsedUp(l: Tasks.Limits, b: Budgeted, runs: seq<seq<Tasks.Action>>) {
    || b.loop.executed >= l.maxTasks || b.calls >= l.maxCalls
    || (forall i :: 0 <= i < |runs| ==> Tasks.AllOtherLimited(runs[i]))
  }

  lemma UsedUpWave(l: Tasks.Limits, b: Budgeted, run: seq<Tasks.Action>, naming: Naming)
    requires Settles(l, b, run) && Tasks.Declining(l, Entry(l, b), run)
    requires b.loop.pending == NotDone(b.loop.pending, b.loop.done)
    ensures Next(l, b, run, naming) == b.(loop := b.loop.(waves := b.loop.waves + 1))
  {
    var w := Outcome(l, b, run);
    Tasks.DecliningRun(l, Entry(l, b), run);
    assert SucceededSet(Batch(l, b), w.phases) == {};
    DeclinedWave(b.loop, l.maxTasks, Contributions(Batch(l, b), w.phases, naming));
  }

  /** Once a budget is used up with work pending, every run, however long, only counts its waves. */
  lemma {:induction false} UsedUpRunStandsStill(l: Tasks.Limits, b: Budgeted, runs: seq<seq<Tasks.Action>>,
                                                naming: Naming)
    requires LoopRun(l, b, runs, naming) && UsedUp(l, b, runs)
    requires b.loop.pending == NotDone(b.loop.pending, b.loop.done)
    ensures LoopAfter(l, b, runs, naming) == b.(loop := b.loop.(waves := b.loop.waves + |runs|))
    decreases |runs|
  {
    hide Settles, Next, Ready, NotDone;
    if runs != [] {
      UsedUpWave(l, b, runs[0], naming);
      UsedUpRunStandsStill(l, Next(l, b, runs[0], naming), runs[1..], naming);
    }
  }

  /** A calm wave leaves the pending tasks as they are exactly when one of the two counters has reached its limit. */
  lemma WaveStandsStillIff(tasks: seq<Task>, l: Tasks.Limits, b: Budgeted, run: seq<Tasks.Action>)
    requires UniqueIds(tasks) && Consistent(tasks, b.loop) && Ready(b.loop) != []
    requires Settles(l, b, run) && Tasks.Calm(run)
    requires b.loop.pending == NotDone(b.loop.pending, b.loop.done)
    ensures Next(l, b, run, OWN).loop.pending == b.loop.pending <==>
      b.loop.executed >= l.maxTasks || b.calls >= l.maxCalls
  {
    if b.loop.executed >= l.maxTasks || b.calls >= l.maxCalls {
      UsedUpWave(l, b, run, OWN);
    } else {
      Tasks.FirstTaskBegins(l, |Batch(l, b)|, b.loop.executed, b.calls, run);
      WaveConserves(tasks, l, b, run);
    }
  }

  // ---- The preflight after the loop ----

  function Fresh(tasks: seq<Task>): Budgeted {
    Budgeted(Start(tasks, {}, 0), 0)
  }

  lemma FreshIsOnTrack(tasks: seq<Task>, order: seq<TaskId>, l: Tasks.Limits)
    requires Validated(tasks, order) && |tasks| <= l.maxTasks && |tasks| <= l.maxCalls
    ensures Fresh(tasks).loop == Loop(tasks, {}, 0, [], 0)
    ensures OnTrack(tasks, order, {}, Fresh(tasks).loop, l.maxTasks) && Covers(l, Fresh(tasks))
  {
    hide OnTrack, Validated, Keep;
    KeepAll(tasks, UndoneSet(tasks, {}));
    StartOnTrack(tasks, order, {}, 0, l.maxTasks);
  }

  /**
   A fresh investigation needs no assumption about its preflights: if the validated graph fits both budgets, every
   calm run ends within the validated depth, and then every task has been executed and called exactly once.
   */
  lemma FreshRunCompletes(tasks: seq<Task>, order: seq<TaskId>, l: Tasks.Limits, maxDepth: nat,
                          runs: seq<seq<Tasks.Action>>)
    requires Validated(tasks, order) && DepthWithin(GraphOf(tasks), maxDepth)
    requires |tasks| <= l.maxTasks && |tasks| <= l.maxCalls && CalmRun(l, Fresh(tasks), runs)
    ensures var r := LoopAfter(l, Fresh(tasks), runs, OWN);
      && |runs| <= maxDepth && (r.loop.pending == [] || Ready(r.loop) != [])
      && DependenciesStartedFirst({}, r.loop.started)
      && (r.loop.pending == [] ==> r.loop.executed == r.calls == |tasks| && multiset(r.loop.started) == multiset(tasks))
  {
    hide OnTrack, Validated, LoopRun, LoopAfter, DepthWithin, Covers, Ready, DependenciesStartedFirst, Fresh;
    FreshIsOnTrack(tasks, order, l);
    CoveredRunCompletes(tasks, order, {}, l, Fresh(tasks), maxDepth, runs);
    FreshHasNoCalls(tasks);
    var r := LoopAfter(l, Fresh(tasks), runs, OWN);
    if r.loop.pending == [] {
      assert multiset(r.loop.pending) == multiset{} == multiset(Fresh(tasks).loop.started);
      assert multiset(r.loop.started) + multiset(r.loop.pending) == multiset(Fresh(tasks).loop.pending);
    }
  }

  lemma FreshHasNoCalls(tasks: seq<Task>)
    ensures Fresh(tasks).calls == 0
  {
  }

  /**
   The preflight after the last wave uses the same comparison as the one before each task: a fresh run of a validated
   graph that fits both budgets, over however many waves, gets past it exactly when the graph is smaller than both
   limits.
   */
  lemma FullGraphStopsAtPreflight(tasks: seq<Task>, order: seq<TaskId>, l: Tasks.Limits, runs: seq<seq<Tasks.Action>>)
    requires Validated(tasks, order) && |tasks| <= l.maxTasks && |tasks| <= l.maxCalls
    requires CalmRun(l, Fresh(tasks), runs) && LoopAfter(l, Fresh(tasks), runs, OWN).loop.pending == []
    ensures var r := LoopAfter(l, Fresh(tasks), runs, OWN);
      Tasks.Exceeded(l, r.loop.executed, r.calls, false) <==> |tasks| == l.maxTasks || |tasks| == l.maxCalls
  {
    hide Validated, CalmRun, LoopAfter, Fresh, DepthWithin;
    DepthWithinCount(tasks, order);
    FreshRunCompletes(tasks, order, l, |order|, runs);
  }
}
