/**
 The loop that runs the dependency-ready tasks of an incident in waves under a task budget.
 Specialists are arbitrary: the id on a finding comes from the model, not from the task.
 */
module WaveScheduler {
  import opened Common
  import opened TaskGraph

  /** What one scheduled task contributes: nothing (budget preflight declined), a finding, or an exception. */
  datatype Answer = Declined | Found(taskId: TaskId) | Raises
  type Specialist = (nat, Task) -> Answer

  /** Loop variables, plus the tasks started so far in order and the number of waves. */
  datatype Loop = Loop(pending: seq<Task>, done: set<TaskId>, executed: int, started: seq<Task>, waves: nat)

  datatype Status = Running | Finished | Unsatisfied | Failed

  /** The subsequence of the tasks that belong to `kept`. */
  function Keep(s: seq<Task>, kept: set<Task>): (r: seq<Task>)
    ensures forall t :: t in r <==> t in s && t in kept
  {
    if s == [] then [] else
      var r := Keep(s[..|s|-1], kept);
      assert s == s[..|s|-1] + [s[|s|-1]];
      if s[|s|-1] in kept then r + [s[|s|-1]] else r
  }

  predicate Unblocked(t: Task, done: set<TaskId>) {
    forall dep :: dep in t.dependsOn ==> dep in done
  }

  function UnblockedSet(pending: seq<Task>, done: set<TaskId>): set<Task> {
    set t | t in pending && Unblocked(t, done)
  }

  function UndoneSet(tasks: seq<Task>, done: set<TaskId>): set<Task> {
    set t | t in tasks && t.id !in done
  }

  function BegunSet(batch: seq<Task>, wave: nat, sp: Specialist): set<Task> {
    set t | t in batch && !sp(wave, t).Declined?
  }

  function ReadyOf(pending: seq<Task>, done: set<TaskId>): seq<Task> {
    Keep(pending, UnblockedSet(pending, done))
  }

  function NotDone(tasks: seq<Task>, done: set<TaskId>): seq<Task> {
    Keep(tasks, UndoneSet(tasks, done))
  }

  function Ready(s: Loop): seq<Task> {
    ReadyOf(s.pending, s.done)
  }

  function Available(executed: int, maxTasks: int): nat {
    if maxTasks > executed then maxTasks - executed else 0
  }

  function Selected(s: Loop, maxTasks: int): seq<Task> {
    var n := Available(s.executed, maxTasks);
    if n < |Ready(s)| then Ready(s)[..n] else Ready(s)
  }

  function FoundIds(batch: seq<Task>, wave: nat, sp: Specialist): set<TaskId> {
    set t | t in batch && sp(wave, t).Found? :: sp(wave, t).taskId
  }

  function Begun(batch: seq<Task>, wave: nat, sp: Specialist): seq<Task> {
    Keep(batch, BegunSet(batch, wave, sp))
  }

  /** One wave over the selected tasks. */
  function Wave(s: Loop, maxTasks: int, sp: Specialist): Loop {
    var batch := Selected(s, maxTasks);
    var begun := Begun(batch, s.waves, sp);
    var done' := s.done + FoundIds(batch, s.waves, sp);
    Loop(NotDone(s.pending, done'), done', s.executed + |begun|, s.started + begun, s.waves + 1)
  }

  predicate Fails(batch: seq<Task>, wave: nat, sp: Specialist) {
    exists t :: t in batch && sp(wave, t).Raises?
  }

  /** A wave in which a specialist raises: the gathered findings are lost, the executed tasks stay counted. */
  function FailedWave(s: Loop, maxTasks: int, sp: Specialist): Loop {
    var begun := Begun(Selected(s, maxTasks), s.waves, sp);
    s.(executed := s.executed + |begun|, started := s.started + begun, waves := s.waves + 1)
  }

  /** The loop observed for at most `horizon` more waves. */
  function Iterate(s: Loop, maxTasks: int, sp: Specialist, horizon: nat): (Status, Loop)
    decreases horizon
  {
    if s.pending == [] then (Finished, s)
    else if Ready(s) == [] then (Unsatisfied, s)
    else if horizon == 0 then (Running, s)
    else if Fails(Selected(s, maxTasks), s.waves, sp) then (Status.Failed, FailedWave(s, maxTasks, sp))
    else Iterate(Wave(s, maxTasks, sp), maxTasks, sp, horizon - 1)
  }

  function Start(tasks: seq<Task>, done: set<TaskId>, executed: int): Loop {
    Loop(NotDone(tasks, done), done, executed, [], 0)
  }

  lemma IterateUnfolds(s: Loop, maxTasks: int, sp: Specialist, horizon: nat)
    requires s.pending != [] && Ready(s) != [] && horizon > 0
    requires !Fails(Selected(s, maxTasks), s.waves, sp)
    ensures Iterate(s, maxTasks, sp, horizon) == Iterate(Wave(s, maxTasks, sp), maxTasks, sp, horizon - 1)
  {
  }

  lemma IterateEnds(s: Loop, maxTasks: int, sp: Specialist, horizon: nat)
    requires s.pending == []
    ensures Iterate(s, maxTasks, sp, horizon) == (Finished, s)
  {
  }

  /** How the four ends of the loop show in its result; a task leaves the pending ones only by being named done. */
  lemma {:induction false} NothingIsLost(tasks: seq<Task>, s: Loop, maxTasks: int, sp: Specialist, horizon: nat)
    requires forall t :: t in tasks ==> t in s.pending || t.id in s.done
    ensures var (status, r) := Iterate(s, maxTasks, sp, horizon);
      && (status == Finished <==> r.pending == [])
      && (forall t :: t in tasks ==> t in r.pending || t.id in r.done)
      && (status == Unsatisfied ==> forall t :: t in r.pending ==> exists dep :: dep in t.dependsOn && dep !in r.done)
      && (status == Running ==> r.waves == s.waves + horizon)
      && r.waves <= s.waves + horizon
    decreases horizon
  {
    hide Keep, Selected;
    if Ready(s) == [] {
      forall t | t in s.pending ensures exists dep :: dep in t.dependsOn && dep !in s.done {
        assert t !in Ready(s);
      }
    } else if s.pending != [] && horizon > 0 && !Fails(Selected(s, maxTasks), s.waves, sp) {
      NothingIsLost(tasks, Wave(s, maxTasks, sp), maxTasks, sp, horizon - 1);
    }
  }

  /** Runs one batch and collects the findings that came back. */
  method Gather(batch: seq<Task>, wave: nat, sp: Specialist)
    returns (begun: seq<Task>, found: set<TaskId>, raised: bool)
    ensures raised <==> Fails(batch, wave, sp)
    ensures begun == Begun(batch, wave, sp) && found == FoundIds(batch, wave, sp)
  {
    begun, found, raised := [], {}, false;
    for i := 0 to |batch|
      invariant raised <==> Fails(batch[..i], wave, sp)
      invariant begun == Begun(batch[..i], wave, sp)
      invariant found == FoundIds(batch[..i], wave, sp)
    {
      assert batch[..i+1][..i] == batch[..i];
      KeepCongruent(batch[..i], BegunSet(batch[..i], wave, sp), BegunSet(batch[..i+1], wave, sp));
      var answer := sp(wave, batch[i]);
      assert batch[..i+1] == batch[..i] + [batch[i]];
      if !answer.Declined? {
        begun := begun + [batch[i]];
      }
      if answer.Raises? {
        assert Fails(batch[..i+1], wave, sp);
        raised := true;
      }
      if answer.Found? {
        found := found + {answer.taskId};
      }
    }
    assert batch[..|batch|] == batch;
  }

  method Investigate(tasks: seq<Task>, findingIds: set<TaskId>, executed0: int, maxTasks: int, sp: Specialist,
                     horizon: nat)
    returns (status: Status, done: set<TaskId>, pending: seq<Task>, executed: int, waves: nat, started: seq<Task>)
    ensures (status, Loop(pending, done, executed, started, waves))
         == Iterate(Start(tasks, findingIds, executed0), maxTasks, sp, horizon)
    ensures status == Finished <==> pending == []
    ensures status == Finished ==> forall t :: t in tasks ==> t.id in done
    ensures status == Unsatisfied ==> forall t :: t in pending ==> exists dep :: dep in t.dependsOn && dep !in done
    ensures status == Running ==> waves == horizon
    ensures waves <= horizon
  {
    hide Keep;
    NothingIsLost(tasks, Start(tasks, findingIds, executed0), maxTasks, sp, horizon);
    done, executed, waves, started := findingIds, executed0, 0, [];
    pending := NotDone(tasks, done);
    while pending != []
      invariant waves <= horizon
      invariant Iterate(Loop(pending, done, executed, started, waves), maxTasks, sp, horizon - waves)
             == Iterate(Start(tasks, findingIds, executed0), maxTasks, sp, horizon)
      decreases horizon - waves
    {
      var ready := ReadyOf(pending, done);
      if ready == [] {
        return Unsatisfied, done, pending, executed, waves, started;
      }
      if waves == horizon {
        return Running, done, pending, executed, waves, started;
      }
      var available := Available(executed, maxTasks);
      if available < |ready| {
        ready := ready[..available];
      }
      ghost var before := Loop(pending, done, executed, started, waves);
      assert ready == Selected(before, maxTasks);
      var begun, found, raised := Gather(ready, waves, sp);
      executed, started, waves := executed + |begun|, started + begun, waves + 1;
      if raised {
        return Status.Failed, done, pending, executed, waves, started;
      }
      done := done + found;
      pending := NotDone(pending, done);
      assert Loop(pending, done, executed, started, waves) == Wave(before, maxTasks, sp);
      IterateUnfolds(before, maxTasks, sp, horizon - waves + 1);
    }
    status := Finished;
  }

  // ---- Facts about subsequences ----

  lemma {:induction false} KeepCongruent(s: seq<Task>, a: set<Task>, b: set<Task>)
    requires forall t :: t in s ==> (t in a <==> t in b)
    ensures Keep(s, a) == Keep(s, b)
  {
    if s != [] {
      assert s == s[..|s|-1] + [s[|s|-1]];
      KeepCongruent(s[..|s|-1], a, b);
    }
  }

  /** Keeping two complementary sets splits the sequence. */
  lemma {:induction false} KeepSplits(s: seq<Task>, a: set<Task>, b: set<Task>)
    requires forall t :: t in s ==> (t in a <==> t !in b)
    ensures multiset(Keep(s, a)) + multiset(Keep(s, b)) == multiset(s)
    ensures |Keep(s, a)| + |Keep(s, b)| == |s|
  {
    if s != [] {
      assert s == s[..|s|-1] + [s[|s|-1]];
      KeepSplits(s[..|s|-1], a, b);
    }
  }

  lemma {:induction false} KeepOfKeep(s: seq<Task>, a: set<Task>, b: set<Task>)
    ensures Keep(Keep(s, a), b) == Keep(s, a * b)
  {
    if s != [] {
      var init, last := s[..|s|-1], s[|s|-1];
      KeepOfKeep(init, a, b);
      if last in a {
        assert Keep(s, a)[..|Keep(s, a)|-1] == Keep(init, a);
      }
    }
  }

  lemma KeepAll(s: seq<Task>, a: set<Task>)
    requires forall t :: t in s ==> t in a
    ensures Keep(s, a) == s
  {
    if s != [] {
      assert s == s[..|s|-1] + [s[|s|-1]];
    }
  }

  /** The last task of a graph shares its id with no earlier one. */
  lemma LastIsNew(s: seq<Task>)
    requires UniqueIds(s) && s != []
    ensures UniqueIds(s[..|s|-1])
    ensures forall t :: t in s[..|s|-1] ==> t.id != s[|s|-1].id
  {
    var init := s[..|s|-1];
    assert forall i :: 0 <= i < |init| ==> Ids(init)[i] == Ids(s)[i];
    forall t | t in init ensures t.id != s[|s|-1].id {
      var i :| 0 <= i < |init| && init[i] == t;
      assert Ids(s)[i] == t.id && Ids(s)[|s|-1] == s[|s|-1].id;
    }
  }

  lemma {:induction false} KeepDistinct(s: seq<Task>, a: set<Task>)
    requires UniqueIds(s)
    ensures UniqueIds(Keep(s, a))
  {
    if s != [] {
      LastIsNew(s);
      KeepDistinct(s[..|s|-1], a);
      var r := Keep(s[..|s|-1], a);
      forall i | 0 <= i < |r| ensures Ids(r)[i] != s[|s|-1].id {
        assert r[i] in r;
      }
    }
  }

  /** A prefix of a subsequence is itself the subsequence of its own members. */
  lemma {:induction false} KeepPrefix(s: seq<Task>, a: set<Task>, n: nat)
    requires UniqueIds(s) && n <= |Keep(s, a)|
    ensures Keep(s, set t | t in Keep(s, a)[..n]) == Keep(s, a)[..n]
  {
    if s != [] {
      LastIsNew(s);
      var init, last, whole := s[..|s|-1], s[|s|-1], Keep(s, a);
      var front := Keep(init, a);
      var m := if n <= |front| then n else |front|;
      KeepPrefix(init, a, m);
      assert front[..m] == whole[..m];
      if n <= |front| {
        assert whole[..n] == front[..n];
        assert last !in front[..n];
      } else {
        assert whole[..n] == front + [last] && front[..m] == front;
      }
      KeepCongruent(init, (set t | t in front[..m]), set t | t in whole[..n]);
    }
  }

  // ---- Runs in which every finding carries its own task's id ----

  ghost predicate Honest(sp: Specialist) {
    forall w, t :: sp(w, t) == Found(t.id)
  }

  /** A validated graph with its topological order. */
  ghost predicate Validated(tasks: seq<Task>, order: seq<TaskId>) {
    UniqueIds(tasks) && Closed(GraphOf(tasks)) && Topological(GraphOf(tasks), order)
  }

  /** The pending tasks are exactly the tasks of the graph that are not done. */
  ghost predicate Consistent(tasks: seq<Task>, s: Loop) {
    UniqueIds(s.pending) && forall t :: t in s.pending <==> t in tasks && t.id !in s.done
  }

  ghost predicate DeeperThanWaves(tasks: seq<Task>, s: Loop)
    requires UniqueIds(tasks) && Closed(GraphOf(tasks))
  {
    forall t :: t in s.pending ==> t.id in GraphOf(tasks) && Depth(GraphOf(tasks), t.id) > s.waves
  }

  lemma StartConsistent(tasks: seq<Task>, done: set<TaskId>, executed: int)
    requires UniqueIds(tasks)
    ensures Consistent(tasks, Start(tasks, done, executed))
  {
    KeepDistinct(tasks, UndoneSet(tasks, done));
  }

  /** Following blocked dependencies downwards always ends at a ready task. */
  lemma {:induction false} SomeTaskIsReady(tasks: seq<Task>, order: seq<TaskId>, s: Loop, t: Task) returns (r: Task)
    requires Validated(tasks, order) && Consistent(tasks, s) && t in s.pending
    ensures r in Ready(s)
    decreases if t.id in GraphOf(tasks) then Depth(GraphOf(tasks), t.id) else 0
  {
    var g := GraphOf(tasks);
    GraphEntries(tasks);
    if Unblocked(t, s.done) {
      r := t;
    } else {
      var dep :| dep in t.dependsOn && dep !in s.done;
      DepthOfDependencies(g, order, t.id);
      var blocker := Task(dep, g[dep]);
      assert blocker in tasks;
      r := SomeTaskIsReady(tasks, order, s, blocker);
    }
  }

  /** Two tasks of the graph with the same id are the same task. */
  lemma SameIdSameTask(s: seq<Task>, a: Task, b: Task)
    requires UniqueIds(s) && a in s && b in s && a.id == b.id
    ensures a == b
  {
    var i :| 0 <= i < |s| && s[i] == a;
    var j :| 0 <= j < |s| && s[j] == b;
    assert Ids(s)[i] == Ids(s)[j];
  }

  lemma HonestBatch(batch: seq<Task>, wave: nat, sp: Specialist)
    requires Honest(sp)
    ensures Begun(batch, wave, sp) == batch
    ensures FoundIds(batch, wave, sp) == set t | t in batch :: t.id
  {
    KeepAll(batch, BegunSet(batch, wave, sp));
    assert forall t :: t in batch ==> sp(wave, t) == Found(t.id);
  }

  lemma HonestNeverFails(s: Loop, maxTasks: int, sp: Specialist)
    requires Honest(sp)
    ensures !Fails(Selected(s, maxTasks), s.waves, sp)
  {
    assert forall t :: sp(s.waves, t) == Found(t.id);
  }

  /** Marking the ids of a batch as done removes exactly that batch from the pending tasks. */
  lemma BatchLeaves(pending: seq<Task>, batch: seq<Task>, done: set<TaskId>, done': set<TaskId>)
    requires UniqueIds(pending) && Keep(pending, set t | t in batch) == batch
    requires forall t :: t in pending ==> t.id !in done
    requires done' == done + set t | t in batch :: t.id
    ensures multiset(NotDone(pending, done')) + multiset(batch) == multiset(pending)
    ensures |NotDone(pending, done')| + |batch| == |pending|
  {
    forall t | t in pending ensures t.id in done' <==> t in batch {
      if t.id in done' {
        var b :| b in batch && b.id == t.id;
        assert b in Keep(pending, set u | u in batch);
        SameIdSameTask(pending, b, t);
      }
    }
    KeepSplits(pending, UndoneSet(pending, done'), set t | t in batch);
  }

  /** Every finding carries its own task's id; a task may also be declined. */
  ghost predicate OwnIds(sp: Specialist) {
    forall w, t :: sp(w, t) == Found(t.id) || sp(w, t) == Declined
  }

  /** A wave with own ids removes exactly the tasks it executes. */
  lemma OwnWave(tasks: seq<Task>, s: Loop, maxTasks: int, sp: Specialist)
    requires UniqueIds(tasks) && Consistent(tasks, s) && OwnIds(sp)
    ensures var s' := Wave(s, maxTasks, sp); var begun := Begun(Selected(s, maxTasks), s.waves, sp);
      && Consistent(tasks, s')
      && s'.done == s.done + (set t | t in begun :: t.id)
      && multiset(s'.pending) + multiset(begun) == multiset(s.pending)
      && |s'.pending| + |begun| == |s.pending|
  {
    var batch := Selected(s, maxTasks);
    var begun := Begun(batch, s.waves, sp);
    var members, kept := (set t | t in batch), BegunSet(batch, s.waves, sp);
    assert FoundIds(batch, s.waves, sp) == set t | t in begun :: t.id;
    SelectedIsKept(s, maxTasks);
    KeepOfKeep(s.pending, members, kept);
    KeepCongruent(s.pending, members * kept, set t | t in begun);
    BatchLeaves(s.pending, begun, s.done, Wave(s, maxTasks, sp).done);
    KeepDistinct(s.pending, UndoneSet(s.pending, Wave(s, maxTasks, sp).done));
  }

  /** An honest wave removes exactly the selected tasks, and runs each of them. */
  lemma HonestWave(tasks: seq<Task>, s: Loop, maxTasks: int, sp: Specialist)
    requires UniqueIds(tasks) && Consistent(tasks, s) && Honest(sp)
    ensures var s' := Wave(s, maxTasks, sp); var batch := Selected(s, maxTasks);
      && Consistent(tasks, s')
      && s'.started == s.started + batch && s'.executed == s.executed + |batch|
      && s'.done == s.done + (set t | t in batch :: t.id)
      && multiset(s'.pending) + multiset(batch) == multiset(s.pending)
      && |s'.pending| + |batch| == |s.pending|
  {
    HonestBatch(Selected(s, maxTasks), s.waves, sp);
    OwnWave(tasks, s, maxTasks, sp);
  }

  /** A wave depends on what the specialists answer for its own batch only. */
  lemma WaveCongruent(s: Loop, maxTasks: int, a: Specialist, b: Specialist)
    requires forall t :: t in Selected(s, maxTasks) ==> a(s.waves, t) == b(s.waves, t)
    ensures Wave(s, maxTasks, a) == Wave(s, maxTasks, b)
  {
    hide Selected;
    var batch := Selected(s, maxTasks);
    assert BegunSet(batch, s.waves, a) == BegunSet(batch, s.waves, b);
    assert FoundIds(batch, s.waves, a) == FoundIds(batch, s.waves, b);
  }

  lemma SelectedIsKept(s: Loop, maxTasks: int)
    requires UniqueIds(s.pending)
    ensures Keep(s.pending, set t | t in Selected(s, maxTasks)) == Selected(s, maxTasks)
  {
    var n := Available(s.executed, maxTasks);
    var k := if n < |Ready(s)| then n else |Ready(s)|;
    assert Ready(s)[..k] == Selected(s, maxTasks);
    KeepPrefix(s.pending, UnblockedSet(s.pending, s.done), k);
  }

  lemma ReadyIsShorter(s: Loop)
    ensures |Ready(s)| <= |s.pending|
  {
    var ready := UnblockedSet(s.pending, s.done);
    KeepSplits(s.pending, ready, (set t | t in s.pending) - ready);
  }

  /** Every started task comes after its dependencies: done before the loop, or started earlier. */
  ghost predicate DependenciesStartedFirst(done0: set<TaskId>, started: seq<Task>) {
    forall i, dep :: 0 <= i < |started| && dep in started[i].dependsOn ==>
      dep in done0 || exists j :: 0 <= j < i && started[j].id == dep
  }

  lemma HonestWaveKeepsOrder(tasks: seq<Task>, done0: set<TaskId>, s: Loop, maxTasks: int, sp: Specialist)
    requires UniqueIds(tasks) && Consistent(tasks, s) && Honest(sp)
    requires DependenciesStartedFirst(done0, s.started)
    requires s.done == done0 + (set t | t in s.started :: t.id)
    ensures DependenciesStartedFirst(done0, Wave(s, maxTasks, sp).started)
    ensures Wave(s, maxTasks, sp).done == done0 + (set t | t in Wave(s, maxTasks, sp).started :: t.id)
  {
    hide Wave, Selected, Honest, Keep;
    HonestWave(tasks, s, maxTasks, sp);
    SelectedAreUnblocked(s, maxTasks);
    OrderAppend(done0, s.started, Selected(s, maxTasks));
  }

  lemma SelectedAreUnblocked(s: Loop, maxTasks: int)
    ensures forall t :: t in Selected(s, maxTasks) ==> t in Ready(s) && Unblocked(t, s.done)
  {
    forall t | t in Selected(s, maxTasks) ensures t in Ready(s) {
    }
  }

  /** Appending tasks whose dependencies are done keeps the order. */
  lemma OrderAppend(done0: set<TaskId>, started: seq<Task>, batch: seq<Task>)
    requires DependenciesStartedFirst(done0, started)
    requires forall t :: t in batch ==> Unblocked(t, done0 + set u | u in started :: u.id)
    ensures DependenciesStartedFirst(done0, started + batch)
  {
    var all := started + batch;
    forall i, dep | 0 <= i < |all| && dep in all[i].dependsOn && dep !in done0
      ensures exists j :: 0 <= j < i && all[j].id == dep
    {
      if i < |started| {
        var j :| 0 <= j < i && started[j].id == dep;
        assert all[j].id == dep;
      } else {
        assert all[i] in batch;
        var u :| u in started && u.id == dep;
        var j :| 0 <= j < |started| && started[j] == u;
        assert all[j] == u;
      }
    }
  }

  /** After wave k every task of depth at most k is done. */
  lemma HonestWaveGoesDeeper(tasks: seq<Task>, order: seq<TaskId>, s: Loop, maxTasks: int, sp: Specialist)
    requires Validated(tasks, order) && Consistent(tasks, s) && Honest(sp)
    requires DeeperThanWaves(tasks, s) && |s.pending| <= Available(s.executed, maxTasks)
    ensures DeeperThanWaves(tasks, Wave(s, maxTasks, sp))
  {
    var g := GraphOf(tasks);
    var s' := Wave(s, maxTasks, sp);
    GraphEntries(tasks);
    HonestWave(tasks, s, maxTasks, sp);
    ReadyIsShorter(s);
    assert Selected(s, maxTasks) == Ready(s);
    forall t | t in s'.pending ensures Depth(g, t.id) > s'.waves {
      assert t in s.pending && t !in Ready(s);
      var dep :| dep in t.dependsOn && dep !in s.done;
      assert Task(dep, g[dep]) in s.pending;
      DepthOfDependencies(g, order, t.id);
    }
  }

  /** What every honest wave keeps while the budget covers the pending tasks. */
  ghost predicate OnTrack(tasks: seq<Task>, order: seq<TaskId>, done0: set<TaskId>, s: Loop, maxTasks: int) {
    && Validated(tasks, order) && Consistent(tasks, s) && DeeperThanWaves(tasks, s)
    && |s.pending| <= Available(s.executed, maxTasks)
    && DependenciesStartedFirst(done0, s.started)
    && s.done == done0 + set t | t in s.started :: t.id
  }

  lemma OnTrackStep(tasks: seq<Task>, order: seq<TaskId>, done0: set<TaskId>, s: Loop, maxTasks: int, sp: Specialist)
    requires OnTrack(tasks, order, done0, s, maxTasks) && Honest(sp)
    ensures var s' := Wave(s, maxTasks, sp);
      && OnTrack(tasks, order, done0, s', maxTasks)
      && s'.executed + |s'.pending| == s.executed + |s.pending|
      && s.started <= s'.started && s'.waves == s.waves + 1
      && multiset(s'.started) + multiset(s'.pending) == multiset(s.started) + multiset(s.pending)
  {
    HonestWave(tasks, s, maxTasks, sp);
    HonestWaveKeepsOrder(tasks, done0, s, maxTasks, sp);
    HonestWaveGoesDeeper(tasks, order, s, maxTasks, sp);
  }

  lemma PendingMeansShallow(tasks: seq<Task>, order: seq<TaskId>, done0: set<TaskId>, s: Loop, maxTasks: int,
                            maxDepth: nat)
    requires OnTrack(tasks, order, done0, s, maxTasks)
    requires DepthWithin(GraphOf(tasks), maxDepth) && s.pending != []
    ensures s.waves < maxDepth && Ready(s) != []
  {
    var t := s.pending[0];
    var ready := SomeTaskIsReady(tasks, order, s, t);
    var p := WalkOfDepth(GraphOf(tasks), order, t.id);
  }

  /**
   Main result. With honest specialists and budget for every pending task, the loop finishes within
   `maxDepth` waves, never reports unsatisfied dependencies, and runs every pending task exactly once.
   */
  lemma {:induction false} CompletesWithinDepth(tasks: seq<Task>, order: seq<TaskId>, done0: set<TaskId>, s: Loop,
                                               maxTasks: int, maxDepth: nat, sp: Specialist, horizon: nat)
    requires OnTrack(tasks, order, done0, s, maxTasks) && Honest(sp)
    requires DepthWithin(GraphOf(tasks), maxDepth) && s.waves + horizon >= maxDepth
    ensures var (status, r) := Iterate(s, maxTasks, sp, horizon);
      && status == Finished && r.pending == [] && (r.waves <= maxDepth || r == s)
      && r.executed == s.executed + |s.pending|
      && s.started <= r.started && multiset(r.started) == multiset(s.started) + multiset(s.pending)
      && DependenciesStartedFirst(done0, r.started)
    decreases horizon
  {
    hide Wave, DependenciesStartedFirst, Consistent, DeeperThanWaves, Validated, Iterate, Fails, Selected, Ready;
    if s.pending == [] {
      IterateEnds(s, maxTasks, sp, horizon);
    } else {
      PendingMeansShallow(tasks, order, done0, s, maxTasks, maxDepth);
      HonestNeverFails(s, maxTasks, sp);
      IterateUnfolds(s, maxTasks, sp, horizon);
      OnTrackStep(tasks, order, done0, s, maxTasks, sp);
      CompletesWithinDepth(tasks, order, done0, Wave(s, maxTasks, sp), maxTasks, maxDepth, sp, horizon - 1);
    }
  }

  /** The loop starts on track if the remaining budget covers what is not done yet. */
  lemma StartOnTrack(tasks: seq<Task>, order: seq<TaskId>, done: set<TaskId>, executed: int, maxTasks: int)
    requires Validated(tasks, order) && |NotDone(tasks, done)| <= Available(executed, maxTasks)
    ensures OnTrack(tasks, order, done, Start(tasks, done, executed), maxTasks)
  {
    StartConsistent(tasks, done, executed);
    GraphEntries(tasks);
    forall t | t in tasks ensures Depth(GraphOf(tasks), t.id) > 0 {
      DepthOfDependencies(GraphOf(tasks), order, t.id);
    }
  }

  /**
   A fresh run of a graph that passed validation (including the limit on the number of tasks, which is the
   same configuration value as the run's task budget) needs no further budget assumption.
   */
  lemma FreshRunCompletes(tasks: seq<Task>, order: seq<TaskId>, maxTasks: int, maxDepth: nat, sp: Specialist,
                          horizon: nat)
    requires Validated(tasks, order) && DepthWithin(GraphOf(tasks), maxDepth) && Honest(sp)
    requires |tasks| <= maxTasks && horizon >= maxDepth
    ensures var (status, r) := Iterate(Start(tasks, {}, 0), maxTasks, sp, horizon);
      && status == Finished && r.waves <= maxDepth && r.executed == |tasks|
      && multiset(r.started) == multiset(tasks) && DependenciesStartedFirst({}, r.started)
  {
    var s := Start(tasks, {}, 0);
    KeepAll(tasks, UndoneSet(tasks, s.done));
    StartOnTrack(tasks, order, {}, 0, maxTasks);
    CompletesWithinDepth(tasks, order, {}, s, maxTasks, maxDepth, sp, horizon);
  }

  /**
   A fresh investigation: the task graph is validated, then the waves run. What validation admits is exactly
   what is safe to schedule: every admitted graph completes within the validated depth.
   */
  method InvestigateFresh(tasks: seq<Task>, maxTasks: int, maxDepth: int, sp: Specialist, horizon: nat)
    returns (admitted: bool, status: Status, started: seq<Task>, waves: nat)
    ensures admitted <==>
      && 0 < |tasks| <= maxTasks && UniqueIds(tasks) && Closed(GraphOf(tasks))
      && Acyclic(GraphOf(tasks)) && DepthWithin(GraphOf(tasks), maxDepth)
    ensures admitted && Honest(sp) && horizon >= maxDepth ==>
      && status == Finished && waves <= maxDepth
      && multiset(started) == multiset(tasks) && DependenciesStartedFirst({}, started)
    ensures !admitted ==> started == []
  {
    hide Iterate, DependenciesStartedFirst, Closed, UniqueIds, Topological, Acyclic, Keep;
    if tasks == [] || |tasks| > maxTasks {
      return false, Running, [], 0;
    }
    var err, order := ValidateTaskGraph(tasks, maxDepth);
    if err.Some? {
      return false, Running, [], 0;
    }
    assert maxDepth > 0 by {
      GraphEntries(tasks);
      assert Walk(GraphOf(tasks), [tasks[0].id]);
    }
    var done, pending, executed;
    status, done, pending, executed, waves, started := Investigate(tasks, {}, 0, maxTasks, sp, horizon);
    if Honest(sp) && horizon >= maxDepth {
      FreshRunCompletes(tasks, order, maxTasks, maxDepth, sp, horizon);
    }
    admitted := true;
  }

  /**
   When the preflight declines whatever would be executed, because any of the budgets is used up, or the task
   budget leaves nothing to execute, a wave only counts itself: the loop spins.
   */
  lemma {:induction false} SpinsWithoutBudget(s: Loop, maxTasks: int, sp: Specialist, horizon: nat)
    requires Ready(s) != [] && s.pending == NotDone(s.pending, s.done)
    requires forall w: nat, t :: w >= s.waves && t in Selected(s, maxTasks) ==> sp(w, t) == Declined
    ensures Iterate(s, maxTasks, sp, horizon) == (Running, s.(waves := s.waves + horizon))
    decreases horizon
  {
    if horizon > 0 {
      var s' := Wave(s, maxTasks, sp);
      DeclinedWave(s, maxTasks, sp);
      assert Selected(s', maxTasks) == Selected(s, maxTasks);
      SpinsWithoutBudget(s', maxTasks, sp, horizon - 1);
    }
  }

  lemma SomeMember(s: seq<Task>)
    ensures s == [] || exists t :: t in s
  {
    if s != [] {
      assert s[0] in s;
    }
  }

  lemma DeclinedWave(s: Loop, maxTasks: int, sp: Specialist)
    requires s.pending == NotDone(s.pending, s.done)
    requires forall t :: t in Selected(s, maxTasks) ==> sp(s.waves, t) == Declined
    ensures Wave(s, maxTasks, sp) == s.(waves := s.waves + 1)
  {
    hide Selected;
    var batch := Selected(s, maxTasks);
    assert BegunSet(batch, s.waves, sp) == {} && FoundIds(batch, s.waves, sp) == {};
    var begun := Begun(batch, s.waves, sp);
    SomeMember(begun);
    assert s.done + {} == s.done;
  }

  /** An honest wave does not make up for missing budget. */
  lemma ShortfallStays(tasks: seq<Task>, s: Loop, maxTasks: int, sp: Specialist)
    requires UniqueIds(tasks) && Consistent(tasks, s) && Honest(sp)
    requires |s.pending| > Available(s.executed, maxTasks)
    ensures var s' := Wave(s, maxTasks, sp);
      Consistent(tasks, s') && |s'.pending| > Available(s'.executed, maxTasks)
  {
    HonestWave(tasks, s, maxTasks, sp);
  }

  lemma {:induction false} NeverFinishesShortOfBudget(tasks: seq<Task>, order: seq<TaskId>, s: Loop, maxTasks: int,
                                                      sp: Specialist, horizon: nat)
    requires Validated(tasks, order) && Consistent(tasks, s) && Honest(sp)
    requires |s.pending| > Available(s.executed, maxTasks)
    ensures Iterate(s, maxTasks, sp, horizon).0 == Running
    decreases horizon
  {
    hide Wave, Fails, Selected, DependenciesFirst;
    var ready := SomeTaskIsReady(tasks, order, s, s.pending[0]);
    if horizon > 0 {
      HonestNeverFails(s, maxTasks, sp);
      ShortfallStays(tasks, s, maxTasks, sp);
      NeverFinishesShortOfBudget(tasks, order, Wave(s, maxTasks, sp), maxTasks, sp, horizon - 1);
    }
  }

  /**
   Exactly when the loop of an honest run of a validated graph terminates: the remaining task budget
   covers the pending tasks. Otherwise it is still running after any number of waves.
   */
  lemma TerminatesIffBudgetCovers(tasks: seq<Task>, order: seq<TaskId>, done: set<TaskId>, executed: int,
                                  maxTasks: int, sp: Specialist)
    requires Validated(tasks, order) && Honest(sp)
    ensures var s := Start(tasks, done, executed);
      (exists horizon: nat :: Iterate(s, maxTasks, sp, horizon).0 == Finished) <==>
        |s.pending| <= Available(executed, maxTasks)
  {
    var s := Start(tasks, done, executed);
    if |s.pending| <= Available(executed, maxTasks) {
      DepthWithinCount(tasks, order);
      StartOnTrack(tasks, order, done, executed, maxTasks);
      CompletesWithinDepth(tasks, order, done, s, maxTasks, |order|, sp, |order|);
    } else {
      StartConsistent(tasks, done, executed);
      forall horizon: nat ensures Iterate(s, maxTasks, sp, horizon).0 != Finished {
        NeverFinishesShortOfBudget(tasks, order, s, maxTasks, sp, horizon);
      }
    }
  }

  /** A finite acyclic graph has some bound on its chains: the number of tasks. */
  lemma DepthWithinCount(tasks: seq<Task>, order: seq<TaskId>)
    requires Validated(tasks, order)
    ensures DepthWithin(GraphOf(tasks), |order|)
  {
    var g := GraphOf(tasks);
    forall p | Walk(g, p) ensures |p| <= |order| {
      WalkAtMostIndex(g, order, p);
    }
  }

  lemma {:induction false} WalkAtMostIndex(g: Graph, order: seq<TaskId>, p: seq<TaskId>)
    requires Topological(g, order) && Walk(g, p)
    ensures |p| <= IndexOf(order, p[0]) + 1
  {
    if |p| > 1 {
      EdgeDescends(g, order, p[0], p[1]);
      WalkAtMostIndex(g, order, p[1..]);
    }
  }

  /** Whatever the specialists answer, a wave shrinks `pending` exactly when a finding names a pending task. */
  lemma WaveProgressIff(s: Loop, maxTasks: int, sp: Specialist)
    requires forall t :: t in s.pending ==> t.id !in s.done
    ensures |Wave(s, maxTasks, sp).pending| < |s.pending| <==>
            exists t :: t in s.pending && t.id in FoundIds(Selected(s, maxTasks), s.waves, sp)
  {
    var s' := Wave(s, maxTasks, sp);
    var stay := UndoneSet(s.pending, s'.done);
    var leave := (set t | t in s.pending) - stay;
    KeepSplits(s.pending, stay, leave);
    var gone := Keep(s.pending, leave);
    if t :| t in s.pending && t.id in FoundIds(Selected(s, maxTasks), s.waves, sp) {
      assert t in gone;
    }
    if |gone| > 0 {
      assert gone[0] in gone;
    }
  }
}
