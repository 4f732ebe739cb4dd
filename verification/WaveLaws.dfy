/**
 What the wave loop does for arbitrary specialists, wave by wave, in terms of positions in the list of pending tasks:
 which tasks a wave executes, what it leaves behind, and how the loop ends.
 */
module WaveLaws {
  import opened Common
  import opened TaskGraph
  import opened WaveScheduler

  /** `r` consists of the elements of `s` at the increasing positions `idx`. */
  ghost predicate Picks(s: seq<Task>, r: seq<Task>, idx: seq<nat>) {
    && |idx| == |r|
    && (forall k :: 0 <= k < |idx| ==> idx[k] < |s| && r[k] == s[idx[k]])
    && (forall j, k :: 0 <= j < k < |idx| ==> idx[j] < idx[k])
  }

  /** All dependencies of the task are done. */
  ghost predicate MayRun(t: Task, done: set<TaskId>) {
    forall i :: 0 <= i < |t.dependsOn| ==> t.dependsOn[i] in done
  }

  ghost predicate SomeMayRun(s: Loop) {
    exists i :: 0 <= i < |s.pending| && MayRun(s.pending[i], s.done)
  }

  function Room(s: Loop, maxTasks: int): nat {
    if s.executed < maxTasks then maxTasks - s.executed else 0
  }

  /** The batch of a wave: the first pending tasks that may run, as many as the budget has room for. */
  ghost predicate IsBatch(s: Loop, maxTasks: int, batch: seq<Task>, idx: seq<nat>) {
    && Picks(s.pending, batch, idx) && |batch| <= Room(s, maxTasks)
    && (forall i :: i in idx ==> i < |s.pending| && MayRun(s.pending[i], s.done))
    && (forall i :: 0 <= i < |s.pending| && MayRun(s.pending[i], s.done) && i !in idx ==>
          |batch| == Room(s, maxTasks) && forall k :: 0 <= k < |idx| ==> idx[k] < i)
  }

  /** The tasks of the batch that are executed: those that are not declined. */
  ghost predicate AreBegun(batch: seq<Task>, begun: seq<Task>, idx: seq<nat>, wave: nat, sp: Specialist) {
    && Picks(batch, begun, idx)
    && (forall i :: 0 <= i < |batch| ==> (i in idx <==> sp(wave, batch[i]) != Declined))
  }

  ghost predicate SomeRaises(batch: seq<Task>, wave: nat, sp: Specialist) {
    exists i :: 0 <= i < |batch| && sp(wave, batch[i]) == Raises
  }

  /** Executed tasks are counted and recorded, whether the wave fails or not. */
  ghost predicate Counts(s: Loop, s': Loop, begun: seq<Task>) {
    s'.executed == s.executed + |begun| && s'.started == s.started + begun && s'.waves == s.waves + 1
  }

  ghost predicate Names(batch: seq<Task>, wave: nat, sp: Specialist, id: TaskId) {
    exists i :: 0 <= i < |batch| && sp(wave, batch[i]) == Found(id)
  }

  /** The findings name what is done; the pending tasks that it does not name stay, in their order. */
  ghost predicate Moves(s: Loop, s': Loop, batch: seq<Task>, idx: seq<nat>, sp: Specialist) {
    && (forall id :: id in s'.done <==> id in s.done || Names(batch, s.waves, sp, id))
    && Picks(s.pending, s'.pending, idx)
    && (forall i :: 0 <= i < |s.pending| ==> (i in idx <==> s.pending[i].id !in s'.done))
  }

  /** One completed wave from `s` to `s'`. */
  ghost predicate WaveFrom(s: Loop, s': Loop, maxTasks: int, sp: Specialist) {
    exists batch, begun, i, j, k ::
      && IsBatch(s, maxTasks, batch, i) && AreBegun(batch, begun, j, s.waves, sp) && !SomeRaises(batch, s.waves, sp)
      && Counts(s, s', begun) && Moves(s, s', batch, k, sp)
  }

  /** A wave from `s` in which a specialist raises: done and pending are those from before, the execution is counted. */
  ghost predicate FailureFrom(s: Loop, s': Loop, maxTasks: int, sp: Specialist) {
    exists batch, begun, i, j ::
      && IsBatch(s, maxTasks, batch, i) && AreBegun(batch, begun, j, s.waves, sp) && SomeRaises(batch, s.waves, sp)
      && Counts(s, s', begun) && s'.done == s.done && s'.pending == s.pending
  }

  /** The states between the waves. */
  ghost predicate Course(states: seq<Loop>, maxTasks: int, sp: Specialist) {
    && states != []
    && (forall i :: 0 <= i < |states| - 1 ==> states[i].pending != [] && SomeMayRun(states[i]))
    && (forall i :: 0 <= i < |states| - 1 ==> WaveFrom(states[i], Next(states, i), maxTasks, sp))
  }

  ghost function Next(states: seq<Loop>, i: nat): Loop
    requires i < |states| - 1
  {
    states[i + 1]
  }

  /** How the loop ends after a course: exactly one of the four, each with its own result. */
  ghost predicate EndsWith(states: seq<Loop>, maxTasks: int, sp: Specialist, horizon: nat, status: Status, r: Loop)
    requires states != []
  {
    var last := states[|states|-1];
    var idle := last.pending == [] || !SomeMayRun(last);
    && |states| - 1 <= horizon
    && (status == Finished <==> last.pending == [])
    && (status == Unsatisfied <==> last.pending != [] && !SomeMayRun(last))
    && (status == Running <==> !idle && |states| - 1 == horizon)
    && (status == Status.Failed <==> !idle && |states| - 1 < horizon)
    && (status == Status.Failed ==> FailureFrom(last, r, maxTasks, sp))
    && (status != Status.Failed ==> r == last)
  }

  // ---- Subsequences by position ----

  lemma {:induction false} KeepPicks(s: seq<Task>, kept: set<Task>) returns (idx: seq<nat>)
    ensures Picks(s, Keep(s, kept), idx)
    ensures forall i :: 0 <= i < |s| ==> (i in idx <==> s[i] in kept)
  {
    hide Picks;
    if s == [] {
      idx := [];
      PicksNothing();
    } else {
      var init, last := s[..|s|-1], s[|s|-1];
      var front := KeepPicks(init, kept);
      idx := PicksExtend(init, last, Keep(init, kept), front, last in kept);
      assert s == init + [last];
      forall i | 0 <= i < |s| ensures i in idx <==> s[i] in kept {
        assert i < |init| ==> init[i] == s[i];
      }
    }
  }

  lemma PicksNothing()
    ensures Picks([], [], [])
  {
  }

  lemma PicksExtend(s: seq<Task>, last: Task, r: seq<Task>, front: seq<nat>, taken: bool) returns (idx: seq<nat>)
    requires Picks(s, r, front)
    ensures Picks(s + [last], if taken then r + [last] else r, idx)
    ensures forall i :: 0 <= i < |s| ==> (i in idx <==> i in front)
    ensures |s| in idx <==> taken
  {
    idx := if taken then front + [|s|] else front;
  }

  /** A prefix of the picked elements: whatever is left out comes later. */
  lemma PicksPrefix(s: seq<Task>, r: seq<Task>, idx: seq<nat>, n: nat)
    requires Picks(s, r, idx) && n <= |r|
    ensures Picks(s, r[..n], idx[..n])
    ensures forall i, k :: i in idx && i !in idx[..n] && 0 <= k < n ==> idx[k] < i
  {
    forall j | 0 <= j < n ensures idx[j] in idx[..n] {
      assert idx[..n][j] == idx[j];
    }
    forall i, k | i in idx && i !in idx[..n] && 0 <= k < n ensures idx[k] < i {
      var j :| 0 <= j < |idx| && idx[j] == i;
    }
  }

  lemma MayRunIff(t: Task, done: set<TaskId>)
    ensures MayRun(t, done) <==> Unblocked(t, done)
  {
    if MayRun(t, done) {
      forall dep | dep in t.dependsOn ensures dep in done {
        var i :| 0 <= i < |t.dependsOn| && t.dependsOn[i] == dep;
      }
    }
  }

  lemma SomeMayRunIff(s: Loop)
    ensures SomeMayRun(s) <==> Ready(s) != []
  {
    forall t ensures MayRun(t, s.done) <==> Unblocked(t, s.done) {
      MayRunIff(t, s.done);
    }
    if Ready(s) != [] {
      assert Ready(s)[0] in s.pending;
    }
    if i :| 0 <= i < |s.pending| && MayRun(s.pending[i], s.done) {
      assert s.pending[i] in Ready(s);
    }
  }

  // ---- The wave and the loop ----

  lemma SelectedIsBatch(s: Loop, maxTasks: int) returns (idx: seq<nat>)
    ensures IsBatch(s, maxTasks, Selected(s, maxTasks), idx)
  {
    hide Keep, Picks;
    forall t ensures MayRun(t, s.done) <==> Unblocked(t, s.done) {
      MayRunIff(t, s.done);
    }
    var all := KeepPicks(s.pending, UnblockedSet(s.pending, s.done));
    PicksLength(s.pending, Ready(s), all);
    var n := if Room(s, maxTasks) < |Ready(s)| then Room(s, maxTasks) else |Ready(s)|;
    PicksPrefix(s.pending, Ready(s), all, n);
    assert Ready(s)[..n] == Selected(s, maxTasks) && (n == |all| ==> all[..n] == all);
    idx := all[..n];
  }

  lemma PicksLength(s: seq<Task>, r: seq<Task>, idx: seq<nat>)
    requires Picks(s, r, idx)
    ensures |idx| == |r| && forall i :: i in idx ==> i < |s|
  {
  }

  lemma WaveMoves(s: Loop, maxTasks: int, sp: Specialist) returns (idx: seq<nat>)
    ensures Moves(s, Wave(s, maxTasks, sp), Selected(s, maxTasks), idx, sp)
  {
    hide Keep, Selected, Picks;
    var s' := Wave(s, maxTasks, sp);
    idx := KeepPicks(s.pending, UndoneSet(s.pending, s'.done));
    var batch := Selected(s, maxTasks);
    forall id ensures id in FoundIds(batch, s.waves, sp) <==> Names(batch, s.waves, sp, id) {
      if id in FoundIds(batch, s.waves, sp) {
        var t :| t in batch && sp(s.waves, t).Found? && sp(s.waves, t).taskId == id;
        var i :| 0 <= i < |batch| && batch[i] == t;
      }
    }
  }

  lemma BegunAre(batch: seq<Task>, wave: nat, sp: Specialist) returns (idx: seq<nat>)
    ensures AreBegun(batch, Begun(batch, wave, sp), idx, wave, sp)
  {
    hide Keep, Picks;
    idx := KeepPicks(batch, BegunSet(batch, wave, sp));
  }

  lemma FailsIff(batch: seq<Task>, wave: nat, sp: Specialist)
    ensures Fails(batch, wave, sp) <==> SomeRaises(batch, wave, sp)
  {
    if Fails(batch, wave, sp) {
      var t :| t in batch && sp(wave, t).Raises?;
      var i :| 0 <= i < |batch| && batch[i] == t;
    }
  }

  lemma WaveHappens(s: Loop, maxTasks: int, sp: Specialist)
    ensures !Fails(Selected(s, maxTasks), s.waves, sp) ==> WaveFrom(s, Wave(s, maxTasks, sp), maxTasks, sp)
    ensures Fails(Selected(s, maxTasks), s.waves, sp) ==> FailureFrom(s, FailedWave(s, maxTasks, sp), maxTasks, sp)
  {
    hide Selected, IsBatch, AreBegun, Moves, Fails, SomeRaises;
    var batch := Selected(s, maxTasks);
    var i := SelectedIsBatch(s, maxTasks);
    var j := BegunAre(batch, s.waves, sp);
    var k := WaveMoves(s, maxTasks, sp);
    FailsIff(batch, s.waves, sp);
  }

  /**
   The loop for arbitrary specialists. From any state it goes through completed waves to a last state and ends there:
   finished if nothing is pending, unsatisfied if nothing pending may run, still running if exactly the horizon has
   been observed, and failed otherwise, because a specialist of the next batch raises.
   */
  lemma {:induction false} LoopEnds(s: Loop, maxTasks: int, sp: Specialist, horizon: nat) returns (states: seq<Loop>)
    ensures Course(states, maxTasks, sp) && states[0] == s
    ensures var (status, r) := Iterate(s, maxTasks, sp, horizon); EndsWith(states, maxTasks, sp, horizon, status, r)
    decreases horizon
  {
    hide Wave, FailedWave, Fails, WaveFrom, FailureFrom, SomeMayRun, Ready, Selected;
    SomeMayRunIff(s);
    WaveHappens(s, maxTasks, sp);
    if s.pending == [] || Ready(s) == [] || horizon == 0 || Fails(Selected(s, maxTasks), s.waves, sp) {
      states := [s];
    } else {
      var rest := LoopEnds(Wave(s, maxTasks, sp), maxTasks, sp, horizon - 1);
      states := [s] + rest;
      CoursePrepend(s, rest, maxTasks, sp);
    }
  }

  lemma CoursePrepend(s: Loop, rest: seq<Loop>, maxTasks: int, sp: Specialist)
    requires Course(rest, maxTasks, sp) && s.pending != [] && SomeMayRun(s) && WaveFrom(s, rest[0], maxTasks, sp)
    ensures Course([s] + rest, maxTasks, sp)
  {
    hide WaveFrom, SomeMayRun;
    var states := [s] + rest;
    forall i | 0 <= i < |states| - 1 ensures WaveFrom(states[i], Next(states, i), maxTasks, sp) {
      assert i > 0 ==> Next(states, i) == Next(rest, i - 1);
    }
  }

  /**
   The investigation from its start: the pending tasks are those without a finding, in their order, and when it
   finishes every task has been named by a finding.
   */
  lemma InvestigationEnds(tasks: seq<Task>, findingIds: set<TaskId>, executed: int, maxTasks: int, sp: Specialist,
                          horizon: nat)
    returns (states: seq<Loop>, idx: seq<nat>)
    ensures Course(states, maxTasks, sp)
    ensures states[0].done == findingIds && states[0].executed == executed
    ensures states[0].started == [] && states[0].waves == 0
    ensures Picks(tasks, states[0].pending, idx)
    ensures forall i :: 0 <= i < |tasks| ==> (i in idx <==> tasks[i].id !in findingIds)
    ensures var (status, r) := Iterate(Start(tasks, findingIds, executed), maxTasks, sp, horizon);
      && EndsWith(states, maxTasks, sp, horizon, status, r)
      && (status == Finished ==> forall t :: t in tasks ==> t.id in r.done)
  {
    hide Keep, Iterate, Picks, EndsWith;
    var s := Start(tasks, findingIds, executed);
    states := LoopEnds(s, maxTasks, sp, horizon);
    idx := KeepPicks(tasks, UndoneSet(tasks, findingIds));
    NothingIsLost(tasks, s, maxTasks, sp, horizon);
  }
}
