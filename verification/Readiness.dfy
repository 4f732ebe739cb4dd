/**
 Readiness and graceful drain: in-flight slots held by request handlers and by the detached tasks they
 start, released exactly once, with a gate that closes when the drain begins. Sections of the original
 without an await are single steps.
 */
module Readiness {
  import opened Common

  /** `drained` is the event that a draining worker waits for. */
  datatype Manager = Manager(ready: bool, draining: bool, inflight: int, drained: bool)

  const INITIAL := Manager(false, false, 0, true)

  function StartupStep(m: Manager): Manager {
    m.(draining := false, ready := true)
  }

  /** None is the 503 of a draining worker. */
  function BeginStep(m: Manager): Option<Manager> {
    if m.draining then None else Some(TrackStep(m))
  }

  /** Counts accepted work without looking at the drain gate again. */
  function TrackStep(m: Manager): Manager {
    m.(inflight := m.inflight + 1, drained := false)
  }

  function ReleaseStep(m: Manager): Manager {
    if m.inflight <= 0 then m
    else m.(inflight := m.inflight - 1, drained := m.drained || m.inflight == 1)
  }

  function DrainStep(m: Manager): Manager {
    m.(draining := true, ready := false, drained := m.drained || m.inflight == 0)
  }

  class ReadinessManager {
    var isReady: bool
    var isDraining: bool
    var inflight: int
    var drained: bool

    ghost function Value(): Manager
      reads this
    {
      Manager(isReady, isDraining, inflight, drained)
    }

    constructor ()
      ensures Value() == INITIAL
    {
      isReady, isDraining, inflight, drained := false, false, 0, true;
    }

    method StartupComplete()
      modifies this
      ensures Value() == StartupStep(old(Value()))
    {
      isDraining := false;
      isReady := true;
    }

    method BeginDispatch() returns (accepted: bool)
      modifies this
      ensures accepted <==> BeginStep(old(Value())).Some?
      ensures Value() == if accepted then BeginStep(old(Value())).value else old(Value())
    {
      if isDraining {
        return false;
      }
      inflight := inflight + 1;
      drained := false;
      return true;
    }

    method TrackDispatch()
      modifies this
      ensures Value() == TrackStep(old(Value()))
    {
      inflight := inflight + 1;
      drained := false;
    }

    method ReleaseInflight()
      modifies this
      ensures Value() == ReleaseStep(old(Value()))
    {
      if inflight <= 0 {
        return;
      }
      inflight := inflight - 1;
      if inflight == 0 {
        drained := true;
      }
    }

    /** The part of the drain before it waits; true when there is nothing to wait for. */
    method InitiateDrain() returns (complete: bool)
      modifies this
      ensures Value() == DrainStep(old(Value())) && (complete <==> old(inflight) == 0)
    {
      isDraining := true;
      isReady := false;
      if inflight == 0 {
        drained := true;
        return true;
      }
      return false;
    }
  }

  /** The closure state of one detached dispatch: its slot is given back at most once. */
  class DetachedDispatch {
    const manager: ReadinessManager
    var released: bool

    constructor (manager: ReadinessManager)
      modifies manager
      ensures this.manager == manager && !released && manager.Value() == TrackStep(old(manager.Value()))
    {
      this.manager := manager;
      released := false;
      new;
      manager.TrackDispatch();
    }

    method ReleaseOnce()
      modifies this, manager
      ensures released
      ensures manager.Value() == if old(released) then old(manager.Value()) else ReleaseStep(old(manager.Value()))
    {
      if released {
        return;
      }
      released := true;
      manager.ReleaseInflight();
    }
  }

  // ---- Handlers and detached tasks ----

  type HandlerId = nat
  type DispatchId = nat

  datatype Dispatch = Dispatch(name: Option<string>, started: bool, released: bool, completed: bool)

  /**
   `labels` is the insertion-ordered dictionary of labelled tasks whose done-callback has not run;
   `markers` are the abandonment records written so far.
   */
  datatype System = System(
    manager: Manager,
    handlers: set<HandlerId>,
    tasks: map<DispatchId, Dispatch>,
    labels: seq<(DispatchId, string)>,
    markers: seq<Option<string>>)

  datatype Action =
    | Startup
    | Begin(handler: HandlerId)
    | End(handler: HandlerId)
    | Detach(handler: HandlerId, task: DispatchId, name: Option<string>)
    | DetachFails(handler: HandlerId)  // task creation raised: the reservation is rolled back
    | FirstStep(task: DispatchId)
    | Return(task: DispatchId)         // run()'s finally
    | Callback(task: DispatchId, cancelled: bool)
    | Drain
    | DrainTimeout

  const BOOT := System(INITIAL, {}, map[], [], [])

  /** Only an open handler starts detached work, and a task that started is released before its callback. */
  predicate Enabled(s: System, a: Action) {
    match a
    case Startup => true
    case Begin(h) => h !in s.handlers
    case End(h) => h in s.handlers
    case Detach(h, t, _) => h in s.handlers && t !in s.tasks
    case DetachFails(h) => h in s.handlers
    case FirstStep(t) => t in s.tasks && !s.tasks[t].started && !s.tasks[t].completed
    case Return(t) => t in s.tasks && s.tasks[t].started && !s.tasks[t].released
    case Callback(t, cancelled) =>
      && t in s.tasks && !s.tasks[t].completed
      && (if s.tasks[t].started then s.tasks[t].released else cancelled)
    case Drain => true
    case DrainTimeout => s.manager.draining
  }

  function Without(labels: seq<(DispatchId, string)>, t: DispatchId): (r: seq<(DispatchId, string)>)
    ensures forall l :: l in r <==> l in labels && l.0 != t
  {
    if labels == [] then []
    else (if labels[0].0 == t then [] else [labels[0]]) + Without(labels[1..], t)
  }

  /** The records written when the deadline passes with `remaining` slots in flight. */
  function TimeoutMarkers(labels: seq<(DispatchId, string)>, remaining: nat): seq<Option<string>> {
    var named := if remaining < |labels| then labels[..remaining] else labels;
    seq(|named|, i requires 0 <= i < |named| => Some(named[i].1)) + seq(remaining - |named|, _ => None)
  }

  /** The two loops of the timeout branch, one record at a time. */
  method AbandonAll(labels: seq<(DispatchId, string)>, remaining: nat) returns (markers: seq<Option<string>>)
    ensures markers == TimeoutMarkers(labels, remaining) && |markers| == remaining
  {
    var named := if remaining < |labels| then labels[..remaining] else labels;
    markers := [];
    for i := 0 to |named|
      invariant markers == seq(i, k requires 0 <= k < i => Some(named[k].1))
    {
      markers := markers + [Some(named[i].1)];
    }
    ghost var first := markers;
    for i := 0 to remaining - |named|
      invariant markers == first + seq(i, _ => None)
    {
      markers := markers + [None];
    }
  }

  function Positive(n: int): nat {
    if n > 0 then n else 0
  }

  function Step(s: System, a: Action): System
    requires Enabled(s, a)
  {
    match a
    case Startup => s.(manager := StartupStep(s.manager))
    case Begin(h) =>
      (match BeginStep(s.manager)
       case None => s
       case Some(m) => s.(manager := m, handlers := s.handlers + {h}))
    case End(h) => s.(manager := ReleaseStep(s.manager), handlers := s.handlers - {h})
    case Detach(h, t, name) =>
      s.(manager := TrackStep(s.manager), tasks := s.tasks[t := Dispatch(name, false, false, false)],
         labels := if name.Some? then s.labels + [(t, name.value)] else s.labels)
    case DetachFails(h) => s.(manager := ReleaseStep(TrackStep(s.manager)))
    case FirstStep(t) => s.(tasks := s.tasks[t := s.tasks[t].(started := true)])
    case Return(t) => s.(manager := ReleaseStep(s.manager), tasks := s.tasks[t := s.tasks[t].(released := true)])
    case Callback(t, cancelled) =>
      s.(manager := if s.tasks[t].released then s.manager else ReleaseStep(s.manager),
         tasks := s.tasks[t := s.tasks[t].(released := true, completed := true)],
         labels := Without(s.labels, t),
         markers := if cancelled && s.tasks[t].started then s.markers + [s.tasks[t].name] else s.markers)
    case Drain => s.(manager := DrainStep(s.manager))
    case DrainTimeout => s.(markers := s.markers + TimeoutMarkers(s.labels, Positive(s.manager.inflight)))
  }

  ghost predicate Schedule(s: System, run: seq<Action>)
    decreases |run|
  {
    run == [] || (Enabled(s, run[0]) && Schedule(Step(s, run[0]), run[1..]))
  }

  ghost function After(s: System, run: seq<Action>): System
    requires Schedule(s, run)
    decreases |run|
  {
    if run == [] then s else After(Step(s, run[0]), run[1..])
  }

  // ---- The slot count is truthful ----

  ghost function Unreleased(tasks: map<DispatchId, Dispatch>): set<DispatchId> {
    set t | t in tasks && !tasks[t].released
  }

  ghost predicate Inv(s: System) {
    && s.manager.inflight == |s.handlers| + |Unreleased(s.tasks)|
    && (s.manager.drained <==> s.manager.inflight == 0)
  }

  /** Every release finds a slot to give back: the underflow guard never fires. */
  lemma NoUnderflow(s: System, a: Action)
    requires Inv(s) && Enabled(s, a)
    requires a.End? || a.Return? || (a.Callback? && !s.tasks[a.task].released)
    ensures s.manager.inflight > 0
  {
    if a.End? {
      assert a.handler in s.handlers;
    } else {
      assert a.task in Unreleased(s.tasks);
    }
  }

  lemma TaskUpdate(tasks: map<DispatchId, Dispatch>, t: DispatchId, d: Dispatch)
    ensures var before, now := Unreleased(tasks), Unreleased(tasks[t := d]);
      |now| == |before| + (if !d.released && t !in before then 1 else if d.released && t in before then -1 else 0)
  {
    assert Unreleased(tasks[t := d]) == if d.released then Unreleased(tasks) - {t} else Unreleased(tasks) + {t};
  }

  lemma StepKeepsInv(s: System, a: Action)
    requires Inv(s) && Enabled(s, a)
    ensures Inv(Step(s, a))
  {
    if a.End? || a.Return? || (a.Callback? && !s.tasks[a.task].released) {
      NoUnderflow(s, a);
    }
    if a.DetachFails? {
      assert a.handler in s.handlers;
    }
    if a.Detach? || a.FirstStep? || a.Return? || a.Callback? {
      TaskUpdate(s.tasks, a.task, Step(s, a).tasks[a.task]);
    }
  }

  lemma {:induction false} InvAlways(s: System, run: seq<Action>)
    requires Inv(s) && Schedule(s, run)
    ensures Inv(After(s, run))
    decreases |run|
  {
    if run != [] {
      StepKeepsInv(s, run[0]);
      InvAlways(Step(s, run[0]), run[1..]);
    }
  }

  // ---- Drain ----

  ghost predicate NoRestart(run: seq<Action>) {
    forall i :: 0 <= i < |run| ==> !run[i].Startup?
  }

  /** Once draining with nothing in flight, nothing is ever in flight again: only a slot holder adds work. */
  lemma {:induction false} DrainIsStable(s: System, run: seq<Action>)
    requires Inv(s) && Schedule(s, run) && NoRestart(run)
    requires s.manager.draining && s.manager.inflight == 0
    ensures var s' := After(s, run);
      s'.manager.draining && s'.manager.inflight == 0 && s'.handlers == {} && Unreleased(s'.tasks) == {}
    decreases |run|
  {
    if run != [] {
      StepKeepsInv(s, run[0]);
      DrainIsStable(Step(s, run[0]), run[1..]);
    }
  }

  /**
   If the drain saw its event set at any moment (`before`), then by the time it reports success, after any
   further interleaving, no handler is open and every detached task has given its slot back.
   */
  lemma DrainSuccessIsTruthful(before: seq<Action>, later: seq<Action>)
    requires Schedule(BOOT, before) && Schedule(After(BOOT, before), later) && NoRestart(later)
    requires After(BOOT, before).manager.draining && After(BOOT, before).manager.drained
    ensures var s := After(After(BOOT, before), later);
      s.handlers == {} && (forall t :: t in s.tasks ==> s.tasks[t].released) && s.manager.inflight == 0
  {
    assert Unreleased(BOOT.tasks) == {};
    InvAlways(BOOT, before);
    DrainIsStable(After(BOOT, before), later);
    var s := After(After(BOOT, before), later);
    forall t | t in s.tasks ensures s.tasks[t].released {
      assert t !in Unreleased(s.tasks);
    }
  }

  // ---- The gate ----

  datatype Sign = Up | Down

  /** Startups put the worker up, drains take it down. */
  predicate Gives(a: Action, sign: Sign) {
    if sign.Up? then a.Startup? else a.Drain?
  }

  ghost predicate Never(run: seq<Action>, sign: Sign) {
    forall i :: 0 <= i < |run| ==> !Gives(run[i], sign)
  }

  /** The sign is given at position `i` and the opposite one never after it. */
  ghost predicate LastGivenAt(run: seq<Action>, sign: Sign, i: nat) {
    i < |run| && Gives(run[i], sign) && forall j :: i < j < |run| ==> !Gives(run[j], if sign.Up? then Down else Up)
  }

  /** A startup came after the last drain, or the other way round. */
  ghost predicate Last(run: seq<Action>, sign: Sign) {
    exists i: nat :: LastGivenAt(run, sign, i)
  }

  lemma LastPrepend(a: Action, rest: seq<Action>, sign: Sign)
    ensures var other := if sign.Up? then Down else Up;
      Last([a] + rest, sign) <==> Last(rest, sign) || (Gives(a, sign) && Never(rest, other))
  {
    var other := if sign.Up? then Down else Up;
    var run := [a] + rest;
    assert forall i :: 0 <= i < |rest| ==> run[i+1] == rest[i];
    if i: nat :| LastGivenAt(run, sign, i) {
      if i > 0 {
        assert LastGivenAt(rest, sign, i - 1);
      } else {
        assert forall j :: 0 <= j < |rest| ==> rest[j] == run[j+1] && !Gives(rest[j], other);
      }
    }
    if i: nat :| LastGivenAt(rest, sign, i) {
      assert LastGivenAt(run, sign, i + 1);
    }
    if Gives(a, sign) && Never(rest, other) {
      assert LastGivenAt(run, sign, 0);
    }
  }

  lemma {:induction false} GateFollowsRun(s: System, run: seq<Action>)
    requires Schedule(s, run)
    ensures After(s, run).manager.draining <==> Last(run, Down) || (s.manager.draining && Never(run, Up))
    ensures After(s, run).manager.ready <==> Last(run, Up) || (s.manager.ready && Never(run, Down))
    decreases |run|
  {
    hide Last;
    if run != [] {
      assert run == [run[0]] + run[1..];
      LastPrepend(run[0], run[1..], Down);
      LastPrepend(run[0], run[1..], Up);
      GateFollowsRun(Step(s, run[0]), run[1..]);
    } else {
      NothingGiven();
    }
  }

  lemma NothingGiven()
    ensures !Last([], Up) && !Last([], Down)
  {
  }

  /**
   The gate over whole runs: the worker reports ready exactly if a startup came after the last drain, and a new
   request is refused exactly if a drain came after the last startup; otherwise it gets a slot.
   */
  lemma GateIff(run: seq<Action>, h: HandlerId)
    requires Schedule(BOOT, run) && Enabled(After(BOOT, run), Begin(h))
    ensures var s := After(BOOT, run);
      && (s.manager.ready <==> Last(run, Up))
      && (s.manager.draining <==> Last(run, Down))
      && Step(s, Begin(h)).handlers == (if Last(run, Down) then s.handlers else s.handlers + {h})
      && Step(s, Begin(h)).manager.inflight == s.manager.inflight + (if Last(run, Down) then 0 else 1)
  {
    GateFollowsRun(BOOT, run);
  }

  // ---- Abandonment markers ----

  /** A timeout writes exactly one marker for each slot still in flight. */
  lemma TimeoutWritesRemaining(run: seq<Action>)
    requires Schedule(BOOT, run) && Enabled(After(BOOT, run), DrainTimeout)
    ensures var s := After(BOOT, run);
      |Step(s, DrainTimeout).markers| == |s.markers| + |s.handlers| + |Unreleased(s.tasks)|
  {
    assert Unreleased(BOOT.tasks) == {};
    InvAlways(BOOT, run);
  }

  ghost predicate LabelsRegistered(s: System) {
    && DistinctTasks(s.labels)
    && (forall l :: l in s.labels ==> l.0 in s.tasks && !s.tasks[l.0].completed)
  }

  ghost predicate DistinctTasks(labels: seq<(DispatchId, string)>) {
    forall i, j :: 0 <= i < j < |labels| ==> labels[i].0 != labels[j].0
  }

  lemma {:induction false} WithoutKeepsDistinct(labels: seq<(DispatchId, string)>, t: DispatchId)
    requires DistinctTasks(labels)
    ensures DistinctTasks(Without(labels, t))
  {
    if labels != [] {
      var rest := Without(labels[1..], t);
      WithoutKeepsDistinct(labels[1..], t);
      forall j | 0 <= j < |rest| ensures rest[j].0 != labels[0].0 {
        assert rest[j] in labels[1..];
      }
      assert Without(labels, t) == rest || Without(labels, t) == [labels[0]] + rest;
    }
  }

  lemma {:induction false} LabelsAlwaysRegistered(s: System, run: seq<Action>)
    requires LabelsRegistered(s) && Schedule(s, run)
    ensures LabelsRegistered(After(s, run))
    decreases |run|
  {
    if run != [] {
      LabelsStep(s, run[0]);
      LabelsAlwaysRegistered(Step(s, run[0]), run[1..]);
    }
  }

  lemma LabelsStep(s: System, a: Action)
    requires LabelsRegistered(s) && Enabled(s, a)
    ensures LabelsRegistered(Step(s, a))
  {
    if a.Callback? {
      WithoutKeepsDistinct(s.labels, a.task);
    }
  }

  lemma {:induction false} DistinctLabelsFit(labels: seq<(DispatchId, string)>, among: set<DispatchId>)
    requires DistinctTasks(labels) && forall l :: l in labels ==> l.0 in among
    ensures |labels| <= |among|
  {
    if labels != [] {
      forall l | l in labels[1..] ensures l.0 in among - {labels[0].0} {
        var i :| 1 <= i < |labels| && labels[i] == l;
      }
      DistinctLabelsFit(labels[1..], among - {labels[0].0});
    }
  }

  /** The labelled tasks that still hold their slots, in the order of their labels. */
  function Running(labels: seq<(DispatchId, string)>, tasks: map<DispatchId, Dispatch>): (r: seq<(DispatchId, string)>)
    ensures forall l :: l in r <==> l in labels && l.0 in tasks && !tasks[l.0].released
  {
    if labels == [] then []
    else
      (if labels[0].0 in tasks && !tasks[labels[0].0].released then [labels[0]] else []) + Running(labels[1..], tasks)
  }

  lemma {:induction false} RunningAll(labels: seq<(DispatchId, string)>, tasks: map<DispatchId, Dispatch>, n: nat)
    requires n <= |labels|
    requires forall i :: 0 <= i < n ==> labels[i].0 in tasks && !tasks[labels[i].0].released
    requires forall i :: n <= i < |labels| ==> labels[i].0 in tasks && tasks[labels[i].0].released
    ensures Running(labels, tasks) == labels[..n]
  {
    if labels != [] {
      var rest := labels[1..];
      assert forall i :: 0 <= i < |rest| ==> rest[i] == labels[i+1];
      RunningAll(rest, tasks, if n > 0 then n - 1 else 0);
      assert n > 0 ==> labels[..n] == [labels[0]] + rest[..n-1];
    }
  }

  /** The labels that a timeout writes by name: as many of the first ones as there are slots in flight. */
  function NamedLabels(s: System): seq<(DispatchId, string)> {
    var remaining := Positive(s.manager.inflight);
    if remaining < |s.labels| then s.labels[..remaining] else s.labels
  }

  /** The task has given its slot back, but its done-callback has not removed the label yet. */
  predicate AwaitsCallback(s: System, l: (DispatchId, string)) {
    l.0 in s.tasks && s.tasks[l.0].released
  }

  /** The markers of a timeout are the names of those labels, followed by unnamed ones. */
  lemma TimeoutNames(s: System)
    ensures var markers, named := TimeoutMarkers(s.labels, Positive(s.manager.inflight)), NamedLabels(s);
      && |named| <= |markers|
      && (forall i :: 0 <= i < |named| ==> markers[i] == Some(named[i].1))
      && (forall i :: |named| <= i < |markers| ==> markers[i] == None)
  {
  }

  lemma LabelsBeyondSlots(s: System, k: nat)
    requires Inv(s) && LabelsRegistered(s)
    requires forall l :: l in NamedLabels(s) ==> !s.tasks[l.0].released
    requires |NamedLabels(s)| <= k < |s.labels|
    ensures s.tasks[s.labels[k].0].released
  {
    var named := NamedLabels(s);
    if !s.tasks[s.labels[k].0].released {
      var more := named + [s.labels[k]];
      assert forall l :: l in more ==> l.0 in Unreleased(s.tasks);
      DistinctLabelsFit(more, Unreleased(s.tasks));
    }
  }

  /**
   Exactly when a timeout is right about names: the labels it writes are the labelled tasks that still hold their
   slots, all of them and in order, if and only if none of the labels it writes belongs to a task that has been
   released and is waiting for its done-callback.
   */
  lemma TimeoutNamesRunningIff(run: seq<Action>)
    requires Schedule(BOOT, run)
    ensures var s := After(BOOT, run);
      NamedLabels(s) == Running(s.labels, s.tasks) <==>
      forall l :: l in NamedLabels(s) ==> !AwaitsCallback(s, l)
  {
    hide Running;
    assert Unreleased(BOOT.tasks) == {};
    InvAlways(BOOT, run);
    LabelsAlwaysRegistered(BOOT, run);
    var s := After(BOOT, run);
    var named := NamedLabels(s);
    assert forall i :: 0 <= i < |named| ==> named[i] == s.labels[i];
    if named == Running(s.labels, s.tasks) {
      forall l | l in named ensures !AwaitsCallback(s, l) {
        assert l in Running(s.labels, s.tasks);
      }
    }
    if forall l :: l in named ==> !AwaitsCallback(s, l) {
      assert forall l :: l in named ==> !s.tasks[l.0].released;
      forall k | |named| <= k < |s.labels| ensures s.tasks[s.labels[k].0].released {
        LabelsBeyondSlots(s, k);
      }
      RunningAll(s.labels, s.tasks, |named|);
    }
  }

  lemma {:induction false} Extend(s: System, run: seq<Action>, a: Action)
    requires Schedule(s, run) && Enabled(After(s, run), a)
    ensures Schedule(s, run + [a]) && After(s, run + [a]) == Step(After(s, run), a)
    decreases |run|
  {
    if run == [] {
      assert (run + [a])[1..] == [];
    } else {
      assert (run + [a])[1..] == run[1..] + [a];
      Extend(Step(s, run[0]), run[1..], a);
    }
  }

  function Fresh(name: string): Dispatch {
    Dispatch(Some(name), false, false, false)
  }

  ghost predicate Reachable(s: System) {
    exists run :: Schedule(BOOT, run) && After(BOOT, run) == s
  }

  lemma ReachableStep(s: System, a: Action)
    requires Reachable(s) && Enabled(s, a)
    ensures Reachable(Step(s, a))
  {
    var run :| Schedule(BOOT, run) && After(BOOT, run) == s;
    Extend(BOOT, run, a);
  }

  /** The name with which a task was detached. */
  ghost function GivenName(run: seq<Action>, t: DispatchId): Option<string> {
    if run == [] then None
    else if run[0].Detach? && run[0].task == t then run[0].name else GivenName(run[1..], t)
  }

  lemma {:induction false} NamesStay(s: System, run: seq<Action>, t: DispatchId)
    requires Schedule(s, run) && t in After(s, run).tasks
    ensures After(s, run).tasks[t].name == if t in s.tasks then s.tasks[t].name else GivenName(run, t)
    decreases |run|
  {
    if run != [] {
      NamesStay(Step(s, run[0]), run[1..], t);
    }
  }

  /** A cancelled task leaves a marker with its own name exactly if it had started; any other ending leaves none. */
  lemma CancelledWorkIsMarked(run: seq<Action>, t: DispatchId, cancelled: bool)
    requires Schedule(BOOT, run) && Enabled(After(BOOT, run), Callback(t, cancelled))
    ensures var s := After(BOOT, run);
      Step(s, Callback(t, cancelled)).markers ==
        s.markers + if cancelled && s.tasks[t].started then [GivenName(run, t)] else []
  {
    NamesStay(BOOT, run, t);
  }

  /** Without that condition a marker can name work that has finished, while an open handler goes unnamed. */
  lemma TimeoutCanNameFinishedTask(name: string)
    ensures var tasks := map[0 := Dispatch(Some(name), true, true, false)];
      var s := System(Manager(false, true, 1, false), {1}, tasks, [(0, name)], []);
      Reachable(s) && Enabled(s, DrainTimeout) && Step(s, DrainTimeout).markers == [Some(name)]
  {
    hide Reachable;
    OneTaskOneHandler(name);
    var s4 := System(Manager(false, false, 2, false), {1}, map[0 := Fresh(name)], [(0, name)], []);
    ReachableStep(s4, FirstStep(0));
    var s5 := s4.(tasks := map[0 := Dispatch(Some(name), true, false, false)]);
    assert Step(s4, FirstStep(0)) == s5;
    ReachableStep(s5, Return(0));
    var s6 := s5.(manager := Manager(false, false, 1, false),
                  tasks := map[0 := Dispatch(Some(name), true, true, false)]);
    assert Step(s5, Return(0)) == s6;
    ReachableStep(s6, Drain);
  }

  lemma OneTaskOneHandler(name: string)
    ensures var tasks := map[0 := Fresh(name)];
      Reachable(System(Manager(false, false, 2, false), {1}, tasks, [(0, name)], []))
  {
    hide Reachable;
    BootIsReachable();
    ReachableStep(BOOT, Begin(0));
    var s1 := System(Manager(false, false, 1, false), {0}, map[], [], []);
    assert Step(BOOT, Begin(0)) == s1;
    ReachableStep(s1, Begin(1));
    var s2 := System(Manager(false, false, 2, false), {0, 1}, map[], [], []);
    assert Step(s1, Begin(1)) == s2;
    ReachableStep(s2, Detach(0, 0, Some(name)));
    var s3 := System(Manager(false, false, 3, false), {0, 1}, map[0 := Fresh(name)], [(0, name)], []);
    assert Step(s2, Detach(0, 0, Some(name))) == s3;
    ReachableStep(s3, End(0));
    assert {0, 1} - {0} == {1};
  }

  lemma BootIsReachable()
    ensures Reachable(BOOT)
  {
    assert Schedule(BOOT, []) && After(BOOT, []) == BOOT;
  }
}
