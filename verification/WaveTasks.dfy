/**
 The tasks of one wave as they interleave on the event loop: budget preflight, the run-scoped
 semaphore, the specialist call and its release. Code between two awaits is one step.
 */
module WaveTasks {

  /** `Refused` is a declined task whose request for a decision raised, as it always does in strict enforcement. */
  datatype Phase = Unstarted | Declined | Refused | Waiting | Calling | Succeeded | Failed

  datatype Limits = Limits(maxTasks: int, maxCalls: int, maxParallel: int)

  /** Budget counters, free semaphore permits and the phase of every task of the wave. */
  datatype Wave = Wave(phases: seq<Phase>, executed: int, calls: int, permits: int)

  /**
   `otherLimit` is the verdict of the remaining budget checks (clock, tokens, corrective actions, steps);
   `queued` says that the semaphore makes the task wait although a permit is free; `posted` that a declined task
   gets its request for a decision out.
   */
  datatype Action =
    | Begin(task: nat, otherLimit: bool, queued: bool, posted: bool)
    | Wake(task: nat)
    | Answer(task: nat)
    | Raise(task: nat)
    | CancelWaiting(task: nat)

  function Capacity(l: Limits): int {
    if l.maxParallel > 1 then l.maxParallel else 1
  }

  predicate Exceeded(l: Limits, executed: int, calls: int, otherLimit: bool) {
    executed >= l.maxTasks || calls >= l.maxCalls || otherLimit
  }

  function InitialWave(l: Limits, size: nat, executed: int, calls: int): Wave {
    Wave(seq(size, _ => Unstarted), executed, calls, Capacity(l))
  }

  predicate Enabled(w: Wave, a: Action) {
    && a.task < |w.phases|
    && match a
       case Begin(i, _, _, _) => w.phases[i] == Unstarted
       case Wake(i) => w.phases[i] == Waiting && w.permits > 0
       case Answer(i) => w.phases[i] == Calling
       case Raise(i) => w.phases[i] == Calling
       case CancelWaiting(i) => w.phases[i] == Waiting
  }

  function Step(l: Limits, w: Wave, a: Action): Wave
    requires Enabled(w, a)
  {
    match a
    case Begin(i, otherLimit, queued, posted) =>
      if Exceeded(l, w.executed, w.calls, otherLimit) then
        w.(phases := w.phases[i := if posted then Declined else Refused])
      else if w.permits > 0 && !queued then
        w.(phases := w.phases[i := Calling], executed := w.executed + 1, permits := w.permits - 1)
      else w.(phases := w.phases[i := Waiting], executed := w.executed + 1)
    case Wake(i) => w.(phases := w.phases[i := Calling], permits := w.permits - 1)
    case Answer(i) => w.(phases := w.phases[i := Succeeded], calls := w.calls + 1, permits := w.permits + 1)
    case Raise(i) => w.(phases := w.phases[i := Failed], permits := w.permits + 1)
    case CancelWaiting(i) => w.(phases := w.phases[i := Failed])
  }

  /** `run` is an interleaving that starts in `w`; steps that are not enabled are not taken. */
  ghost predicate Schedule(l: Limits, w: Wave, run: seq<Action>)
    decreases |run|
  {
    run == [] || (Enabled(w, run[0]) && Schedule(l, Step(l, w, run[0]), run[1..]))
  }

  ghost function After(l: Limits, w: Wave, run: seq<Action>): Wave
    requires Schedule(l, w, run)
    decreases |run|
  {
    if run == [] then w else After(l, Step(l, w, run[0]), run[1..])
  }

  // ---- How many tasks are in each phase ----

  ghost function Count(phases: seq<Phase>, p: Phase): nat {
    if phases == [] then 0 else Count(phases[..|phases|-1], p) + One(phases[|phases|-1], p)
  }

  ghost function One(p: Phase, q: Phase): nat {
    if p == q then 1 else 0
  }

  /** Moving one task to another phase moves one unit between two counts. */
  lemma {:induction false} CountUpdate(phases: seq<Phase>, i: nat, p: Phase, q: Phase)
    requires i < |phases|
    ensures Count(phases[i := p], q) == Count(phases, q) - One(phases[i], q) + One(p, q)
  {
    var init := phases[..|phases|-1];
    if i == |phases| - 1 {
      assert phases[i := p][..|phases|-1] == init;
    } else {
      assert phases[i := p][..|phases|-1] == init[i := p];
      CountUpdate(init, i, p, q);
    }
  }

  lemma {:induction false} CountAbsent(phases: seq<Phase>, q: Phase)
    requires q !in phases
    ensures Count(phases, q) == 0
  {
    if phases != [] {
      CountAbsent(phases[..|phases|-1], q);
    }
  }

  /** The tasks of a wave are split over three groups of phases. */
  ghost function NotBegun(phases: seq<Phase>): nat {
    Count(phases, Unstarted) + TurnedAway(phases)
  }

  ghost function TurnedAway(phases: seq<Phase>): nat {
    Count(phases, Declined) + Count(phases, Refused)
  }

  ghost function InFlight(phases: seq<Phase>): nat {
    Count(phases, Waiting) + Count(phases, Calling)
  }

  lemma {:induction false} GroupsPartition(phases: seq<Phase>)
    ensures NotBegun(phases) + InFlight(phases) + Count(phases, Succeeded) + Count(phases, Failed) == |phases|
  {
    if phases != [] {
      GroupsPartition(phases[..|phases|-1]);
    }
  }

  function Max(a: int, b: int): int {
    if a > b then a else b
  }

  /** What every step keeps, relative to the counters at the start of the wave. */
  ghost predicate Inv(l: Limits, executed0: int, calls0: int, w: Wave) {
    && w.permits >= 0 && w.permits + Count(w.phases, Calling) == Capacity(l)
    && w.executed <= Max(executed0, l.maxTasks)
    && w.executed - executed0 == |w.phases| - NotBegun(w.phases)
    && w.calls - calls0 == Count(w.phases, Succeeded)
    && w.calls + InFlight(w.phases) <= Max(calls0, l.maxCalls - 1 + |w.phases|)
  }

  lemma InitialInv(l: Limits, size: nat, executed: int, calls: int)
    ensures Inv(l, executed, calls, InitialWave(l, size, executed, calls))
    ensures TurnedAway(InitialWave(l, size, executed, calls).phases) == 0
  {
    SettledCounts(InitialWave(l, size, executed, calls).phases, {Unstarted});
  }

  /** Counts of the phases that do not occur. */
  lemma SettledCounts(phases: seq<Phase>, among: set<Phase>)
    requires forall i :: 0 <= i < |phases| ==> phases[i] in among
    ensures forall q :: q !in among ==> Count(phases, q) == 0
    ensures NotBegun(phases) + InFlight(phases) + Count(phases, Succeeded) + Count(phases, Failed) == |phases|
  {
    GroupsPartition(phases);
    forall q | q !in among ensures Count(phases, q) == 0 {
      CountAbsent(phases, q);
    }
  }

  lemma StepCounts(w: Wave, i: nat, p: Phase)
    requires i < |w.phases|
    ensures forall q :: Count(w.phases[i := p], q) == Count(w.phases, q) - One(w.phases[i], q) + One(p, q)
  {
    forall q ensures Count(w.phases[i := p], q) == Count(w.phases, q) - One(w.phases[i], q) + One(p, q) {
      CountUpdate(w.phases, i, p, q);
    }
  }

  lemma StepKeepsInv(l: Limits, executed0: int, calls0: int, w: Wave, a: Action)
    requires Enabled(w, a) && Inv(l, executed0, calls0, w)
    ensures Inv(l, executed0, calls0, Step(l, w, a)) && |Step(l, w, a).phases| == |w.phases|
  {
    hide Count;
    if a.Begin? {
      BeginKeepsInv(l, executed0, calls0, w, a);
    } else {
      StepCounts(w, a.task, Step(l, w, a).phases[a.task]);
    }
  }

  lemma BeginKeepsInv(l: Limits, executed0: int, calls0: int, w: Wave, a: Action)
    requires Enabled(w, a) && Inv(l, executed0, calls0, w) && a.Begin?
    ensures Inv(l, executed0, calls0, Step(l, w, a))
  {
    hide Count;
    GroupsPartition(w.phases);
    StepCounts(w, a.task, Step(l, w, a).phases[a.task]);
    GroupsPartition(Step(l, w, a).phases);
  }

  /** Every interleaving keeps the limits; the semaphore never hands out more than its permits. */
  lemma {:induction false} WaveKeepsLimits(l: Limits, executed0: int, calls0: int, w: Wave, run: seq<Action>)
    requires Inv(l, executed0, calls0, w) && Schedule(l, w, run)
    ensures var w' := After(l, w, run);
      && Inv(l, executed0, calls0, w') && |w'.phases| == |w.phases|
      && Count(w'.phases, Calling) <= (if l.maxParallel > 1 then l.maxParallel else 1)
      && w'.executed <= Max(executed0, l.maxTasks)
      && w'.calls <= Max(calls0, l.maxCalls - 1 + |w.phases|)
    decreases |run|
  {
    if run != [] {
      StepKeepsInv(l, executed0, calls0, w, run[0]);
      WaveKeepsLimits(l, executed0, calls0, Step(l, w, run[0]), run[1..]);
    }
  }

  /**
   What the first step of a task does, in every interleaving: it is turned away exactly if a budget is used up, waits
   only if the semaphore makes it queue or as many specialists are at work as may be, and otherwise calls its own.
   */
  lemma BeginIs(l: Limits, executed0: int, calls0: int, w: Wave, a: Action)
    requires Inv(l, executed0, calls0, w) && Enabled(w, a) && a.Begin?
    ensures var phase := Step(l, w, a).phases[a.task];
      var usedUp := w.executed >= l.maxTasks || w.calls >= l.maxCalls || a.otherLimit;
      var full := Count(w.phases, Calling) >= if l.maxParallel > 1 then l.maxParallel else 1;
      && (phase == Declined <==> usedUp && a.posted)
      && (phase == Refused <==> usedUp && !a.posted)
      && (phase == Waiting <==> !usedUp && (a.queued || full))
      && (phase == Calling <==> !usedUp && !a.queued && !full)
  {
    hide Count;
  }

  /** A waiting task can go on exactly if fewer specialists are at work than may be. */
  lemma WakeIff(l: Limits, executed0: int, calls0: int, w: Wave, i: nat)
    requires Inv(l, executed0, calls0, w) && i < |w.phases| && w.phases[i] == Waiting
    ensures Enabled(w, Wake(i)) <==> Count(w.phases, Calling) < if l.maxParallel > 1 then l.maxParallel else 1
  {
    hide Count;
  }

  ghost predicate Settled(w: Wave) {
    forall i :: 0 <= i < |w.phases| ==> w.phases[i] in {Declined, Refused, Succeeded, Failed}
  }

  /** Once every task of the wave is settled, all permits are back. */
  lemma PermitsReturn(l: Limits, size: nat, executed: int, calls: int, run: seq<Action>)
    requires Schedule(l, InitialWave(l, size, executed, calls), run)
    requires Settled(After(l, InitialWave(l, size, executed, calls), run))
    ensures After(l, InitialWave(l, size, executed, calls), run).permits ==
      if l.maxParallel > 1 then l.maxParallel else 1
  {
    InitialInv(l, size, executed, calls);
    WaveKeepsLimits(l, executed, calls, InitialWave(l, size, executed, calls), run);
    var w := After(l, InitialWave(l, size, executed, calls), run);
    CountAbsent(w.phases, Calling);
  }

  ghost predicate NoOtherLimit(run: seq<Action>) {
    forall i :: 0 <= i < |run| && run[i].Begin? ==> !run[i].otherLimit
  }

  /** With budget for the whole wave, no interleaving declines any of its tasks. */
  lemma {:induction false} CoveredWaveDeclinesNothing(l: Limits, executed0: int, calls0: int, w: Wave, run: seq<Action>)
    requires Inv(l, executed0, calls0, w) && Schedule(l, w, run) && NoOtherLimit(run)
    requires executed0 + |w.phases| <= l.maxTasks && calls0 + |w.phases| <= l.maxCalls
    requires TurnedAway(w.phases) == 0
    ensures TurnedAway(After(l, w, run).phases) == 0
    decreases |run|
  {
    hide Count;
    if run != [] {
      var a := run[0];
      var w' := Step(l, w, a);
      GroupsPartition(w.phases);
      StepCounts(w, a.task, w'.phases[a.task]);
      assert a.Begin? ==> !Exceeded(l, w.executed, w.calls, a.otherLimit);
      StepKeepsInv(l, executed0, calls0, w, a);
      CoveredWaveDeclinesNothing(l, executed0, calls0, w', run[1..]);
    }
  }

  predicate Raises(a: Action) {
    a.Raise? || a.CancelWaiting? || (a.Begin? && !a.posted)
  }

  ghost predicate NobodyRaises(run: seq<Action>) {
    forall i :: 0 <= i < |run| ==> !Raises(run[i])
  }

  lemma {:induction false} CountPresent(phases: seq<Phase>, i: nat)
    requires i < |phases|
    ensures Count(phases, phases[i]) > 0
  {
    if i < |phases| - 1 {
      CountPresent(phases[..|phases|-1], i);
    }
  }

  lemma {:induction false} FailuresComeFromRaises(l: Limits, w: Wave, run: seq<Action>)
    requires Schedule(l, w, run) && NobodyRaises(run)
    ensures Count(After(l, w, run).phases, Failed) == Count(w.phases, Failed) && |After(l, w, run).phases| == |w.phases|
    decreases |run|
  {
    if run != [] {
      var w' := Step(l, w, run[0]);
      CountUpdate(w.phases, run[0].task, w'.phases[run[0].task], Failed);
      FailuresComeFromRaises(l, w', run[1..]);
    }
  }

  /**
   What the wave loop may rely on: in every interleaving of a wave that the budget covers, when no specialist
   raises, every task has returned its finding by the time the wave is settled.
   */
  lemma CoveredWaveSucceeds(l: Limits, size: nat, executed: int, calls: int, run: seq<Action>, i: nat)
    requires Schedule(l, InitialWave(l, size, executed, calls), run) && NoOtherLimit(run) && NobodyRaises(run)
    requires executed + size <= l.maxTasks && calls + size <= l.maxCalls && i < size
    requires Settled(After(l, InitialWave(l, size, executed, calls), run))
    ensures var w := After(l, InitialWave(l, size, executed, calls), run);
      && |w.phases| == size && w.phases[i] == Succeeded
      && w.executed == executed + size && w.calls == calls + size && w.permits == Capacity(l)
  {
    hide Count;
    var w0 := InitialWave(l, size, executed, calls);
    var w := After(l, w0, run);
    InitialInv(l, size, executed, calls);
    SettledCounts(w0.phases, {Unstarted});
    WaveKeepsLimits(l, executed, calls, w0, run);
    CoveredWaveDeclinesNothing(l, executed, calls, w0, run);
    FailuresComeFromRaises(l, w0, run);
    SettledCounts(w.phases, {Declined, Refused, Succeeded, Failed});
    CountPresent(w.phases, i);
  }

  /** The semaphore never deadlocks: a wave that is not settled has a next step, without anything raising. */
  lemma WaveNeverStuck(l: Limits, executed0: int, calls0: int, w: Wave) returns (a: Action)
    requires Inv(l, executed0, calls0, w) && !Settled(w)
    ensures Enabled(w, a) && !Raises(a)
  {
    var i :| 0 <= i < |w.phases| && w.phases[i] !in {Declined, Refused, Succeeded, Failed};
    if w.phases[i] == Unstarted {
      a := Begin(i, false, false, true);
    } else if w.phases[i] == Calling {
      a := Answer(i);
    } else if w.permits > 0 {
      a := Wake(i);
    } else {
      if Calling !in w.phases {
        CountAbsent(w.phases, Calling);
      }
      var j :| 0 <= j < |w.phases| && w.phases[j] == Calling;
      a := Answer(j);
    }
  }

  // ---- Waves that decline, and waves that execute one task after the other ----

  /** Nothing can begin: a counter is at its limit, or the other budgets say no every time. */
  ghost predicate Declining(l: Limits, w: Wave, run: seq<Action>) {
    || w.executed >= l.maxTasks || w.calls >= l.maxCalls
    || AllOtherLimited(run)
  }

  ghost predicate AllOtherLimited(run: seq<Action>) {
    forall i :: 0 <= i < |run| && run[i].Begin? ==> run[i].otherLimit
  }

  ghost predicate NothingBegun(w: Wave) {
    forall i :: 0 <= i < |w.phases| ==> w.phases[i] in {Unstarted, Declined, Refused}
  }

  lemma {:induction false} DecliningRun(l: Limits, w: Wave, run: seq<Action>)
    requires Schedule(l, w, run) && Declining(l, w, run) && NothingBegun(w)
    ensures var w' := After(l, w, run);
      NothingBegun(w') && |w'.phases| == |w.phases| && w'.executed == w.executed && w'.calls == w.calls
    decreases |run|
  {
    if run != [] {
      assert run[0].Begin?;
      DecliningRun(l, Step(l, w, run[0]), run[1..]);
    }
  }

  /** Strict enforcement: a declined task never gets its request for a decision out. */
  ghost predicate Strict(run: seq<Action>) {
    forall i :: 0 <= i < |run| && run[i].Begin? ==> !run[i].posted
  }

  lemma {:induction false} StrictNeverDeclines(l: Limits, w: Wave, run: seq<Action>)
    requires Schedule(l, w, run) && Strict(run) && Declined !in w.phases
    ensures Declined !in After(l, w, run).phases && |After(l, w, run).phases| == |w.phases|
    decreases |run|
  {
    if run != [] {
      StrictNeverDeclines(l, Step(l, w, run[0]), run[1..]);
    }
  }

  /** In strict enforcement, a used-up budget makes every settled wave with a task in it raise. */
  lemma StrictUsedUpRaises(l: Limits, size: nat, executed: int, calls: int, run: seq<Action>)
    requires Schedule(l, InitialWave(l, size, executed, calls), run) && Strict(run) && size > 0
    requires Declining(l, InitialWave(l, size, executed, calls), run)
    requires Settled(After(l, InitialWave(l, size, executed, calls), run))
    ensures Refused in After(l, InitialWave(l, size, executed, calls), run).phases
  {
    var w := InitialWave(l, size, executed, calls);
    DecliningRun(l, w, run);
    StrictNeverDeclines(l, w, run);
    assert After(l, w, run).phases[0] == Refused;
  }

  lemma {:induction false} CountersGrow(l: Limits, w: Wave, run: seq<Action>)
    requires Schedule(l, w, run)
    ensures After(l, w, run).executed >= w.executed && After(l, w, run).calls >= w.calls
    decreases |run|
  {
    if run != [] {
      CountersGrow(l, Step(l, w, run[0]), run[1..]);
    }
  }

  /** With both counters below their limits, the first task to begin is executed. */
  lemma FirstTaskBegins(l: Limits, size: nat, executed: int, calls: int, run: seq<Action>)
    requires Schedule(l, InitialWave(l, size, executed, calls), run) && NoOtherLimit(run) && size > 0
    requires executed < l.maxTasks && calls < l.maxCalls
    requires Settled(After(l, InitialWave(l, size, executed, calls), run))
    ensures After(l, InitialWave(l, size, executed, calls), run).executed > executed
  {
    var w := InitialWave(l, size, executed, calls);
    assert w.phases[0] == Unstarted;
    if run != [] {
      CountersGrow(l, Step(l, w, run[0]), run[1..]);
    }
  }

  /** The first `k` tasks are settled, without an exception; the others have not started; no permit is out. */
  ghost predicate SettledUpTo(l: Limits, w: Wave, k: nat) {
    && k <= |w.phases| && w.permits == Capacity(l)
    && (forall i :: 0 <= i < k ==> w.phases[i] in {Declined, Succeeded})
    && (forall i :: k <= i < |w.phases| ==> w.phases[i] == Unstarted)
  }

  ghost predicate Calm(run: seq<Action>) {
    NoOtherLimit(run) && NobodyRaises(run)
  }

  lemma CalmPrepend(a: Action, run: seq<Action>)
    requires Calm(run) && !Raises(a) && (a.Begin? ==> !a.otherLimit)
    ensures Calm([a] + run) && ([a] + run)[1..] == run
  {
  }

  /** One task after the other: an interleaving in which no call is made beyond the call budget. */
  lemma {:induction false} SequentialRun(l: Limits, w: Wave, k: nat) returns (run: seq<Action>)
    requires SettledUpTo(l, w, k)
    ensures Calm(run) && Schedule(l, w, run) && SettledUpTo(l, After(l, w, run), |w.phases|)
    ensures After(l, w, run).calls <= Max(w.calls, l.maxCalls)
    decreases |w.phases| - k
  {
    if k == |w.phases| {
      run := [];
    } else {
      var begin := Begin(k, false, false, true);
      var w1 := Step(l, w, begin);
      if Exceeded(l, w.executed, w.calls, false) {
        var rest := SequentialRun(l, w1, k + 1);
        run := [begin] + rest;
        CalmPrepend(begin, rest);
      } else {
        var w2 := Step(l, w1, Answer(k));
        var rest := SequentialRun(l, w2, k + 1);
        run := [begin] + ([Answer(k)] + rest);
        CalmPrepend(Answer(k), rest);
        CalmPrepend(begin, [Answer(k)] + rest);
        assert Schedule(l, w1, [Answer(k)] + rest);
      }
    }
  }
}
