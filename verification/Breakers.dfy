/**
 The per-dependency circuit breaker, first as a state machine on values and as the class that implements
 it, then driven by any interleaving of concurrent calls, including probes that come back late.
 */
module Breakers {

  datatype State = Closed | Open | HalfOpen

  datatype Config = Config(failureThreshold: int, recoveryTimeout: real, halfOpenMaxCalls: int)

  /** The constructor rejects every other configuration. */
  predicate ValidConfig(c: Config) {
    c.failureThreshold >= 1 && c.recoveryTimeout > 0.0 && c.halfOpenMaxCalls >= 1
  }

  datatype Breaker = Breaker(state: State, consecutiveFailures: int, openedAt: real, halfOpenCalls: int)

  datatype Admission = Rejected | Admitted(probe: bool)

  const INITIAL := Breaker(Closed, 0, 0.0, 0)

  // ---- The four operations; each runs under the lock or without an await, so it is one step ----

  function AcquireStep(c: Config, b: Breaker, now: real): (Breaker, Admission) {
    if b.state == Open && now - b.openedAt < c.recoveryTimeout then (b, Rejected)
    else
      var b' := if b.state == Open then b.(state := HalfOpen, halfOpenCalls := 0) else b;
      if b'.state == HalfOpen then
        if b'.halfOpenCalls >= c.halfOpenMaxCalls then (b', Rejected)
        else (b'.(halfOpenCalls := b'.halfOpenCalls + 1), Admitted(true))
      else (b', Admitted(false))
  }

  function ReleaseStep(b: Breaker): Breaker {
    if b.state != HalfOpen then b
    else if b.halfOpenCalls > 0 then b.(halfOpenCalls := b.halfOpenCalls - 1) else b
  }

  function SuccessStep(b: Breaker): Breaker {
    var b' := b.(consecutiveFailures := 0);
    if b'.state != Closed then b'.(state := Closed, halfOpenCalls := 0) else b'
  }

  function FailureStep(c: Config, b: Breaker, now: real): Breaker {
    var b' := b.(consecutiveFailures := b.consecutiveFailures + 1);
    if b'.state == HalfOpen then b'.(state := Open, openedAt := now, halfOpenCalls := 0)
    else if b'.state == Closed && b'.consecutiveFailures >= c.failureThreshold then b'.(state := Open, openedAt := now)
    else b'
  }

  class CircuitBreaker {
    const config: Config
    var state: State
    var consecutiveFailures: int
    var openedAt: real
    var halfOpenCalls: int

    ghost function Value(): Breaker
      reads this
    {
      Breaker(state, consecutiveFailures, openedAt, halfOpenCalls)
    }

    constructor (config: Config)
      requires ValidConfig(config)
      ensures this.config == config && Value() == INITIAL
    {
      this.config := config;
      state, consecutiveFailures, openedAt, halfOpenCalls := Closed, 0, 0.0, 0;
    }

    method Acquire(now: real) returns (admission: Admission)
      modifies this
      ensures (Value(), admission) == AcquireStep(config, old(Value()), now)
    {
      if state == Open {
        var elapsed := now - openedAt;
        if elapsed >= config.recoveryTimeout {
          state := HalfOpen;
          halfOpenCalls := 0;
        } else {
          return Rejected;
        }
      }
      if state == HalfOpen {
        if halfOpenCalls >= config.halfOpenMaxCalls {
          return Rejected;
        }
        halfOpenCalls := halfOpenCalls + 1;
        return Admitted(true);
      }
      return Admitted(false);
    }

    method ReleaseProbe()
      modifies this
      ensures Value() == ReleaseStep(old(Value()))
    {
      if state != HalfOpen {
        return;
      }
      if halfOpenCalls > 0 {
        halfOpenCalls := halfOpenCalls - 1;
      }
    }

    method RecordSuccess()
      modifies this
      ensures Value() == SuccessStep(old(Value()))
    {
      consecutiveFailures := 0;
      if state != Closed {
        state := Closed;
        halfOpenCalls := 0;
      }
    }

    method RecordFailure(now: real)
      modifies this
      ensures Value() == FailureStep(config, old(Value()), now)
    {
      consecutiveFailures := consecutiveFailures + 1;
      if state == HalfOpen {
        state := Open;
        openedAt := now;
        halfOpenCalls := 0;
      } else if state == Closed && consecutiveFailures >= config.failureThreshold {
        state := Open;
        openedAt := now;
      }
    }
  }

  // ---- Concurrent calls ----

  type CallId = nat

  datatype Event =
    | Failed(at: real)
    | Succeeded(at: real)
    | Entered(at: real, probe: bool)  // a call was admitted
    | Left(at: real, probe: bool)     // a call ran its `finally`

  /** The breaker, the admitted calls that have not run their `finally` yet (true for probes), and the past. */
  datatype System = System(breaker: Breaker, calls: map<CallId, bool>, clock: real, log: seq<Event>)

  datatype Action =
    | Acquire(id: CallId, at: real)
    | Success(id: CallId, at: real)
    | Failure(id: CallId, at: real)
    | Finish(id: CallId, at: real)

  const BOOT := System(INITIAL, map[], 0.0, [])

  /** Verdicts and releases come from admitted calls only; the clock never goes back. */
  predicate Enabled(s: System, a: Action) {
    a.at >= s.clock && (if a.Acquire? then a.id !in s.calls else a.id in s.calls)
  }

  function Step(c: Config, s: System, a: Action): System
    requires Enabled(s, a)
  {
    match a
    case Acquire(id, at) =>
      var (b, admission) := AcquireStep(c, s.breaker, at);
      if admission.Rejected? then System(b, s.calls, at, s.log)
      else System(b, s.calls[id := admission.probe], at, s.log + [Entered(at, admission.probe)])
    case Success(id, at) => System(SuccessStep(s.breaker), s.calls, at, s.log + [Succeeded(at)])
    case Failure(id, at) => System(FailureStep(c, s.breaker, at), s.calls, at, s.log + [Failed(at)])
    case Finish(id, at) =>
      System(if s.calls[id] then ReleaseStep(s.breaker) else s.breaker, s.calls - {id}, at,
             s.log + [Left(at, s.calls[id])])
  }

  ghost predicate Schedule(c: Config, s: System, run: seq<Action>)
    decreases |run|
  {
    run == [] || (Enabled(s, run[0]) && Schedule(c, Step(c, s, run[0]), run[1..]))
  }

  ghost function After(c: Config, s: System, run: seq<Action>): System
    requires Schedule(c, s, run)
    decreases |run|
  {
    if run == [] then s else After(c, Step(c, s, run[0]), run[1..])
  }

  // ---- No wedging ----

  ghost function Probes(s: System): set<CallId> {
    ProbesOf(s.calls)
  }

  /** Probe slots in use: none outside HALF_OPEN, bounded inside it, and each backed by an outstanding probe. */
  ghost predicate SlotsAccounted(c: Config, s: System) {
    && (s.breaker.state != HalfOpen ==> s.breaker.halfOpenCalls == 0)
    && 0 <= s.breaker.halfOpenCalls <= c.halfOpenMaxCalls
    && s.breaker.halfOpenCalls <= |Probes(s)|
  }

  /** An admitted probe adds one, and only its own `finally` takes it away. */
  lemma ProbesStep(c: Config, s: System, a: Action)
    requires Enabled(s, a)
    ensures |Probes(Step(c, s, a))| == |Probes(s)| +
      if a.Acquire? && AcquireStep(c, s.breaker, a.at).1 == Admitted(true) then 1
      else if a.Finish? && s.calls[a.id] then -1 else 0
  {
    hide AcquireStep, FailureStep, SuccessStep, ReleaseStep;
    if a.Acquire? {
      ProbesUpdate(s.calls, a.id, AcquireStep(c, s.breaker, a.at).1);
    } else if a.Finish? {
      ProbesRemove(s.calls, a.id);
    }
  }

  ghost function ProbesOf(calls: map<CallId, bool>): set<CallId> {
    set id | id in calls && calls[id]
  }

  lemma ProbesUpdate(calls: map<CallId, bool>, id: CallId, admission: Admission)
    requires id !in calls
    ensures admission.Admitted? ==>
      |ProbesOf(calls[id := admission.probe])| == |ProbesOf(calls)| + if admission.probe then 1 else 0
  {
    if admission.Admitted? {
      assert ProbesOf(calls[id := admission.probe]) == ProbesOf(calls) + if admission.probe then {id} else {};
    }
  }

  lemma ProbesRemove(calls: map<CallId, bool>, id: CallId)
    requires id in calls
    ensures |ProbesOf(calls - {id})| == |ProbesOf(calls)| - if calls[id] then 1 else 0
  {
    assert ProbesOf(calls - {id}) == ProbesOf(calls) - {id};
  }

  lemma SlotsStep(c: Config, s: System, a: Action)
    requires ValidConfig(c) && Enabled(s, a) && SlotsAccounted(c, s)
    ensures SlotsAccounted(c, Step(c, s, a))
  {
    hide Probes;
    ProbesStep(c, s, a);
  }

  lemma {:induction false} SlotsAlwaysAccounted(c: Config, s: System, run: seq<Action>)
    requires ValidConfig(c) && SlotsAccounted(c, s) && Schedule(c, s, run)
    ensures SlotsAccounted(c, After(c, s, run))
    decreases |run|
  {
    if run != [] {
      SlotsStep(c, s, run[0]);
      SlotsAlwaysAccounted(c, Step(c, s, run[0]), run[1..]);
    }
  }

  /** A half-open circuit with no outstanding probe admits the next call, in every interleaving. */
  lemma NeverWedged(c: Config, run: seq<Action>, now: real)
    requires ValidConfig(c) && Schedule(c, BOOT, run)
    requires After(c, BOOT, run).breaker.state == HalfOpen && Probes(After(c, BOOT, run)) == {}
    ensures AcquireStep(c, After(c, BOOT, run).breaker, now).1 == Admitted(true)
  {
    assert Probes(BOOT) == {};
    SlotsAlwaysAccounted(c, BOOT, run);
  }

  // ---- How many probes can be outstanding ----

  /** A stretch of calls entering and leaving during which no verdict reaches the breaker. */
  ghost predicate NoVerdict(run: seq<Action>) {
    forall i :: 0 <= i < |run| ==> run[i].Acquire? || run[i].Finish?
  }

  lemma ExactSlotsStep(c: Config, s: System, a: Action)
    requires ValidConfig(c) && Enabled(s, a) && (a.Acquire? || a.Finish?)
    requires s.breaker.state == HalfOpen && s.breaker.halfOpenCalls == |Probes(s)| <= c.halfOpenMaxCalls
    ensures var s' := Step(c, s, a);
      s'.breaker.state == HalfOpen && s'.breaker.halfOpenCalls == |Probes(s')| <= c.halfOpenMaxCalls
  {
    hide Probes;
    ProbesStep(c, s, a);
  }

  lemma {:induction false} ExactSlotsBoundProbes(c: Config, s: System, run: seq<Action>)
    requires ValidConfig(c) && Schedule(c, s, run) && NoVerdict(run)
    requires s.breaker.state == HalfOpen && s.breaker.halfOpenCalls == |Probes(s)| <= c.halfOpenMaxCalls
    ensures |Probes(After(c, s, run))| <= c.halfOpenMaxCalls
    decreases |run|
  {
    if run != [] {
      var s' := Step(c, s, run[0]);
      ExactSlotsStep(c, s, run[0]);
      ExactSlotsBoundProbes(c, s', run[1..]);
    }
  }

  lemma {:induction false} FreshId(used: set<CallId>) returns (id: CallId)
    ensures forall u :: u in used ==> u < id
    decreases used
  {
    if used == {} {
      id := 0;
    } else {
      var u :| u in used;
      var rest := FreshId(used - {u});
      id := if u < rest then rest else u + 1;
      assert forall v :: v in used ==> v == u || v in used - {u};
    }
  }

  /** With more probes outstanding than slots in use, new calls push the probes over the limit. */
  lemma {:induction false} StaleProbeOverflows(c: Config, s: System) returns (run: seq<Action>)
    requires ValidConfig(c) && s.breaker.state == HalfOpen
    requires s.breaker.halfOpenCalls <= c.halfOpenMaxCalls && s.breaker.halfOpenCalls < |Probes(s)|
    ensures Schedule(c, s, run) && NoVerdict(run) && |Probes(After(c, s, run))| > c.halfOpenMaxCalls
    decreases c.halfOpenMaxCalls - s.breaker.halfOpenCalls
  {
    if s.breaker.halfOpenCalls == c.halfOpenMaxCalls {
      run := [];
    } else {
      var id := FreshId(s.calls.Keys);
      var a := Acquire(id, s.clock);
      var s' := Step(c, s, a);
      assert Probes(s') == Probes(s) + {id} && id !in Probes(s);
      var rest := StaleProbeOverflows(c, s');
      run := [a] + rest;
      assert run[1..] == rest;
    }
  }

  /**
   Exactly when the documented bound on probes holds through a half-open period: no probe of an earlier
   period is still outstanding when the call that starts the period is admitted.
   */
  lemma ProbesBoundedIff(c: Config, s: System, id: CallId, at: real)
    requires ValidConfig(c) && Enabled(s, Acquire(id, at))
    requires s.breaker.state == Open && at - s.breaker.openedAt >= c.recoveryTimeout
    ensures var s' := Step(c, s, Acquire(id, at));
      Probes(s) == {} <==>
        forall run :: Schedule(c, s', run) && NoVerdict(run) ==> |Probes(After(c, s', run))| <= c.halfOpenMaxCalls
  {
    var s' := Step(c, s, Acquire(id, at));
    assert Probes(s') == Probes(s) + {id} && id !in Probes(s);
    if Probes(s) == {} {
      forall run | Schedule(c, s', run) && NoVerdict(run) ensures |Probes(After(c, s', run))| <= c.halfOpenMaxCalls {
        ExactSlotsBoundProbes(c, s', run);
      }
    } else {
      var run := StaleProbeOverflows(c, s');
    }
  }

  lemma {:induction false} Extend(c: Config, s: System, run: seq<Action>, a: Action)
    requires Schedule(c, s, run) && Enabled(After(c, s, run), a)
    ensures Schedule(c, s, run + [a]) && After(c, s, run + [a]) == Step(c, After(c, s, run), a)
    decreases |run|
  {
    if run == [] {
      assert (run + [a])[1..] == [];
    } else {
      assert (run + [a])[1..] == run[1..] + [a];
      Extend(c, Step(c, s, run[0]), run[1..], a);
    }
  }

  ghost predicate Reachable(c: Config, s: System) {
    exists run :: Schedule(c, BOOT, run) && After(c, BOOT, run) == s
  }

  lemma ReachableStep(c: Config, s: System, a: Action)
    requires Reachable(c, s) && Enabled(s, a)
    ensures Reachable(c, Step(c, s, a))
  {
    var run :| Schedule(c, BOOT, run) && After(c, BOOT, run) == s;
    Extend(c, BOOT, run, a);
  }

  /** The first `n` ordinary calls, all under way. */
  function OrdinaryCalls(n: nat): (calls: map<CallId, bool>)
    ensures forall id: nat :: id in calls <==> id < n
    ensures forall id :: id in calls ==> !calls[id]
  {
    if n == 0 then map[] else OrdinaryCalls(n - 1)[n - 1 := false]
  }

  lemma {:induction false} CallsUnderWay(c: Config, n: nat) returns (s: System)
    ensures Reachable(c, s) && s.breaker == INITIAL && s.calls == OrdinaryCalls(n) && s.clock == 0.0
  {
    if n == 0 {
      s := BOOT;
      assert Schedule(c, BOOT, []) && After(c, BOOT, []) == BOOT;
    } else {
      hide Reachable;
      var before := CallsUnderWay(c, n - 1);
      ReachableStep(c, before, Acquire(n - 1, 0.0));
      s := Step(c, before, Acquire(n - 1, 0.0));
    }
  }

  /** The calls 1 to `k` have failed, each once; call 0 has not come back. */
  lemma {:induction false} SomeHaveFailed(c: Config, k: nat) returns (s: System)
    requires ValidConfig(c) && k <= c.failureThreshold
    ensures Reachable(c, s) && s.calls == OrdinaryCalls(c.failureThreshold + 1) && s.clock == 0.0
    ensures s.breaker == Breaker(if k < c.failureThreshold then Closed else Open, k, 0.0, 0)
  {
    hide Reachable;
    if k == 0 {
      s := CallsUnderWay(c, c.failureThreshold + 1);
    } else {
      var before := SomeHaveFailed(c, k - 1);
      ReachableStep(c, before, Failure(k, 0.0));
      s := Step(c, before, Failure(k, 0.0));
    }
  }

  /** In every configuration the condition can fail: an ordinary call that fails late reopens over a running probe. */
  lemma StaleProbeIsReachable(c: Config) returns (s: System)
    requires ValidConfig(c)
    ensures Reachable(c, s) && s.breaker.state == Open && Probes(s) == {c.failureThreshold + 1}
  {
    hide Reachable;
    var probe: nat := c.failureThreshold + 1;
    var s1 := SomeHaveFailed(c, c.failureThreshold);
    ReachableStep(c, s1, Acquire(probe, c.recoveryTimeout));
    var s2 := Step(c, s1, Acquire(probe, c.recoveryTimeout));
    ReachableStep(c, s2, Failure(0, c.recoveryTimeout));
    s := Step(c, s2, Failure(0, c.recoveryTimeout));
  }

  // ---- The state refines the history of verdicts ----

  /** Length of the run of failures at the end of the log. */
  ghost function TrailingFailures(log: seq<Event>): nat {
    if log == [] then 0 else
      match log[|log|-1]
      case Failed(_) => TrailingFailures(log[..|log|-1]) + 1
      case Succeeded(_) => 0
      case _ => TrailingFailures(log[..|log|-1])
  }

  /** A probe has entered since the last verdict: the half-open period has begun. */
  ghost predicate PeriodBegun(log: seq<Event>) {
    log != [] &&
    match log[|log|-1]
    case Entered(_, probe) => probe || PeriodBegun(log[..|log|-1])
    case Left(_, _) => PeriodBegun(log[..|log|-1])
    case _ => false
  }

  /** Slots in use: one for every probe of the period, given back by any probe that leaves while some are in use. */
  ghost function SlotsTaken(log: seq<Event>): nat {
    if log == [] then 0 else
      var before := SlotsTaken(log[..|log|-1]);
      match log[|log|-1]
      case Entered(_, probe) => if probe then before + 1 else before
      case Left(_, probe) => if probe && PeriodBegun(log[..|log|-1]) && before > 0 then before - 1 else before
      case _ => 0
  }

  /**
   Time of the latest failure that opened the circuit since the last success, if any: the one that made the trailing
   run as long as the threshold, or one that ended a half-open period.
   */
  ghost function LastOpening(c: Config, log: seq<Event>): Opening {
    if log == [] then Never else
      var past := log[..|log|-1];
      match log[|log|-1]
      case Failed(at) =>
        if TrailingFailures(past) + 1 == c.failureThreshold || PeriodBegun(past) then At(at) else LastOpening(c, past)
      case Succeeded(_) => Never
      case _ => LastOpening(c, past)
  }

  datatype Opening = Never | At(time: real)

  ghost predicate Refines(c: Config, s: System) {
    && s.breaker.consecutiveFailures == TrailingFailures(s.log)
    && (s.breaker.state == Closed <==> TrailingFailures(s.log) < c.failureThreshold)
    && (s.breaker.state == HalfOpen <==> PeriodBegun(s.log))
    && s.breaker.halfOpenCalls == SlotsTaken(s.log)
    && LastOpening(c, s.log) == (if s.breaker.state == Closed then Never else At(s.breaker.openedAt))
    && (s.breaker.state == HalfOpen ==> s.clock - s.breaker.openedAt >= c.recoveryTimeout)
    && (s.breaker.state != HalfOpen ==> s.breaker.halfOpenCalls == 0)
  }

  /** No admission comes less than `recoveryTimeout` after an opening with no success in between. */
  ghost predicate CoolsDown(c: Config, log: seq<Event>) {
    forall j :: 0 <= j < |log| && log[j].Entered? && LastOpening(c, log[..j]).At? ==>
      log[j].at - LastOpening(c, log[..j]).time >= c.recoveryTimeout
  }

  lemma CoolsDownAppend(c: Config, log: seq<Event>, e: Event)
    requires CoolsDown(c, log)
    requires e.Entered? && LastOpening(c, log).At? ==> e.at - LastOpening(c, log).time >= c.recoveryTimeout
    ensures CoolsDown(c, log + [e])
  {
    var log' := log + [e];
    forall j | 0 <= j < |log'| && log'[j].Entered? && LastOpening(c, log'[..j]).At?
      ensures log'[j].at - LastOpening(c, log'[..j]).time >= c.recoveryTimeout
    {
      assert log'[..j] == log[..j];
    }
  }

  lemma RefinesStep(c: Config, s: System, a: Action)
    requires ValidConfig(c) && Enabled(s, a) && Refines(c, s)
    ensures Refines(c, Step(c, s, a))
  {
    var s' := Step(c, s, a);
    if s'.log != s.log {
      assert s'.log[..|s'.log|-1] == s.log;
    }
  }

  lemma CoolsDownStep(c: Config, s: System, a: Action)
    requires ValidConfig(c) && Enabled(s, a) && Refines(c, s) && CoolsDown(c, s.log)
    ensures CoolsDown(c, Step(c, s, a).log)
  {
    hide CoolsDown, TrailingFailures;
    var s' := Step(c, s, a);
    if s'.log != s.log {
      CoolsDownAppend(c, s.log, s'.log[|s.log|]);
    }
  }

  /**
   Over every interleaving: the failure counter is the length of the trailing run of failures, the circuit
   is closed exactly when that is below the threshold, and an opened circuit cools down before any call.
   */
  lemma {:induction false} StateRefinesHistory(c: Config, s: System, run: seq<Action>)
    requires ValidConfig(c) && Refines(c, s) && CoolsDown(c, s.log) && Schedule(c, s, run)
    ensures Refines(c, After(c, s, run)) && CoolsDown(c, After(c, s, run).log)
    decreases |run|
  {
    if run != [] {
      RefinesStep(c, s, run[0]);
      CoolsDownStep(c, s, run[0]);
      StateRefinesHistory(c, Step(c, s, run[0]), run[1..]);
    }
  }

  lemma BootRefines(c: Config)
    requires ValidConfig(c)
    ensures Refines(c, BOOT) && CoolsDown(c, BOOT.log) && SlotsAccounted(c, BOOT)
  {
  }

  /** In particular from the start, for every schedule. */
  lemma HistoryFromBoot(c: Config, run: seq<Action>)
    requires ValidConfig(c) && Schedule(c, BOOT, run)
    ensures Refines(c, After(c, BOOT, run)) && CoolsDown(c, After(c, BOOT, run).log)
  {
    BootRefines(c);
    StateRefinesHistory(c, BOOT, run);
  }

  /**
   Exactly whom the breaker admits, after every schedule from the start, in terms of the past alone. A call is an
   ordinary one while the trailing run of failures is below the threshold. From then on it is rejected as long as
   no half-open period has begun and the last opening is too recent, or all slots of the period are taken; and it is
   a probe otherwise.
   */
  lemma AdmissionIff(c: Config, run: seq<Action>, now: real)
    requires ValidConfig(c) && Schedule(c, BOOT, run)
    ensures var log := After(c, BOOT, run).log;
      var admission := AcquireStep(c, After(c, BOOT, run).breaker, now).1;
      && (TrailingFailures(log) >= c.failureThreshold ==> LastOpening(c, log).At?)
      && (admission == Admitted(false) <==> TrailingFailures(log) < c.failureThreshold)
      && (admission == Rejected <==>
            && TrailingFailures(log) >= c.failureThreshold
            && if PeriodBegun(log) then SlotsTaken(log) >= c.halfOpenMaxCalls
               else now - LastOpening(c, log).time < c.recoveryTimeout)
  {
    hide TrailingFailures, PeriodBegun, SlotsTaken, LastOpening;
    HistoryFromBoot(c, run);
  }
}
