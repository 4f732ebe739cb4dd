/**
 The barrier against replaying ambiguous writes, over any interleaving of requests on one client: the
 barrier is consulted when a request starts, and raised later, when its outcome turns out to be unknown.
 */
module WriteBarrier {
  import opened Common
  import opened Backoff
  import Breakers
  import opened GitHubClient

  type CallId = nat

  datatype Event =
    | Started(id: CallId, key: WriteKey)
    | Blocked(id: CallId, key: WriteKey)
    | Sent(id: CallId, key: WriteKey)
    | Ambiguous(id: CallId, key: WriteKey)
    | Acknowledged(key: WriteKey)

  /**
   `active` maps the requests that passed the barrier to their keys; ids are never reused; `sent` are the requests
   that have sent.
   */
  datatype System = System(unreconciled: set<WriteKey>, active: map<CallId, WriteKey>, used: set<CallId>,
                           sent: set<CallId>, log: seq<Event>)

  datatype Action =
    | Start(id: CallId, key: WriteKey)
    | Send(id: CallId)
    | LoseReply(id: CallId)
    | Finish(id: CallId)
    | Acknowledge(key: WriteKey)

  const BOOT := System({}, map[], {}, {}, [])

  predicate Enabled(s: System, a: Action) {
    match a
    case Start(id, key) => id !in s.used && !Idempotent(key.0)
    case Send(id) => id in s.active && id !in s.sent
    case LoseReply(id) => id in s.active && id in s.sent
    case Finish(id) => id in s.active
    case Acknowledge(_) => true
  }

  function Step(s: System, a: Action): System
    requires Enabled(s, a)
  {
    match a
    case Start(id, key) =>
      if key in s.unreconciled then s.(used := s.used + {id}, log := s.log + [Blocked(id, key)])
      else s.(active := s.active[id := key], used := s.used + {id}, log := s.log + [Started(id, key)])
    case Send(id) => s.(sent := s.sent + {id}, log := s.log + [Event.Sent(id, s.active[id])])
    case LoseReply(id) =>
      s.(unreconciled := s.unreconciled + {s.active[id]}, log := s.log + [Ambiguous(id, s.active[id])])
    case Finish(id) => s.(active := s.active - {id})
    case Acknowledge(key) => s.(unreconciled := s.unreconciled - {key}, log := s.log + [Acknowledged(key)])
  }

  ghost predicate Schedule(s: System, run: seq<Action>)
    decreases |run|
  {
    run == [] || (Enabled(s, run[0]) && Schedule(Step(s, run[0]), run[1..]))
  }

  ghost function After(s: System, run: seq<Action>): System
    requires Schedule(s, run)
    decreases |run|
  {
    if run == [] then s else After(Step(s, run[0]), run[1..])
  }

  /** No ambiguous outcome of `key` in the log is still waiting for an acknowledgement. */
  ghost predicate Clear(log: seq<Event>, key: WriteKey) {
    forall i :: 0 <= i < |log| && log[i].Ambiguous? && log[i].key == key ==>
      exists j :: i < j < |log| && log[j] == Acknowledged(key)
  }

  /** The request passed the barrier at a moment when its key was clear. */
  ghost predicate StartedClear(log: seq<Event>, id: CallId, key: WriteKey) {
    exists k :: 0 <= k < |log| && log[k] == Started(id, key) && Clear(log[..k], key)
  }

  ghost predicate Inv(s: System) {
    && (forall key :: key in s.unreconciled <==> !Clear(s.log, key))
    && s.active.Keys <= s.used
    && (forall id :: id in s.active ==> StartedClear(s.log, id, s.active[id]))
    && (forall i :: 0 <= i < |s.log| && s.log[i].Sent? ==> StartedClear(s.log[..i], s.log[i].id, s.log[i].key))
  }

  lemma ClearAppend(log: seq<Event>, e: Event, key: WriteKey)
    ensures Clear(log + [e], key) <==>
      e == Acknowledged(key) || (Clear(log, key) && !(e.Ambiguous? && e.key == key))
  {
    var log' := log + [e];
    if e == Acknowledged(key) {
      assert log'[|log|] == Acknowledged(key);
    } else if Clear(log', key) {
      assert log'[|log|] == e;
      forall i | 0 <= i < |log| && log[i].Ambiguous? && log[i].key == key
        ensures exists j :: i < j < |log| && log[j] == Acknowledged(key)
      {
        assert log'[i] == log[i];
        var j :| i < j < |log'| && log'[j] == Acknowledged(key);
        assert log[j] == Acknowledged(key);
      }
    } else if Clear(log, key) && !(e.Ambiguous? && e.key == key) {
      forall i | 0 <= i < |log'| && log'[i].Ambiguous? && log'[i].key == key
        ensures exists j :: i < j < |log'| && log'[j] == Acknowledged(key)
      {
        var j :| i < j < |log| && log[j] == Acknowledged(key);
        assert log'[j] == log[j];
      }
    }
  }

  lemma StartedClearAppend(log: seq<Event>, e: Event, id: CallId, key: WriteKey)
    requires StartedClear(log, id, key)
    ensures StartedClear(log + [e], id, key)
  {
    var k :| 0 <= k < |log| && log[k] == Started(id, key) && Clear(log[..k], key);
    assert (log + [e])[k] == log[k] && (log + [e])[..k] == log[..k];
  }

  lemma LogStep(s: System, a: Action, e: Event)
    requires Enabled(s, a) && Inv(s) && Step(s, a).log == s.log + [e]
    ensures Inv(Step(s, a))
  {
    hide Clear, StartedClear;
    var s' := Step(s, a);
    assert s'.log[|s.log|] == e;
    forall key ensures key in s'.unreconciled <==> !Clear(s'.log, key) {
      ClearAppend(s.log, e, key);
    }
    forall id | id in s'.active ensures StartedClear(s'.log, id, s'.active[id]) {
      if id in s.active {
        StartedClearAppend(s.log, e, id, s.active[id]);
      } else {
        assert a == Start(id, s'.active[id]) && e == Started(id, s'.active[id]);
        StartIsClear(s.log, id, s'.active[id]);
      }
    }
    forall i | 0 <= i < |s'.log| && s'.log[i].Sent? ensures StartedClear(s'.log[..i], s'.log[i].id, s'.log[i].key) {
      assert s'.log[..i] == s.log[..i];
      assert s.log[..|s.log|] == s.log;
    }
  }

  lemma StartIsClear(log: seq<Event>, id: CallId, key: WriteKey)
    requires Clear(log, key)
    ensures StartedClear(log + [Started(id, key)], id, key)
  {
    assert (log + [Started(id, key)])[..|log|] == log;
  }

  lemma StepKeepsInv(s: System, a: Action)
    requires Enabled(s, a) && Inv(s)
    ensures Inv(Step(s, a))
  {
    if Step(s, a).log != s.log {
      LogStep(s, a, Step(s, a).log[|s.log|]);
    }
  }

  lemma {:induction false} InvAlways(s: System, run: seq<Action>)
    requires Inv(s) && Schedule(s, run)
    ensures Inv(After(s, run))
    decreases |run|
  {
    if run != [] {
      StepKeepsInv(s, run[0]);
      InvAlways(Step(s, run[0]), run[1..]);
    }
  }

  /**
   In every interleaving, whatever a write sends, the request had started at a moment when every earlier
   ambiguous outcome of the same target had been acknowledged.
   */
  lemma NoReplayBeforeAcknowledgement(run: seq<Action>, i: nat)
    requires Schedule(BOOT, run) && i < |After(BOOT, run).log| && After(BOOT, run).log[i].Sent?
    ensures var log := After(BOOT, run).log; var key := log[i].key;
      exists k :: 0 <= k < i && log[k] == Started(log[i].id, key)
        && forall a :: 0 <= a < k && log[a].Ambiguous? && log[a].key == key ==>
             exists j :: a < j < k && log[j] == Acknowledged(key)
  {
    InvAlways(BOOT, run);
    var log := After(BOOT, run).log;
    var key := log[i].key;
    var k :| 0 <= k < |log[..i]| && log[..i][k] == Started(log[i].id, key) && Clear(log[..i][..k], key);
    assert log[..i][..k] == log[..k];
    forall a | 0 <= a < k && log[a].Ambiguous? && log[a].key == key
      ensures exists j :: a < j < k && log[j] == Acknowledged(key)
    {
      assert log[..k][a] == log[a];
      var j :| a < j < |log[..k]| && log[..k][j] == Acknowledged(key);
      assert log[j] == Acknowledged(key);
    }
  }

  // ---- A write sends at most once ----

  ghost predicate SentOnce(s: System) {
    && (forall i :: 0 <= i < |s.log| && s.log[i].Sent? ==> s.log[i].id in s.sent)
    && (forall i, j :: 0 <= i < j < |s.log| && s.log[i].Sent? && s.log[j].Sent? ==> s.log[i].id != s.log[j].id)
  }

  lemma {:induction false} SentOnceAlways(s: System, run: seq<Action>)
    requires SentOnce(s) && Schedule(s, run)
    ensures SentOnce(After(s, run))
    decreases |run|
  {
    if run != [] {
      SentOnceAlways(Step(s, run[0]), run[1..]);
    }
  }

  /** Over whole schedules, however they interleave, no write request sends a second time. */
  lemma WritesSendOnce(run: seq<Action>, i: nat, j: nat)
    requires Schedule(BOOT, run) && i < j < |After(BOOT, run).log|
    ensures After(BOOT, run).log[i].Sent? && After(BOOT, run).log[j].Sent? ==>
      After(BOOT, run).log[i].id != After(BOOT, run).log[j].id
  {
    SentOnceAlways(BOOT, run);
  }

  // ---- The client follows this machine ----

  function When(condition: bool, a: Action): seq<Action> {
    if condition then [a] else []
  }

  /** What a write request does, as steps of the machine. */
  function ActionsOf(id: CallId, key: WriteKey, blocked: bool, result: Option<Error>,
                     effects: seq<Effect>): seq<Action> {
    if blocked then [Start(id, key)] else Passed(id, key, Effect.Sent in effects, result == Some(AmbiguousWriteOutcome))
  }

  /** The steps of a request that passes the barrier. */
  function Passed(id: CallId, key: WriteKey, sends: bool, loses: bool): seq<Action> {
    [Start(id, key)] + (When(sends, Send(id)) + (When(loses, LoseReply(id)) + [Action.Finish(id)]))
  }

  lemma Prepend(s: System, condition: bool, a: Action, rest: seq<Action>)
    requires condition ==> Enabled(s, a) && Schedule(Step(s, a), rest)
    requires !condition ==> Schedule(s, rest)
    ensures Schedule(s, When(condition, a) + rest)
    ensures After(s, When(condition, a) + rest) == if condition then After(Step(s, a), rest) else After(s, rest)
  {
    if condition {
      assert (When(condition, a) + rest)[1..] == rest;
    } else {
      assert When(condition, a) + rest == rest;
    }
  }

  lemma PassedIsSchedule(s: System, id: CallId, key: WriteKey, sends: bool, loses: bool)
    requires id !in s.used && id !in s.active && id !in s.sent && !Idempotent(key.0) && key !in s.unreconciled
    requires loses ==> sends
    ensures var run := Passed(id, key, sends, loses);
      && Schedule(s, run) && After(s, run).active == s.active
      && After(s, run).unreconciled == s.unreconciled + (if loses then {key} else {})
      && After(s, run).sent == s.sent + (if sends then {id} else {})
  {
    var s1 := Step(s, Start(id, key));
    var s2 := if sends then Step(s1, Send(id)) else s1;
    var s3 := if loses then Step(s2, LoseReply(id)) else s2;
    var end := [Action.Finish(id)];
    Prepend(s3, true, Action.Finish(id), []);
    assert When(true, Action.Finish(id)) + [] == end;
    Prepend(s2, loses, LoseReply(id), end);
    Prepend(s1, sends, Send(id), When(loses, LoseReply(id)) + end);
    Prepend(s, true, Start(id, key), When(sends, Send(id)) + (When(loses, LoseReply(id)) + end));
    assert s.active[id := key] - {id} == s.active;
  }

  /** A machine state and a client that agree on the barrier still agree after any write request of the client. */
  lemma RequestIsSchedule(s: System, id: CallId, p: RetryPolicy, m: Method, path: string, admission: Breakers.Admission,
                          replies: nat -> Reply, draws: nat -> real)
    requires ValidPolicy(p) && UnitDraws(draws) && !Idempotent(m)
    requires id !in s.used && id !in s.active && id !in s.sent
    ensures var (result, effects, unreconciled') := Request(s.unreconciled, p, m, path, admission, replies, draws);
      var run := ActionsOf(id, (m, path), (m, path) in s.unreconciled, result, effects);
      && Schedule(s, run) && After(s, run).unreconciled == unreconciled' && After(s, run).active == s.active
      && After(s, run).sent == s.sent + (if Sends(effects) == 1 then {id} else {}) && Sends(effects) <= 1
  {
    hide AttemptsFrom, Sends, Passed;
    RequestGuarantees(s.unreconciled, p, m, path, admission, replies, draws);
    var (result, effects, unreconciled') := Request(s.unreconciled, p, m, path, admission, replies, draws);
    SentMeansSends(effects);
    if (m, path) in s.unreconciled {
      Prepend(s, true, Start(id, (m, path)), []);
      assert When(true, Start(id, (m, path))) + [] == [Start(id, (m, path))];
      NoEffects();
    } else {
      PassedIsSchedule(s, id, (m, path), Effect.Sent in effects, result == Some(AmbiguousWriteOutcome));
    }
  }

  lemma {:induction false} SentMeansSends(effects: seq<Effect>)
    ensures Effect.Sent in effects <==> Sends(effects) > 0
  {
    if effects != [] {
      assert effects == effects[..|effects|-1] + [effects[|effects|-1]];
      SentMeansSends(effects[..|effects|-1]);
    }
  }

  predicate Concerns(a: Action, id: CallId) {
    match a
    case Start(i, _) => i == id
    case Send(i) => i == id
    case LoseReply(i) => i == id
    case Finish(i) => i == id
    case Acknowledge(_) => false
  }

  /** Steps of other requests, and acknowledgements, never disable the next step of a request. */
  lemma OthersDoNotInterfere(s: System, a: Action, other: Action, id: CallId)
    requires Enabled(s, a) && Enabled(s, other) && Concerns(a, id) && !Concerns(other, id)
    ensures Enabled(Step(s, other), a)
  {
  }
}
