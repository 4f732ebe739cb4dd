/**
 One GitHub request: classification of failures, the bounded retry loop for reads, and the barrier that
 keeps a write with an unknown outcome from being replayed until an operator has reconciled it.
 */
module GitHubClient {
  import opened Common
  import opened Backoff
  import opened Breakers

  datatype Method = Get | Head | Post | Patch | Put | Delete
  type WriteKey = (Method, string)

  predicate Idempotent(m: Method) {
    m.Get? || m.Head?
  }

  datatype Fault = ConnectError | ConnectTimeout | PoolTimeout | ReadTimeout | WriteTimeout | LostConnection

  datatype Reply =
    | Response(status: int, rateLimitEvidence: bool, retryAfter: Option<real>, wellFormed: bool)
    | TransportError(fault: Fault)
    | UnexpectedError
    | Cancelled(sent: bool)  // the caller is cancelled: after the send, or before it, while it still sleeps

  datatype Error =
    | AuthDenied
    | RateLimited(retryAfter: Option<real>)
    | DependencyTimeout
    | DependencyUnavailable(known: bool)  // false for an unexpected exception, which is not retried
    | InvalidDependencyResponse
    | AmbiguousWriteOutcome
    | DependencyCircuitOpen
    | CallerCancelled

  predicate Retryable(e: Error) {
    e.RateLimited? || e.DependencyTimeout? || (e.DependencyUnavailable? && e.known)
  }

  predicate CountsTowardCircuit(e: Error) {
    e.DependencyTimeout? || e.DependencyUnavailable? || e.AmbiguousWriteOutcome?
  }

  function ClassifyHttpError(status: int, rateLimitEvidence: bool, retryAfter: Option<real>): Error {
    if status == 401 then AuthDenied
    else if status == 403 then (if rateLimitEvidence then RateLimited(retryAfter) else AuthDenied)
    else if status == 429 then RateLimited(retryAfter)
    else if 500 <= status <= 599 then DependencyUnavailable(true)
    else InvalidDependencyResponse
  }

  predicate MayHaveBeenDelivered(f: Fault) {
    !(f.ConnectError? || f.ConnectTimeout? || f.PoolTimeout?)
  }

  function ClassifyTransportError(f: Fault, isWrite: bool): Error {
    if isWrite && MayHaveBeenDelivered(f) then AmbiguousWriteOutcome
    else if f.ConnectTimeout? || f.PoolTimeout? || f.ReadTimeout? || f.WriteTimeout? then DependencyTimeout
    else DependencyUnavailable(true)
  }

  /** What one reply means for the caller; an undecodable success body is an error after a success verdict. */
  function ErrorOf(m: Method, r: Reply): Option<Error> {
    match r
    case Response(status, evidence, retryAfter, wellFormed) =>
      if 300 <= status < 400 then Some(InvalidDependencyResponse)
      else if 200 <= status < 300 then (if wellFormed then None else Some(InvalidDependencyResponse))
      else Some(ClassifyHttpError(status, evidence, retryAfter))
    case TransportError(fault) => Some(ClassifyTransportError(fault, !Idempotent(m)))
    case UnexpectedError => Some(DependencyUnavailable(false))
    case Cancelled(_) => Some(CallerCancelled)
  }

  function SendOf(r: Reply): seq<Effect> {
    if r == Cancelled(false) then [] else [Sent]
  }

  predicate Accepted(r: Reply) {
    r.Response? && 200 <= r.status < 300
  }

  datatype Effect = Acquired(probe: bool) | Sent | Verdict(success: bool) | Slept(delay: real) | Released

  /** The verdict an attempt hands to the circuit breaker, if any. */
  function VerdictOf(m: Method, r: Reply): seq<Effect> {
    if Accepted(r) then [Verdict(true)]
    else if r.UnexpectedError? || r.Cancelled? then []
    else if CountsTowardCircuit(ErrorOf(m, r).value) then [Verdict(false)] else []
  }

  predicate Retries(m: Method, p: RetryPolicy, r: Reply, attempt: nat) {
    !Accepted(r) && Idempotent(m) && Retryable(ErrorOf(m, r).value) && attempt < p.maxAttempts
  }

  function RetryAfterOf(m: Method, r: Reply): Option<real> {
    var e := ErrorOf(m, r);
    if e.Some? && e.value.RateLimited? then e.value.retryAfter else None
  }

  /** The request loop from attempt number `attempt` on: its result and its effects. */
  function AttemptsFrom(m: Method, p: RetryPolicy, replies: nat -> Reply, draws: nat -> real,
                        attempt: nat): (Option<Error>, seq<Effect>)
    decreases p.maxAttempts - attempt
  {
    var r := replies(attempt);
    var here := SendOf(r) + VerdictOf(m, r);
    if Retries(m, p, r, attempt) then
      var (result, rest) := AttemptsFrom(m, p, replies, draws, attempt + 1);
      (result, here + [Slept(DelayFor(p, attempt, RetryAfterOf(m, r), draws(attempt)))] + rest)
    else (ErrorOf(m, r), here)
  }

  lemma UnfoldAttempt(m: Method, p: RetryPolicy, replies: nat -> Reply, draws: nat -> real, attempt: nat)
    ensures var r, tail := replies(attempt), AttemptsFrom(m, p, replies, draws, attempt + 1);
      AttemptsFrom(m, p, replies, draws, attempt) ==
        if Retries(m, p, r, attempt) then
          var nap := [Slept(DelayFor(p, attempt, RetryAfterOf(m, r), draws(attempt)))];
          (tail.0, SendOf(r) + VerdictOf(m, r) + nap + tail.1)
        else (ErrorOf(m, r), SendOf(r) + VerdictOf(m, r))
  {
  }

  /** A whole request: its result, its effects, and the unreconciled writes after it. */
  function Request(unreconciled: set<WriteKey>, p: RetryPolicy, m: Method, path: string, admission: Admission,
                   replies: nat -> Reply, draws: nat -> real): (Option<Error>, seq<Effect>, set<WriteKey>)
  {
    if !Idempotent(m) && (m, path) in unreconciled then (Some(AmbiguousWriteOutcome), [], unreconciled)
    else if admission.Rejected? then (Some(DependencyCircuitOpen), [], unreconciled)
    else
      var (result, effects) := AttemptsFrom(m, p, replies, draws, 1);
      (result, [Acquired(admission.probe)] + effects + (if admission.probe then [Released] else []),
       unreconciled + (if result == Some(AmbiguousWriteOutcome) then {(m, path)} else {}))
  }

  class Client {
    const policy: RetryPolicy
    var unreconciledWrites: set<WriteKey>

    constructor (policy: RetryPolicy)
      requires ValidPolicy(policy)
      ensures this.policy == policy && unreconciledWrites == {}
    {
      this.policy := policy;
      unreconciledWrites := {};
    }

    method Attempt(m: Method, path: string, replies: nat -> Reply, draws: nat -> real)
      returns (result: Option<Error>, effects: seq<Effect>)
      modifies this
      ensures (result, effects) == AttemptsFrom(m, policy, replies, draws, 1)
      ensures unreconciledWrites ==
        old(unreconciledWrites) + (if result == Some(AmbiguousWriteOutcome) then {(m, path)} else {})
    {
      hide AttemptsFrom;
      effects := [];
      var attempt := 0;
      while true
        invariant attempt == 0 || attempt < policy.maxAttempts
        invariant unreconciledWrites == old(unreconciledWrites)
        invariant AttemptsFrom(m, policy, replies, draws, 1).0 == AttemptsFrom(m, policy, replies, draws, attempt + 1).0
        invariant AttemptsFrom(m, policy, replies, draws, 1).1 ==
          effects + AttemptsFrom(m, policy, replies, draws, attempt + 1).1
        decreases policy.maxAttempts - attempt
      {
        attempt := attempt + 1;
        UnfoldAttempt(m, policy, replies, draws, attempt);
        var r := replies(attempt);
        var outcome, turn := Try(m, r);
        effects := effects + turn;
        if Retries(m, policy, r, attempt) {
          effects := effects + [Slept(DelayFor(policy, attempt, RetryAfterOf(m, r), draws(attempt)))];
          continue;
        }
        if outcome == Some(AmbiguousWriteOutcome) {
          unreconciledWrites := unreconciledWrites + {(m, path)};
        }
        return outcome, effects;
      }
    }

    /** One send, its classification and its verdict for the breaker. */
    method Try(m: Method, r: Reply) returns (outcome: Option<Error>, turn: seq<Effect>)
      ensures outcome == ErrorOf(m, r) && turn == SendOf(r) + VerdictOf(m, r)
    {
      turn := SendOf(r);
      match r
      case Response(status, evidence, retryAfter, wellFormed) =>
        if 300 <= status < 400 {
          outcome := Some(InvalidDependencyResponse);
        } else if 200 <= status < 300 {
          turn := turn + [Verdict(true)];
          outcome := if wellFormed then None else Some(InvalidDependencyResponse);
        } else {
          var error := ClassifyHttpError(status, evidence, retryAfter);
          if CountsTowardCircuit(error) {
            turn := turn + [Verdict(false)];
          }
          outcome := Some(error);
        }
      case TransportError(fault) =>
        var error := ClassifyTransportError(fault, !Idempotent(m));
        if CountsTowardCircuit(error) {
          turn := turn + [Verdict(false)];
        }
        outcome := Some(error);
      case UnexpectedError =>
        outcome := Some(DependencyUnavailable(false));
      case Cancelled(_) =>
        outcome := Some(CallerCancelled);
    }

    /** `admission` is the breaker's answer; the probe slot is handed back on every way out. */
    method Req(m: Method, path: string, admission: Admission, replies: nat -> Reply, draws: nat -> real)
      returns (result: Option<Error>, effects: seq<Effect>)
      modifies this
      ensures (result, effects, unreconciledWrites) ==
        Request(old(unreconciledWrites), policy, m, path, admission, replies, draws)
    {
      if !Idempotent(m) && (m, path) in unreconciledWrites {
        return Some(AmbiguousWriteOutcome), [];
      }
      if admission.Rejected? {
        return Some(DependencyCircuitOpen), [];
      }
      result, effects := Attempt(m, path, replies, draws);
      effects := [Acquired(admission.probe)] + effects + (if admission.probe then [Released] else []);
    }

    method AcknowledgeAmbiguousWrite(m: Method, path: string) returns (lifted: bool)
      modifies this
      ensures lifted <==> (m, path) in old(unreconciledWrites)
      ensures unreconciledWrites == old(unreconciledWrites) - {(m, path)}
    {
      lifted := (m, path) in unreconciledWrites;
      unreconciledWrites := unreconciledWrites - {(m, path)};
    }
  }

  // ---- What one request can do ----

  ghost function Sends(effects: seq<Effect>): nat {
    if effects == [] then 0 else Sends(effects[..|effects|-1]) + (if effects[|effects|-1].Sent? then 1 else 0)
  }

  ghost function Verdicts(effects: seq<Effect>): nat {
    if effects == [] then 0 else Verdicts(effects[..|effects|-1]) + (if effects[|effects|-1].Verdict? then 1 else 0)
  }

  ghost function TotalSleep(effects: seq<Effect>): real {
    if effects == [] then 0.0
    else TotalSleep(effects[..|effects|-1]) + (if effects[|effects|-1].Slept? then effects[|effects|-1].delay else 0.0)
  }

  lemma {:induction false} MeasuresAdd(a: seq<Effect>, b: seq<Effect>)
    ensures Sends(a + b) == Sends(a) + Sends(b)
    ensures Verdicts(a + b) == Verdicts(a) + Verdicts(b)
    ensures TotalSleep(a + b) == TotalSleep(a) + TotalSleep(b)
  {
    if b == [] {
      assert a + b == a;
    } else {
      assert (a + b)[..|a + b|-1] == a + b[..|b|-1];
      MeasuresAdd(a, b[..|b|-1]);
    }
  }

  /** Sends, verdicts and sleeping time of one turn of the loop. */
  lemma TurnMeasures(m: Method, r: Reply, tail: seq<Effect>)
    requires tail == [] || (|tail| == 1 && tail[0].Slept?)
    ensures var turn := SendOf(r) + VerdictOf(m, r) + tail;
      && Sends(turn) == |SendOf(r)| <= 1 && Verdicts(turn) == |VerdictOf(m, r)| <= |SendOf(r)|
      && TotalSleep(turn) == if tail == [] then 0.0 else tail[0].delay
  {
    var here := SendOf(r) + VerdictOf(m, r);
    MeasuresAdd(SendOf(r), VerdictOf(m, r));
    MeasuresAdd(here, tail);
    assert forall e: Effect :: [e][..0] == [];
  }

  /** Ordinary 4xx replies never reach the breaker. */
  lemma ClientErrorsGiveNoVerdict(m: Method, r: Reply)
    requires r.Response? && 400 <= r.status <= 499
    ensures VerdictOf(m, r) == []
  {
  }

  ghost predicate UnitDraws(draws: nat -> real) {
    forall i :: 0.0 <= draws(i) <= 1.0
  }

  /** One unfolding of the loop, measured. */
  lemma LoopMeasures(m: Method, p: RetryPolicy, replies: nat -> Reply, draws: nat -> real, attempt: nat)
    ensures var r, effects := replies(attempt), AttemptsFrom(m, p, replies, draws, attempt).1;
      if Retries(m, p, r, attempt) then
        var rest := AttemptsFrom(m, p, replies, draws, attempt + 1).1;
        && Sends(effects) == |SendOf(r)| + Sends(rest) && Verdicts(effects) <= |SendOf(r)| + Verdicts(rest)
        && TotalSleep(effects) == DelayFor(p, attempt, RetryAfterOf(m, r), draws(attempt)) + TotalSleep(rest)
      else
        Sends(effects) == |SendOf(r)| <= 1 && Verdicts(effects) <= |SendOf(r)| && TotalSleep(effects) == 0.0
  {
    hide Sends, Verdicts, TotalSleep, DelayFor;
    var r := replies(attempt);
    var here := SendOf(r) + VerdictOf(m, r);
    if Retries(m, p, r, attempt) {
      var nap := [Slept(DelayFor(p, attempt, RetryAfterOf(m, r), draws(attempt)))];
      TurnMeasures(m, r, nap);
      MeasuresAdd(here + nap, AttemptsFrom(m, p, replies, draws, attempt + 1).1);
    } else {
      TurnMeasures(m, r, []);
      assert here + [] == here;
    }
  }

  /** A loop entered at `attempt` sends at most the attempts that are left; a write sends once. */
  lemma {:induction false} LoopBounds(m: Method, p: RetryPolicy, replies: nat -> Reply, draws: nat -> real,
                                      attempt: nat)
    requires ValidPolicy(p) && 1 <= attempt <= p.maxAttempts && UnitDraws(draws)
    ensures var effects := AttemptsFrom(m, p, replies, draws, attempt).1;
      && |SendOf(replies(attempt))| <= Sends(effects) <= (if Idempotent(m) then p.maxAttempts - attempt + 1 else 1)
      && Verdicts(effects) <= Sends(effects)
      && 0.0 <= TotalSleep(effects) <= (p.maxAttempts - attempt) as real * p.maxDelay
    decreases p.maxAttempts - attempt
  {
    hide Sends, Verdicts, TotalSleep, DelayFor, AttemptsFrom;
    var r := replies(attempt);
    LoopMeasures(m, p, replies, draws, attempt);
    NonNegative((p.maxAttempts - attempt) as real, p.maxDelay);
    if Retries(m, p, r, attempt) {
      DelayBounds(p, attempt, RetryAfterOf(m, r), draws(attempt));
      LoopBounds(m, p, replies, draws, attempt + 1);
      assert (p.maxAttempts - attempt) as real * p.maxDelay ==
        p.maxDelay + (p.maxAttempts - attempt - 1) as real * p.maxDelay;
    }
  }

  /** Without a Retry-After the sleeping time is bounded by the geometric series of the base delay. */
  lemma {:induction false} GeometricSleep(m: Method, p: RetryPolicy, replies: nat -> Reply, draws: nat -> real,
                                          attempt: nat)
    requires ValidPolicy(p) && 1 <= attempt <= p.maxAttempts && UnitDraws(draws)
    requires forall i :: RetryAfterOf(m, replies(i)) == None
    ensures TotalSleep(AttemptsFrom(m, p, replies, draws, attempt).1) <=
      p.baseDelay * (Pow2(p.maxAttempts - 1) - Pow2(attempt - 1))
    decreases p.maxAttempts - attempt
  {
    hide Sends, Verdicts, TotalSleep, DelayFor, AttemptsFrom;
    LoopMeasures(m, p, replies, draws, attempt);
    Pow2Monotone(attempt - 1, p.maxAttempts - 1);
    NonNegative(p.baseDelay, Pow2(p.maxAttempts - 1) - Pow2(attempt - 1));
    if Retries(m, p, replies(attempt), attempt) {
      assert RetryAfterOf(m, replies(attempt)) == None;
      DelayBounds(p, attempt, None, draws(attempt));
      GeometricSleep(m, p, replies, draws, attempt + 1);
      Telescope(p.baseDelay, Pow2(attempt - 1), Pow2(attempt), Pow2(p.maxAttempts - 1));
    }
  }

  lemma Telescope(b: real, x: real, y: real, z: real)
    requires y == 2.0 * x
    ensures b * (z - x) == b * x + b * (z - y)
  {
  }

  lemma {:induction false} Pow2Monotone(a: nat, b: nat)
    requires a <= b
    ensures Pow2(a) <= Pow2(b)
    decreases b - a
  {
    if a < b {
      Pow2Monotone(a, b - 1);
    }
  }

  /** Only the last attempt can be ambiguous, and only for a write: a read never raises the barrier. */
  lemma {:induction false} ReadsAreNeverAmbiguous(m: Method, p: RetryPolicy, replies: nat -> Reply, draws: nat -> real,
                                                  attempt: nat)
    requires Idempotent(m)
    ensures AttemptsFrom(m, p, replies, draws, attempt).0 != Some(AmbiguousWriteOutcome)
    decreases p.maxAttempts - attempt
  {
    if Retries(m, p, replies(attempt), attempt) {
      ReadsAreNeverAmbiguous(m, p, replies, draws, attempt + 1);
    }
  }

  // ---- The same in literal terms: statuses, faults and methods ----

  /** Everything but GET and HEAD changes the remote state. */
  predicate Writes(m: Method) {
    m != Get && m != Head
  }

  /** The request may have reached the server although no reply came back. */
  predicate LostInTransit(r: Reply) {
    r.TransportError? && r.fault in {ReadTimeout, WriteTimeout, LostConnection}
  }

  /** The request of a write may have taken effect although no reply came back. */
  predicate OutcomeUnknown(r: Reply) {
    LostInTransit(r) || r.UnexpectedError? || r == Cancelled(true)
  }

  /**
   A write raises the barrier exactly when its single request failed in transport and may have been delivered.
   Of the unknown outcomes, the barrier misses exactly the unexpected exceptions and the cancelled calls.
   */
  lemma AmbiguousIff(m: Method, p: RetryPolicy, replies: nat -> Reply, draws: nat -> real)
    requires Writes(m)
    ensures var raised := AttemptsFrom(m, p, replies, draws, 1).0 == Some(AmbiguousWriteOutcome);
      && (raised <==> LostInTransit(replies(1)))
      && (OutcomeUnknown(replies(1)) && !raised <==> replies(1).UnexpectedError? || replies(1) == Cancelled(true))
  {
  }

  /** What each kind of reply means for the caller. */
  lemma ErrorsByReply(m: Method, r: Reply)
    ensures r.Response? ==>
      && (r.status == 401 ==> ErrorOf(m, r) == Some(AuthDenied))
      && (r.status == 403 ==>
            ErrorOf(m, r) == Some(if r.rateLimitEvidence then RateLimited(r.retryAfter) else AuthDenied))
      && (r.status == 429 ==> ErrorOf(m, r) == Some(RateLimited(r.retryAfter)))
      && (500 <= r.status <= 599 ==> ErrorOf(m, r) == Some(DependencyUnavailable(true)))
      && (200 <= r.status <= 299 ==> ErrorOf(m, r) == if r.wellFormed then None else Some(InvalidDependencyResponse))
      && (r.status !in {401, 403, 429} && !(500 <= r.status <= 599) && !(200 <= r.status <= 299) ==>
            ErrorOf(m, r) == Some(InvalidDependencyResponse))
    ensures Writes(m) && LostInTransit(r) ==> ErrorOf(m, r) == Some(AmbiguousWriteOutcome)
    ensures r.TransportError? && !(Writes(m) && LostInTransit(r)) ==>
      ErrorOf(m, r) ==
        Some(if r.fault in {ConnectTimeout, PoolTimeout, ReadTimeout, WriteTimeout} then DependencyTimeout
                            else DependencyUnavailable(true))
    ensures r.UnexpectedError? ==> ErrorOf(m, r) == Some(DependencyUnavailable(false))
    ensures r.Cancelled? ==> ErrorOf(m, r) == Some(CallerCancelled)
  {
  }

  /** The breaker hears of a success for a 2xx, of a failure for a 5xx or a transport fault, and of nothing else. */
  lemma VerdictsByReply(m: Method, r: Reply)
    ensures VerdictOf(m, r) == [Verdict(true)] <==> r.Response? && 200 <= r.status <= 299
    ensures VerdictOf(m, r) == [Verdict(false)] <==> (r.Response? && 500 <= r.status <= 599) || r.TransportError?
    ensures |VerdictOf(m, r)| <= 1
  {
    ErrorsByReply(m, r);
  }

  /** A reply after which a read is worth another attempt. */
  predicate Transient(r: Reply) {
    || r.TransportError?
    || (r.Response? && (r.status == 429 || (r.status == 403 && r.rateLimitEvidence) || 500 <= r.status <= 599))
  }

  /** The waiting time that the server supplies with a reply, if any. */
  function ServerValue(r: Reply): Option<real> {
    if r.Response? && (r.status == 429 || (r.status == 403 && r.rateLimitEvidence)) then r.retryAfter else None
  }

  lemma RetriesByReply(m: Method, p: RetryPolicy, r: Reply, attempt: nat)
    ensures Retries(m, p, r, attempt) <==> !Writes(m) && Transient(r) && attempt < p.maxAttempts
    ensures Retries(m, p, r, attempt) ==> RetryAfterOf(m, r) == ServerValue(r)
  {
    hide ErrorOf;
    ErrorsByReply(m, r);
  }

  /** Attempt `i` of a read is transient and not the last one allowed. */
  predicate Passes(m: Method, p: RetryPolicy, replies: nat -> Reply, i: nat) {
    !Writes(m) && Transient(replies(i)) && i < p.maxAttempts
  }

  /** `last` is the attempt that decides: all before it are transient, and it is not, or no attempt is left. */
  ghost predicate Decides(m: Method, p: RetryPolicy, replies: nat -> Reply, attempt: nat, last: nat) {
    && attempt <= last
    && (forall i: nat :: attempt <= i < last ==> Passes(m, p, replies, i))
    && (Writes(m) || !Transient(replies(last)) || last >= p.maxAttempts)
  }

  lemma DecidesLater(m: Method, p: RetryPolicy, replies: nat -> Reply, attempt: nat, last: nat)
    requires Decides(m, p, replies, attempt, last) && attempt < last
    ensures !Writes(m) && Transient(replies(attempt)) && attempt < p.maxAttempts
    ensures Decides(m, p, replies, attempt + 1, last)
  {
    assert Passes(m, p, replies, attempt);
  }

  ghost function Delays(p: RetryPolicy, replies: nat -> Reply, draws: nat -> real, attempt: nat, last: nat): real
    decreases last - attempt
  {
    if attempt >= last then 0.0
    else
      DelayFor(p, attempt, ServerValue(replies(attempt)), draws(attempt)) + Delays(p, replies, draws, attempt + 1, last)
  }

  /**
   Exactly what the loop does: it sends once for every attempt up to the deciding one (which is not sent if the
   caller is cancelled before), sleeps the delay of every attempt before that, and ends with its error.
   */
  lemma {:induction false} LoopIsExact(m: Method, p: RetryPolicy, replies: nat -> Reply, draws: nat -> real,
                                       attempt: nat, last: nat)
    requires Decides(m, p, replies, attempt, last)
    ensures var (result, effects) := AttemptsFrom(m, p, replies, draws, attempt);
      && result == ErrorOf(m, replies(last))
      && Sends(effects) == last - attempt + (if replies(last) == Cancelled(false) then 0 else 1)
      && TotalSleep(effects) == Delays(p, replies, draws, attempt, last)
    decreases last - attempt
  {
    hide Sends, Verdicts, TotalSleep, DelayFor, AttemptsFrom, ErrorOf, RetryAfterOf, Retries;
    LoopMeasures(m, p, replies, draws, attempt);
    UnfoldAttempt(m, p, replies, draws, attempt);
    RetriesByReply(m, p, replies(attempt), attempt);
    if attempt < last {
      DecidesLater(m, p, replies, attempt, last);
      LoopIsExact(m, p, replies, draws, attempt + 1, last);
    }
  }

  /** Every loop has a deciding attempt. */
  lemma {:induction false} SomeAttemptDecides(m: Method, p: RetryPolicy, replies: nat -> Reply, attempt: nat)
    returns (last: nat)
    ensures Decides(m, p, replies, attempt, last)
    decreases p.maxAttempts - attempt
  {
    if !Writes(m) && Transient(replies(attempt)) && attempt < p.maxAttempts {
      last := SomeAttemptDecides(m, p, replies, attempt + 1);
    } else {
      last := attempt;
    }
  }

  lemma {:induction false} LoopTouchesNoSlot(m: Method, p: RetryPolicy, replies: nat -> Reply, draws: nat -> real,
                                             attempt: nat)
    ensures forall e :: e in AttemptsFrom(m, p, replies, draws, attempt).1 ==> !e.Acquired? && !e.Released?
    decreases p.maxAttempts - attempt
  {
    hide DelayFor;
    if Retries(m, p, replies(attempt), attempt) {
      LoopTouchesNoSlot(m, p, replies, draws, attempt + 1);
    }
  }

  /**
   What a request guarantees: nothing happens exactly behind the barrier or an open circuit, and then nothing
   changes; a write is sent at most once, a read at most `maxAttempts` times; the barrier gets exactly the write that
   was lost in transit; and a probe slot is taken first and handed back last.
   */
  lemma RequestGuarantees(unreconciled: set<WriteKey>, p: RetryPolicy, m: Method, path: string, admission: Admission,
                          replies: nat -> Reply, draws: nat -> real)
    requires ValidPolicy(p) && UnitDraws(draws)
    ensures var (result, effects, unreconciled') := Request(unreconciled, p, m, path, admission, replies, draws);
      var blocked := Writes(m) && (m, path) in unreconciled;
      && (effects == [] <==> blocked || admission.Rejected?)
      && (blocked ==> result == Some(AmbiguousWriteOutcome))
      && (!blocked && admission.Rejected? ==> result == Some(DependencyCircuitOpen))
      && Sends(effects) <= (if Writes(m) then 1 else p.maxAttempts) && Verdicts(effects) <= Sends(effects)
      && unreconciled' == unreconciled +
           (if effects != [] && Writes(m) && LostInTransit(replies(1)) then {(m, path)} else {})
      && (effects != [] ==>
            && effects[0] == Acquired(admission.probe)
            && (Released in effects <==> admission.probe)
            && (admission.probe ==> effects[|effects|-1] == Released && Released !in effects[..|effects|-1])
            && (result == Some(AmbiguousWriteOutcome) ==> Sends(effects) == 1))
  {
    hide AttemptsFrom, Sends, Verdicts, TotalSleep, ErrorOf, LostInTransit;
    var (result, effects) := AttemptsFrom(m, p, replies, draws, 1);
    LoopBounds(m, p, replies, draws, 1);
    LoopTouchesNoSlot(m, p, replies, draws, 1);
    var probe := admission == Admitted(true);
    Bracketed(probe, effects);
    NoEffects();
    if Writes(m) {
      AmbiguousIff(m, p, replies, draws);
      LostMeansSent(replies(1));
    } else {
      ReadsAreNeverAmbiguous(m, p, replies, draws, 1);
    }
    assert [Acquired(probe)] + effects + [Released] == ([Acquired(probe)] + effects) + [Released];
  }

  lemma LostMeansSent(r: Reply)
    ensures LostInTransit(r) ==> SendOf(r) == [Sent]
  {
  }

  lemma NoEffects()
    ensures Sends([]) == 0 && Verdicts([]) == 0
  {
  }

  /** Taking and releasing the probe slot sends nothing and gives no verdict. */
  lemma Bracketed(probe: bool, effects: seq<Effect>)
    ensures var all := [Acquired(probe)] + effects + (if probe then [Released] else []);
      Sends(all) == Sends(effects) && Verdicts(all) == Verdicts(effects)
  {
    hide TotalSleep;
    MeasuresAdd([Acquired(probe)], effects);
    MeasuresAdd([Acquired(probe)] + effects, if probe then [Released] else []);
    assert forall e: Effect :: [e][..0] == [];
  }
}
