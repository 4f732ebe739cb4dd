/**
 The life of one incident run, driven by arbitrary model answers and arbitrary comments. Every method
 extends a trace of effects; the authority and idempotency claims are about whole traces, so they hold in
 the default audit mode too, where the transition table does not stop anything.
 */
module Lifecycle {
  import opened Common
  import opened Policy

  datatype RunState =
    | Open | Triage | Investigating | Diagnosed | Planning | Executing | Verifying
    | WaitingApproval | WaitingDecision | WaitingInput
    | Resolved | Failed | Aborted | PlanRca | PlanRcaResolved

  function ValidTransitions(s: RunState): set<RunState> {
    match s
    case Open => {Triage}
    case Triage => {Investigating, Failed, Aborted}
    case Investigating => {Diagnosed, WaitingInput, Failed, Aborted}
    case Diagnosed => {Planning, WaitingInput, Failed, Aborted}
    case Planning => {Executing, WaitingApproval, WaitingDecision, WaitingInput, Failed, Aborted}
    case Executing => {Verifying, WaitingDecision, Failed, Aborted}
    case Verifying => {Resolved, Failed, Aborted}
    case WaitingApproval => {Planning, Executing, Aborted}
    case WaitingDecision => {Planning, Executing, Investigating, Aborted}
    case WaitingInput => {Diagnosed, Investigating, Aborted}
    case Resolved => {PlanRca, PlanRcaResolved}
    case Failed => {WaitingApproval, WaitingDecision, WaitingInput, Investigating, Aborted}
    case Aborted => {}
    case PlanRca => {PlanRcaResolved, Aborted}
    case PlanRcaResolved => {}
  }

  predicate Terminal(s: RunState) {
    s in {Failed, Aborted, PlanRcaResolved}
  }

  datatype Enforcement = Audit | Strict | Disabled

  /** None is the exception of strict mode. */
  function Transition(e: Enforcement, from: RunState, to: RunState): Option<RunState> {
    if e == Strict && to !in ValidTransitions(from) then None else Some(to)
  }

  datatype Config = Config(
    engine: Engine,
    enforcement: Enforcement,
    verificationThreshold: real,
    rootCauseThreshold: real,
    minInput: string,
    minApproval: string,
    minAbort: string,
    rcaEnabled: bool)

  function Rank(permission: string, default: int): int {
    if permission == "none" then 0
    else if permission == "read" then 1
    else if permission == "triage" then 2
    else if permission == "write" then 3
    else if permission == "maintain" then 4
    else if permission == "admin" then 5
    else default
  }

  predicate Permitted(permission: string, level: string) {
    Rank(permission, 0) >= Rank(level, 99)
  }

  /** The permissions of the collaboration platform, from the weakest to the strongest. */
  const LADDER := ["none", "read", "triage", "write", "maintain", "admin"]

  /** The level stands at `j` on the ladder and the permission at `i` or above; an unknown one stands at the foot. */
  predicate Reaches(permission: string, level: string, i: nat, j: nat) {
    j <= i < |LADDER| && LADDER[j] == level && (LADDER[i] == permission || (i == 0 && permission !in LADDER))
  }

  /** The permission is at least the level; nothing reaches a level that is not on the ladder. */
  ghost predicate Meets(permission: string, level: string) {
    exists i: nat, j: nat :: Reaches(permission, level, i, j)
  }

  lemma RankIs(i: nat, default: int)
    requires i < |LADDER|
    ensures Rank(LADDER[i], default) == i
  {
    assert i == 0 || i == 1 || i == 2 || i == 3 || i == 4 || i == 5;
  }

  lemma UnknownRank(permission: string, default: int)
    requires permission !in LADDER
    ensures Rank(permission, default) == default
  {
    assert LADDER[0] in LADDER && LADDER[1] in LADDER && LADDER[2] in LADDER;
    assert LADDER[3] in LADDER && LADDER[4] in LADDER && LADDER[5] in LADDER;
  }

  /** The rank comparison is the comparison of positions on the ladder. */
  lemma PermittedIff(permission: string, level: string)
    ensures Permitted(permission, level) <==> Meets(permission, level)
  {
    hide Rank;
    var i: nat := 0;
    if permission in LADDER {
      i :| i < |LADDER| && LADDER[i] == permission;
      RankIs(i, 0);
    } else {
      UnknownRank(permission, 0);
    }
    if level in LADDER {
      var j: nat :| j < |LADDER| && LADDER[j] == level;
      RankIs(j, 99);
      assert j <= i ==> Reaches(permission, level, i, j);
    } else {
      UnknownRank(level, 99);
    }
    if Meets(permission, level) {
      var k: nat, j: nat :| Reaches(permission, level, k, j);
      RankIs(j, 99);
      RankIs(k, 0);
    }
  }

  // ---- Model answers and effects ----

  datatype RootCause = RootCause(uncertain: bool, confidence: real)
  datatype ExecutionResult = ExecutionResult(optionId: string, success: bool, ambiguous: bool)
  datatype ExecutionAnswer = Returned(result: ExecutionResult) | WriteAmbiguous
  datatype VerificationResult = VerificationResult(verified: bool, confidence: real, abort: bool)

  /** Everything the outside world decides during one call: model answers, budget preflights, RCA timing. */
  datatype Answers = Answers(
    rootCause: RootCause,
    plan: RecoveryPlan,
    execution: ExecutionAnswer,
    verification: VerificationResult,
    diagnosisBudget: bool,
    planBudget: bool,
    executeBudget: bool,
    verifyBudget: bool,
    rcaInTime: bool,
    rcaOverrun: bool)

  datatype Effect =
    | Admitted(comment: Option<string>, delivery: Option<string>)  // a comment passed the idempotency gate
    | CommandConfirmed(id: string)
    | Approved(permission: string, argument: string)
    | Asked                                                        // any other OpenClaw request
    | Planned(plan: RecoveryPlan)
    | Executed(option: RemediationOption)
    | Finished(result: ExecutionResult)
    | Verified(result: ExecutionResult, verdict: VerificationResult)
    | Closed

  datatype CommandOutcome = Received | InProgress | Confirmed | Absent | Unknown

  datatype Command = Approve(argument: string) | Provide(argument: string) | Reject | Investigate | Abort | Resume

  datatype Comment = Comment(
    actor: string,
    text: string,
    permission: string,
    command: Option<Command>,   // None is free text
    id: Option<string>,
    delivery: Option<string>)

  datatype HumanInput = HumanInput(actor: string, text: string, provided: bool)

  datatype Phase = PreExecution | PostExecution | OtherPhase
  datatype Checkpoint = NoCheckpoint | HumanGate | AtExecution(phase: Phase) | StateTransition | OtherCheckpoint

  // ---- What a trace must satisfy ----

  ghost function CurrentPlan(t: seq<Effect>): Option<RecoveryPlan> {
    if t == [] then None
    else if t[|t|-1].Planned? then Some(t[|t|-1].plan) else CurrentPlan(t[..|t|-1])
  }

  ghost function LastExecution(t: seq<Effect>): Option<ExecutionResult> {
    if t == [] then None
    else if t[|t|-1].Finished? then Some(t[|t|-1].result) else LastExecution(t[..|t|-1])
  }

  function FindOption(options: seq<RemediationOption>, id: string): Option<RemediationOption> {
    if options == [] then None else if options[0].id == id then Some(options[0]) else FindOption(options[1..], id)
  }

  predicate Denied(c: Config, o: RemediationOption) {
    Action(c.engine, EffectiveRisk(c.engine, o.description, o.risk)) == "DENY"
  }

  predicate Passes(c: Config, v: VerificationResult) {
    v.verified && v.confidence >= c.verificationThreshold
  }

  /** The run just got a plan that is classified AUTO and whose only option is `o`. */
  ghost predicate AutoAuthorised(c: Config, past: seq<Effect>, o: RemediationOption) {
    past != [] && past[|past|-1].Planned? && ClassifyPlan(c.engine, past[|past|-1].plan) == Auto
    && past[|past|-1].plan.options == [o]
  }

  /** Someone of sufficient rank just approved `o` of the current plan, and its effective risk is not denied. */
  ghost predicate HumanAuthorised(c: Config, past: seq<Effect>, o: RemediationOption) {
    past != [] && past[|past|-1].Approved? && Permitted(past[|past|-1].permission, c.minApproval)
    && CurrentPlan(past).Some? && FindOption(CurrentPlan(past).value.options, past[|past|-1].argument) == Some(o)
    && !Denied(c, o)
  }

  /** The issue may be closed: the last effect is a passing verification of the run's current execution. */
  ghost predicate ClosureJustified(c: Config, past: seq<Effect>) {
    past != [] && past[|past|-1].Verified? && Passes(c, past[|past|-1].verdict)
    && LastExecution(past) == Some(past[|past|-1].result)
  }

  ghost predicate FirstUse(past: seq<Effect>, comment: Option<string>, delivery: Option<string>) {
    && (comment.Some? ==> CommandConfirmed(comment.value) !in past)
    && (delivery.Some? ==> forall i :: 0 <= i < |past| && past[i].Admitted? ==> past[i].delivery != delivery)
  }

  /** When an effect may follow a trace. */
  ghost predicate Allowed(c: Config, past: seq<Effect>, e: Effect) {
    match e
    case Executed(o) => AutoAuthorised(c, past, o) || HumanAuthorised(c, past, o)
    case Finished(_) => past != [] && past[|past|-1].Executed?
    case Closed => ClosureJustified(c, past)
    case Admitted(comment, delivery) => FirstUse(past, comment, delivery)
    case _ => true
  }

  ghost predicate Safe(c: Config, t: seq<Effect>) {
    forall i :: 0 <= i < |t| ==> Allowed(c, t[..i], t[i])
  }

  lemma SafeAppend(c: Config, t: seq<Effect>, e: Effect)
    ensures Safe(c, t + [e]) <==> Safe(c, t) && Allowed(c, t, e)
  {
    hide Allowed;
    var t' := t + [e];
    assert t'[..|t|] == t && t'[|t|] == e;
    assert forall i :: 0 <= i < |t| ==> t'[..i] == t[..i] && t'[i] == t[i];
    if Safe(c, t') {
      forall i | 0 <= i < |t| ensures Allowed(c, t[..i], t[i]) {
        assert Allowed(c, t'[..i], t'[i]);
      }
    }
  }

  // ---- What a call that runs to its end does: final state and new effects ----

  function ResolveResult(c: Config, a: Answers): (RunState, seq<Effect>) {
    if !c.rcaEnabled then (Resolved, [Closed])
    else if !a.rcaInTime then (Aborted, [Closed])
    else (if a.rcaOverrun then Aborted else PlanRcaResolved, [Closed, Asked])
  }

  function VerifyResult(c: Config, r: ExecutionResult, a: Answers): (RunState, seq<Effect>) {
    var verified := Verified(r, a.verification);
    if !a.verifyBudget then (WaitingDecision, [])
    else if !Passes(c, a.verification) then (if a.verification.abort then Aborted else Failed, [verified])
    else (ResolveResult(c, a).0, [verified] + ResolveResult(c, a).1)
  }

  function ExecuteResult(c: Config, o: RemediationOption, a: Answers): (RunState, seq<Effect>) {
    if !a.executeBudget then (WaitingDecision, [])
    else match a.execution
      case WriteAmbiguous => (WaitingDecision, [Executed(o)])
      case Returned(r) =>
        if r.ambiguous then (WaitingDecision, [Executed(o), Finished(r)])
        else if !r.success then (Failed, [Executed(o), Finished(r)])
        else (VerifyResult(c, r, a).0, [Executed(o), Finished(r)] + VerifyResult(c, r, a).1)
  }

  function PlanResult(c: Config, a: Answers): (RunState, seq<Effect>) {
    if !a.planBudget then (WaitingDecision, [])
    else
      (FollowResult(c, a).0, [Asked, Planned(a.plan)] + FollowResult(c, a).1)
  }

  /** What becomes of a plan that has just been recorded. */
  function FollowResult(c: Config, a: Answers): (RunState, seq<Effect>) {
    match ClassifyPlan(c.engine, a.plan)
    case Auto => ExecuteResult(c, a.plan.options[0], a)
    case Approval => (WaitingApproval, [])
    case Decision => (WaitingDecision, [])
    case Input => (WaitingInput, [])
    case Deny => (Failed, [])
  }

  /** The specialist calls of the wave loop count as one request. */
  function InvestigateResult(c: Config, a: Answers): (RunState, seq<Effect>) {
    if !a.diagnosisBudget then (WaitingDecision, [Asked])
    else if a.rootCause.uncertain || a.rootCause.confidence < c.rootCauseThreshold then (WaitingInput, [Asked, Asked])
    else (PlanResult(c, a).0, [Asked, Asked] + PlanResult(c, a).1)
  }

  function RequiredLevel(c: Config, command: Command): string {
    match command
    case Provide(_) | Investigate | Resume => c.minInput
    case Approve(_) | Reject => c.minApproval
    case Abort => c.minAbort
  }

  /** The actor is high enough on the ladder for the command. */
  ghost predicate MayCommand(c: Config, permission: string, command: Command) {
    match command
    case Abort => Meets(permission, c.minAbort)
    case Provide(_) => Meets(permission, c.minInput)
    case Investigate => Meets(permission, c.minInput)
    case Resume => Meets(permission, c.minInput)
    case Approve(_) => Meets(permission, c.minApproval)
    case Reject => Meets(permission, c.minApproval)
  }

  lemma MayCommandIff(c: Config, permission: string, command: Command)
    ensures Permitted(permission, RequiredLevel(c, command)) <==> MayCommand(c, permission, command)
  {
    hide Permitted, Meets;
    PermittedIff(permission, RequiredLevel(c, command));
  }

  /** What a command sees of the run. */
  datatype View = View(state: RunState, plan: Option<RecoveryPlan>, execution: Option<ExecutionResult>) {
    predicate Succeeded() { execution.Some? && execution.value.success }
  }

  /** The option an approval executes; None when the approval is an error. */
  function ApprovedOption(c: Config, plan: Option<RecoveryPlan>, id: string): Option<RemediationOption> {
    if plan.None? then None
    else
      var o := FindOption(plan.value.options, id);
      if o.Some? && Denied(c, o.value) then None else o
  }

  /** The first state a command moves to, if it moves at all. */
  function FirstMove(v: View, command: Command, checkpoint: Checkpoint): Option<RunState> {
    match command
    case Abort => Some(Aborted)
    case Reject => Some(WaitingDecision)
    case Provide(_) | Investigate => Some(Investigating)
    case Approve(_) => Some(Executing)
    case Resume =>
      if checkpoint.HumanGate? || checkpoint == AtExecution(PreExecution) then None
      else if checkpoint.StateTransition? && v.state == Investigating then Some(Investigating)
      else if checkpoint.StateTransition? && v.state == Planning then Some(Planning)
      else if
        || (checkpoint == AtExecution(PostExecution) && v.Succeeded())
        || (checkpoint.StateTransition? && v.state == Executing && v.execution.Some?)
        || (v.state == Failed && v.Succeeded())
      then Some(Verifying)
      else None
  }

  function ResumeResult(c: Config, v: View, checkpoint: Checkpoint, a: Answers): (RunState, seq<Effect>) {
    match FirstMove(v, Resume, checkpoint)
    case Some(Investigating) => InvestigateResult(c, a)
    case Some(Planning) => PlanResult(c, a)
    case Some(Verifying) => VerifyResult(c, v.execution.value, a)
    case _ => (v.state, [])
  }

  /** Strict enforcement refuses the command's first move. */
  predicate Blocked(c: Config, v: View, command: Command, checkpoint: Checkpoint) {
    var to := FirstMove(v, command, checkpoint);
    to.Some? && Transition(c.enforcement, v.state, to.value).None?
  }

  /** Final state and new effects of a command that runs to its end; None when it is refused. */
  function CommandResult(c: Config, v: View, permission: string, command: Command, checkpoint: Checkpoint, a: Answers)
    : Option<(RunState, seq<Effect>)>
  {
    if !Permitted(permission, RequiredLevel(c, command)) then None
    else match command
      case Abort => Some((Aborted, []))
      case Reject => Some((WaitingDecision, []))
      case Provide(_) => Some(InvestigateResult(c, a))
      case Investigate => Some((InvestigateResult(c, a).0, [Asked] + InvestigateResult(c, a).1))
      case Resume => Some(ResumeResult(c, v, checkpoint, a))
      case Approve(id) =>
        var o := ApprovedOption(c, v.plan, id);
        if o.None? then None
        else Some((ExecuteResult(c, o.value, a).0, [Approved(permission, id)] + ExecuteResult(c, o.value, a).1))
  }

  datatype StoredRecord = StoredRecord(state: RunState, carriedOut: set<string>, deliveries: set<string>)

  class Run {
    const config: Config
    var state: RunState
    var recoveryPlan: Option<RecoveryPlan>
    var execution: Option<ExecutionResult>
    var humanInputs: seq<HumanInput>
    var commandOutcomes: map<string, CommandOutcome>
    var executedCommands: set<string>
    var idempotencyKeys: set<string>
    var awaits: nat          // how many more awaits return before one of them raises
    var trace: seq<Effect>

    ghost predicate Valid()
      reads this`trace, this`recoveryPlan, this`execution, this`idempotencyKeys, this`commandOutcomes
    {
      && Safe(config, trace)
      && recoveryPlan == CurrentPlan(trace) && execution == LastExecution(trace)
      && (forall i :: 0 <= i < |trace| && trace[i].Admitted? && trace[i].delivery.Some? ==>
            trace[i].delivery.value in idempotencyKeys)
      && (forall id :: CommandConfirmed(id) in trace ==> id in commandOutcomes && commandOutcomes[id] == Confirmed)
    }

    constructor (config: Config, delivery: Option<string>, awaits: nat)
      ensures Valid() && this.config == config && state == Open && trace == []
      ensures this.awaits == awaits && forall id :: !AlreadyConfirmed(id)
      ensures forall d :: d in idempotencyKeys <==> delivery == Some(d)
    {
      this.config := config;
      state, recoveryPlan, execution, humanInputs, trace := Open, None, None, [], [];
      commandOutcomes, executedCommands := map[], {};
      idempotencyKeys := if delivery.Some? then {delivery.value} else {};
      this.awaits := awaits;
    }

    /** A record that an older version stored before it had a plan. */
    constructor Stored(config: Config, record: StoredRecord)
      ensures Valid() && this.config == config && state == record.state && trace == []
      ensures forall id :: AlreadyConfirmed(id) <==> id in record.carriedOut
      ensures idempotencyKeys == record.deliveries
    {
      this.config := config;
      state, recoveryPlan, execution, humanInputs, trace := record.state, None, None, [], [];
      commandOutcomes, executedCommands := map[], record.carriedOut;
      idempotencyKeys := record.deliveries;
      awaits := 0;
    }

    lemma Recorded()
      requires Valid()
      ensures recoveryPlan == CurrentPlan(trace) && execution == LastExecution(trace)
    {
    }

    lemma TraceIsSafe()
      requires Valid()
      ensures Safe(config, trace)
    {
    }

    /** An effect that changes neither the plan nor the execution of the run. */
    method Emit(e: Effect)
      requires Valid() && Allowed(config, trace, e) && !e.Planned? && !e.Finished?
      requires e.Admitted? && e.delivery.Some? ==> e.delivery.value in idempotencyKeys
      requires e.CommandConfirmed? ==> e.id in commandOutcomes && commandOutcomes[e.id] == Confirmed
      modifies this`trace
      ensures Valid() && trace == old(trace) + [e]
    {
      hide Safe, Allowed;
      SafeAppend(config, trace, e);
      assert (trace + [e])[..|trace|] == trace;
      trace := trace + [e];
    }

    method RecordPlan(plan: RecoveryPlan)
      requires Valid()
      modifies this`trace, this`recoveryPlan
      ensures Valid() && trace == old(trace) + [Planned(plan)] && recoveryPlan == Some(plan)
    {
      hide Safe;
      SafeAppend(config, trace, Planned(plan));
      assert (trace + [Planned(plan)])[..|trace|] == trace;
      trace := trace + [Planned(plan)];
      recoveryPlan := Some(plan);
    }

    method RecordExecution(r: ExecutionResult)
      requires Valid() && trace != [] && trace[|trace|-1].Executed?
      modifies this`trace, this`execution
      ensures Valid() && trace == old(trace) + [Finished(r)] && execution == Some(r)
    {
      hide Safe;
      SafeAppend(config, trace, Finished(r));
      assert (trace + [Finished(r)])[..|trace|] == trace;
      trace := trace + [Finished(r)];
      execution := Some(r);
    }

    /** At least `n` awaits return, and no transition is refused. */
    predicate Unhindered(n: nat)
      reads this`awaits
    {
      config.enforcement != Strict && awaits >= n
    }

    /** Any await may raise; the run is then left as it is. */
    method Await() returns (raised: bool)
      modifies this`awaits
      ensures raised <==> old(awaits) == 0
      ensures awaits == if raised then 0 else old(awaits) - 1
    {
      if awaits == 0 {
        return true;
      }
      awaits := awaits - 1;
      raised := false;
    }

    method SetState(to: RunState) returns (raised: bool)
      modifies this`state, this`awaits
      ensures !raised ==> state == to
      ensures Transition(config.enforcement, old(state), to).None? ==> raised && state == old(state)
      ensures old(awaits) <= awaits + 1 && (old(Unhindered(1)) ==> !raised)
      ensures !raised ==> awaits + 1 == old(awaits)
    {
      var next := Transition(config.enforcement, state, to);
      if next.None? {
        return true;
      }
      state := next.value;
      raised := Await();
    }

    /** The budget preflight; when it fails, the run asks for a decision. */
    method Preflight(withinBudget: bool) returns (go: bool, raised: bool)
      modifies this`state, this`awaits
      ensures go <==> withinBudget
      ensures go ==> !raised && state == old(state)
      ensures !go && !raised ==> state == WaitingDecision
      ensures old(awaits) <= awaits + 2 && (old(Unhindered(2)) ==> !raised)
      ensures go ==> awaits == old(awaits)
    {
      if withinBudget {
        return true, false;
      }
      raised := SetState(WaitingDecision);
      if !raised {
        raised := Await();
      }
      go := false;
    }

    /** Moves to `to` and posts a comment. */
    method Settle(to: RunState) returns (raised: bool)
      modifies this`state, this`awaits
      ensures !raised ==> state == to
      ensures Transition(config.enforcement, old(state), to).None? ==> raised && state == old(state)
      ensures old(awaits) <= awaits + 2 && (old(Unhindered(2)) ==> !raised)
    {
      raised := SetState(to);
      if !raised {
        raised := Await();
      }
    }

    method Verify(a: Answers) returns (raised: bool)
      requires Valid() && execution.Some?
      modifies this`state, this`awaits, this`trace
      ensures Valid() && old(trace) <= trace
      ensures Transition(config.enforcement, old(state), Verifying).None? ==>
        raised && Now() == old(Now()) && trace == old(trace)
      ensures !raised ==> state == VerifyResult(config, execution.value, a).0
      ensures trace <= old(trace) + VerifyResult(config, execution.value, a).1
      ensures !raised ==> trace == old(trace) + VerifyResult(config, execution.value, a).1
      ensures old(awaits) <= awaits + 10 && (old(Unhindered(10)) ==> !raised)
    {
      hide Valid, Safe, AutoAuthorised, HumanAuthorised, LastExecution, CurrentPlan;
      raised := SetState(Verifying);
      if raised { return; }
      var go, r := Preflight(a.verifyBudget);
      if !go { return r; }
      raised := Await();
      if raised { return; }
      Emit(Verified(execution.value, a.verification));
      Recorded();
      raised := Await();
      if raised { return; }
      if !Passes(config, a.verification) {
        raised := Settle(if a.verification.abort then Aborted else Failed);
        return;
      }
      raised := Resolve(a);
    }

    method Resolve(a: Answers) returns (raised: bool)
      requires Valid() && ClosureJustified(config, trace)
      modifies this`state, this`awaits, this`trace
      ensures Valid() && old(trace) <= trace <= old(trace) + ResolveResult(config, a).1
      ensures !raised ==> state == ResolveResult(config, a).0
      ensures !raised ==> trace == old(trace) + ResolveResult(config, a).1
      ensures old(awaits) <= awaits + 7 && (old(Unhindered(7)) ==> !raised)
    {
      hide Valid, Safe, ClosureJustified;
      raised := Settle(Resolved);
      if raised { return; }
      Emit(Closed);
      raised := Await();
      if raised { return; }
      if config.rcaEnabled {
        raised := PlanRcaPhase(a);
      }
    }

    /** Root-cause report after the issue is closed; the clock may run out before or during the follow-ups. */
    method PlanRcaPhase(a: Answers) returns (raised: bool)
      requires Valid()
      modifies this`state, this`awaits, this`trace
      ensures Valid() && old(trace) <= trace
      ensures !raised ==> state == if !a.rcaInTime || a.rcaOverrun then Aborted else PlanRcaResolved
      ensures trace <= old(trace) + if a.rcaInTime then [Asked] else []
      ensures !raised ==> trace == old(trace) + if a.rcaInTime then [Asked] else []
      ensures old(awaits) <= awaits + 4 && (old(Unhindered(4)) ==> !raised)
    {
      hide Valid, Safe;
      raised := SetState(PlanRca);
      if raised { return; }
      if !a.rcaInTime {
        raised := SetState(Aborted);
        return;
      }
      Emit(Asked);
      raised := Await();
      if raised { return; }
      raised := SetState(PlanRcaResolved);
      if raised { return; }
      if a.rcaOverrun {
        raised := SetState(Aborted);
      }
    }

    method ExecuteOption(o: RemediationOption, a: Answers) returns (raised: bool)
      requires Valid() && Allowed(config, trace, Executed(o))
      modifies this`state, this`awaits, this`trace, this`execution
      ensures Valid() && old(trace) <= trace
      ensures Transition(config.enforcement, old(state), Executing).None? ==>
        raised && Now() == old(Now()) && trace == old(trace)
      ensures !raised ==> state == ExecuteResult(config, o, a).0
      ensures trace <= old(trace) + ExecuteResult(config, o, a).1
      ensures !raised ==> trace == old(trace) + ExecuteResult(config, o, a).1
      ensures old(awaits) <= awaits + 13 && (old(Unhindered(13)) ==> !raised)
      ensures old(Unhindered(1)) && old(awaits) == 1 && a.executeBudget ==>
        raised && trace == old(trace) + [Executed(o)] && Now() == old(Now()).(state := Executing)
    {
      hide Valid, Safe, ClosureJustified, AutoAuthorised, HumanAuthorised, Passes, VerifyResult;
      raised := SetState(Executing);
      if raised { return; }
      var go, r := Preflight(a.executeBudget);
      if !go { return r; }
      Emit(Executed(o));
      raised := Await();
      if raised { return; }
      if a.execution.WriteAmbiguous? {
        raised := Settle(WaitingDecision);
        return;
      }
      var result := a.execution.result;
      RecordExecution(result);
      raised := Await();
      if raised { return; }
      if result.ambiguous {
        raised := Settle(WaitingDecision);
        return;
      }
      if !result.success {
        raised := Settle(Failed);
        return;
      }
      raised := Verify(a);
    }

    method Plan(a: Answers) returns (raised: bool)
      requires Valid()
      modifies this`state, this`awaits, this`trace, this`execution, this`recoveryPlan
      ensures Valid() && old(trace) <= trace
      ensures Transition(config.enforcement, old(state), Planning).None? ==>
        raised && Now() == old(Now()) && trace == old(trace)
      ensures !raised ==> state == PlanResult(config, a).0
      ensures trace <= old(trace) + PlanResult(config, a).1
      ensures !raised ==> trace == old(trace) + PlanResult(config, a).1
      ensures old(awaits) <= awaits + 16 && (old(Unhindered(16)) ==> !raised)
    {
      hide Valid, Safe, ClosureJustified, AutoAuthorised, HumanAuthorised, FollowResult;
      raised := SetState(Planning);
      if raised { return; }
      var go, r := Preflight(a.planBudget);
      if !go { return r; }
      Emit(Asked);
      raised := Await();
      if raised { return; }
      RecordPlan(a.plan);
      raised := Await();
      if raised { return; }
      raised := Follow(a);
    }

    method Follow(a: Answers) returns (raised: bool)
      requires Valid() && trace != [] && trace[|trace|-1] == Planned(a.plan)
      modifies this`state, this`awaits, this`trace, this`execution
      ensures Valid() && old(trace) <= trace <= old(trace) + FollowResult(config, a).1
      ensures !raised ==> state == FollowResult(config, a).0 && trace == old(trace) + FollowResult(config, a).1
      ensures old(awaits) <= awaits + 13 && (old(Unhindered(13)) ==> !raised)
    {
      hide Valid, Safe, ClosureJustified, HumanAuthorised, ExecuteResult;
      match ClassifyPlan(config.engine, a.plan)
      case Auto => raised := ExecuteOption(a.plan.options[0], a);
      case Approval => raised := Settle(WaitingApproval);
      case Decision => raised := Settle(WaitingDecision);
      case Input => raised := Settle(WaitingInput);
      case Deny => raised := Settle(Failed);
    }

    method Investigation(a: Answers) returns (raised: bool)
      requires Valid()
      modifies this`state, this`awaits, this`trace, this`execution, this`recoveryPlan
      ensures Valid() && old(trace) <= trace
      ensures Transition(config.enforcement, old(state), Investigating).None? ==>
        raised && Now() == old(Now()) && trace == old(trace)
      ensures !raised ==> state == InvestigateResult(config, a).0
      ensures trace <= old(trace) + InvestigateResult(config, a).1
      ensures !raised ==> trace == old(trace) + InvestigateResult(config, a).1
      ensures old(awaits) <= awaits + 21 && (old(Unhindered(21)) ==> !raised)
    {
      hide Valid, Safe, PlanResult;
      raised := SetState(Investigating);
      if raised { return; }
      Emit(Asked);
      raised := Await();
      if raised { return; }
      var go, r := Preflight(a.diagnosisBudget);
      if !go { return r; }
      Emit(Asked);
      raised := Await();
      if raised { return; }
      raised := Settle(Diagnosed);
      if raised { return; }
      if a.rootCause.uncertain || a.rootCause.confidence < config.rootCauseThreshold {
        raised := Settle(WaitingInput);
        return;
      }
      raised := Plan(a);
    }

    /** Takes the run from its creation to its first waiting or final state. */
    method Start(a: Answers) returns (raised: bool)
      requires Valid()
      modifies this`state, this`awaits, this`trace, this`execution, this`recoveryPlan
      ensures Valid() && old(trace) <= trace <= old(trace) + InvestigateResult(config, a).1
      ensures !raised ==> state == InvestigateResult(config, a).0
      ensures !raised ==> trace == old(trace) + InvestigateResult(config, a).1
      ensures old(awaits) <= awaits + 22 && (old(Unhindered(22)) ==> !raised)
    {
      hide Valid, InvestigateResult;
      raised := SetState(Triage);
      if raised { return; }
      raised := Investigation(a);
    }

    // ---- Comments ----

    function Now(): View
      reads this`state, this`recoveryPlan, this`execution
    {
      View(state, recoveryPlan, execution)
    }

    /** The command of comment `id` has been carried out, as recorded in this or in the older field. */
    predicate AlreadyConfirmed(id: string)
      reads this`commandOutcomes, this`executedCommands
    {
      if id in commandOutcomes then commandOutcomes[id] == Confirmed else id in executedCommands
    }

    /** The comment never reaches a command body. */
    predicate Turned(k: Comment)
      reads this`state, this`commandOutcomes, this`executedCommands, this`idempotencyKeys
    {
      || (Terminal(state) && k.command != Some(Resume))
      || (k.id.Some? && AlreadyConfirmed(k.id.value))
      || (k.delivery.Some? && k.delivery.value in idempotencyKeys)
    }

    /** Exactly which comments are turned away: late ones, repeated ones, and those of a repeated delivery. */
    lemma TurnedIff(k: Comment)
      ensures Turned(k) <==>
        || ((state == Failed || state == Aborted || state == PlanRcaResolved) && k.command != Some(Resume))
        || (k.id.Some? && k.id.value in commandOutcomes && commandOutcomes[k.id.value] == Confirmed)
        || (k.id.Some? && k.id.value !in commandOutcomes && k.id.value in executedCommands)
        || (k.delivery.Some? && k.delivery.value in idempotencyKeys)
    {
    }

    /** Carries the commands recorded in the older field over to the outcome table. */
    method Migrate()
      requires Valid()
      modifies this`commandOutcomes
      ensures Valid()
      ensures forall id :: id in old(commandOutcomes) ==>
        id in commandOutcomes && commandOutcomes[id] == old(commandOutcomes)[id]
      ensures forall id :: id !in old(commandOutcomes) ==>
        if id in executedCommands then id in commandOutcomes && commandOutcomes[id] == Confirmed
          else id !in commandOutcomes
    {
      hide Safe, CurrentPlan, LastExecution;
      var todo := executedCommands;
      while todo != {}
        invariant todo <= executedCommands && Valid()
        invariant forall id :: id in old(commandOutcomes) ==>
          id in commandOutcomes && commandOutcomes[id] == old(commandOutcomes)[id]
        invariant forall id :: id !in old(commandOutcomes) ==>
          if id in executedCommands - todo then id in commandOutcomes && commandOutcomes[id] == Confirmed
            else id !in commandOutcomes
      {
        var id :| id in todo;
        if id !in commandOutcomes {
          commandOutcomes := commandOutcomes[id := Confirmed];
        }
        todo := todo - {id};
      }
    }

    /** Whether the comment was carried out before, or its delivery seen before. */
    method Repeated(k: Comment) returns (repeated: bool)
      requires Valid()
      modifies this`commandOutcomes
      ensures Valid()
      ensures repeated <==>
        (k.id.Some? && AlreadyConfirmed(k.id.value)) || (k.delivery.Some? && k.delivery.value in idempotencyKeys)
      ensures forall id :: AlreadyConfirmed(id) == old(AlreadyConfirmed(id))
      ensures forall id :: id in executedCommands ==> id in commandOutcomes
    {
      hide Valid;
      Migrate();
      repeated :=
        || (k.id.Some? && k.id.value in commandOutcomes && commandOutcomes[k.id.value] == Confirmed)
        || (k.delivery.Some? && k.delivery.value in idempotencyKeys);
    }

    /** Records the comment and its delivery before anything is done about it. */
    method Admit(k: Comment)
      requires Valid()
      requires k.id.Some? && k.id.value in commandOutcomes ==> commandOutcomes[k.id.value] != Confirmed
      requires k.delivery.Some? ==> k.delivery.value !in idempotencyKeys
      modifies this`commandOutcomes, this`idempotencyKeys, this`trace
      ensures Valid() && trace == old(trace) + [Admitted(k.id, k.delivery)]
      ensures commandOutcomes ==
        if k.id.Some? then old(commandOutcomes)[k.id.value := Received] else old(commandOutcomes)
      ensures idempotencyKeys ==
        if k.delivery.Some? then old(idempotencyKeys) + {k.delivery.value} else old(idempotencyKeys)
    {
      hide Safe, CurrentPlan, LastExecution;
      assert FirstUse(trace, k.id, k.delivery);
      if k.id.Some? {
        commandOutcomes := commandOutcomes[k.id.value := Received];
      }
      if k.delivery.Some? {
        idempotencyKeys := idempotencyKeys + {k.delivery.value};
      }
      Emit(Admitted(k.id, k.delivery));
    }

    method MarkInProgress(id: string)
      requires Valid() && id in commandOutcomes && commandOutcomes[id] != Confirmed
      modifies this`commandOutcomes
      ensures Valid() && commandOutcomes == old(commandOutcomes)[id := InProgress]
    {
      hide Safe, CurrentPlan, LastExecution;
      commandOutcomes := commandOutcomes[id := InProgress];
    }

    method MarkConfirmed(id: string)
      requires Valid()
      modifies this`commandOutcomes, this`executedCommands, this`trace
      ensures Valid() && trace == old(trace) + [CommandConfirmed(id)]
      ensures commandOutcomes == old(commandOutcomes)[id := Confirmed]
      ensures executedCommands == old(executedCommands) + {id}
    {
      hide Safe, CurrentPlan, LastExecution;
      commandOutcomes := commandOutcomes[id := Confirmed];
      executedCommands := executedCommands + {id};
      Emit(CommandConfirmed(id));
    }

    /** When the third await of an approval raises, it is the one that waits for the execution. */
    ghost predicate ExecutionCutShort(before: View, past: seq<Effect>, returning: nat, permission: string, id: string,
                                      a: Answers, raised: bool)
      reads this`state, this`recoveryPlan, this`execution, this`trace
    {
      var o := ApprovedOption(config, before.plan, id);
      Permitted(permission, config.minApproval) && o.Some? && a.executeBudget && returning == 3
        && config.enforcement != Strict ==>
        && raised && Now() == before.(state := Executing)
        && trace == past + [Approved(permission, id), Executed(o.value)]
    }

    method ApproveOption(permission: string, id: string, a: Answers) returns (raised: bool)
      requires Valid() && Permitted(permission, config.minApproval)
      modifies this`state, this`awaits, this`trace, this`execution
      ensures Valid()
      ensures var o := ApprovedOption(config, old(recoveryPlan), id);
        if o.None? then raised && trace == old(trace) && Now() == old(Now())
        else
          && old(trace) <= trace <= old(trace) + [Approved(permission, id)] + ExecuteResult(config, o.value, a).1
          && (!raised ==> state == ExecuteResult(config, o.value, a).0)
          && (!raised ==> trace == old(trace) + [Approved(permission, id)] + ExecuteResult(config, o.value, a).1)
      ensures Transition(config.enforcement, old(state), Executing).None? ==>
        raised && Now() == old(Now()) && forall i :: |old(trace)| <= i < |trace| ==> trace[i].Approved?
      ensures old(awaits) <= awaits + 15
      ensures old(Unhindered(15)) && ApprovedOption(config, old(recoveryPlan), id).Some? ==> !raised
      ensures ExecutionCutShort(old(Now()), old(trace), old(awaits), permission, id, a, raised)
    {
      hide Valid, Safe, Permitted, ExecuteResult, LastExecution, Denied, FindOption;
      if recoveryPlan.None? {
        return true;
      }
      var o := FindOption(recoveryPlan.value.options, id);
      if o.None? {
        return true;
      }
      raised := Await();
      if raised { return; }
      if Denied(config, o.value) {
        return true;
      }
      raised := Await();
      if raised { return; }
      Emit(Approved(permission, id));
      Recorded();
      raised := ExecuteOption(o.value, a);
    }

    method ResumeFrom(checkpoint: Checkpoint, a: Answers) returns (raised: bool)
      requires Valid()
      modifies this`state, this`awaits, this`trace, this`execution, this`recoveryPlan
      ensures Valid()
      ensures var r := ResumeResult(config, old(Now()), checkpoint, a);
        && old(trace) <= trace <= old(trace) + r.1
        && (!raised ==> state == r.0 && trace == old(trace) + r.1)
      ensures Blocked(config, old(Now()), Resume, checkpoint) ==> raised && Now() == old(Now()) && trace == old(trace)
      ensures old(awaits) <= awaits + 22 && (old(Unhindered(22)) ==> !raised)
    {
      hide Valid, InvestigateResult, PlanResult, VerifyResult;
      if checkpoint.HumanGate? {
        raised := Await();
        return;
      }
      if checkpoint.AtExecution? {
        if checkpoint.phase == PostExecution && execution.Some? && execution.value.success {
          raised := Verify(a);
          return;
        } else if checkpoint.phase == PreExecution {
          raised := Await();
          return;
        }
      }
      if checkpoint.StateTransition? {
        if state == Investigating {
          raised := Investigation(a);
          return;
        } else if state == Planning {
          raised := Plan(a);
          return;
        } else if state == Executing && execution.Some? {
          raised := Verify(a);
          return;
        }
      }
      if state == Failed && execution.Some? && execution.value.success {
        raised := Verify(a);
      } else {
        raised := Await();
      }
    }

    method Perform(k: Comment, command: Command, checkpoint: Checkpoint, a: Answers) returns (raised: bool)
      requires Valid() && Permitted(k.permission, RequiredLevel(config, command))
      modifies this`state, this`awaits, this`trace, this`execution, this`recoveryPlan, this`humanInputs
      ensures Valid()
      ensures var r := CommandResult(config, old(Now()), k.permission, command, checkpoint, a);
        if r.None? then raised && trace == old(trace) && Now() == old(Now())
        else
          && old(trace) <= trace <= old(trace) + r.value.1
          && (!raised ==> state == r.value.0 && trace == old(trace) + r.value.1)
      ensures Blocked(config, old(Now()), command, checkpoint) ==>
        raised && Now() == old(Now()) && forall i :: |old(trace)| <= i < |trace| ==>
          trace[i].Asked? || trace[i].Approved?
      ensures humanInputs == old(humanInputs) +
        match command case Provide(text) => [HumanInput(k.actor, text, true)] case _ => []
      ensures old(Unhindered(22)) && CommandResult(config, old(Now()), k.permission, command, checkpoint, a).Some? ==>
        !raised
      ensures command.Approve? ==>
        ExecutionCutShort(old(Now()), old(trace), old(awaits), k.permission, command.argument, a, raised)
    {
      hide Valid, InvestigateResult, ExecuteResult, ResumeResult, ApprovedOption, Permitted;
      match command
      case Abort => raised := Settle(Aborted);
      case Reject => raised := Settle(WaitingDecision);
      case Provide(text) =>
        humanInputs := humanInputs + [HumanInput(k.actor, text, true)];
        raised := Await();
        if raised { return; }
        raised := Investigation(a);
      case Investigate =>
        Emit(Asked);
        raised := Await();
        if raised { return; }
        raised := Investigation(a);
      case Approve(id) => raised := ApproveOption(k.permission, id, a);
      case Resume => raised := ResumeFrom(checkpoint, a);
    }

    /** Rank check, then the command between its two outcome marks; `resume` carries no marks. */
    method Obey(k: Comment, command: Command, checkpoint: Checkpoint, a: Answers) returns (raised: bool)
      requires Valid()
      requires k.id.Some? ==> k.id.value in commandOutcomes && commandOutcomes[k.id.value] == Received
      modifies this`state, this`awaits, this`trace, this`execution, this`recoveryPlan, this`humanInputs,
        this`commandOutcomes, this`executedCommands
      ensures Valid()
      ensures var r := CommandResult(config, old(Now()), k.permission, command, checkpoint, a);
        if r.None? then raised && Now() == old(Now()) && trace == old(trace)
        else
          var done := if k.id.Some? && command != Resume then [CommandConfirmed(k.id.value)] else [];
          && old(trace) <= trace <= old(trace) + r.value.1 + done
          && (!raised ==> state == r.value.0 && trace == old(trace) + r.value.1 + done)
      ensures Blocked(config, old(Now()), command, checkpoint) ==>
        raised && Now() == old(Now()) && forall i :: |old(trace)| <= i < |trace| ==>
          trace[i].Asked? || trace[i].Approved?
      ensures var outcome :=
          if command == Resume || !Permitted(k.permission, RequiredLevel(config, command)) then Received
          else if raised then InProgress else Confirmed;
        commandOutcomes == if k.id.Some? then old(commandOutcomes)[k.id.value := outcome] else old(commandOutcomes)
      ensures executedCommands == old(executedCommands) +
        if !raised && k.id.Some? && command != Resume then {k.id.value} else {}
      ensures old(Unhindered(22)) && CommandResult(config, old(Now()), k.permission, command, checkpoint, a).Some? ==>
        !raised
      ensures command.Approve? ==>
        ExecutionCutShort(old(Now()), old(trace), old(awaits), k.permission, command.argument, a, raised)
      ensures !MayCommand(config, k.permission, command) ==>
        raised && Now() == old(Now()) && trace == old(trace) && humanInputs == old(humanInputs)
      ensures MayCommand(config, k.permission, command) ==>
        humanInputs == old(humanInputs) +
          if command.Provide? then [HumanInput(k.actor, command.argument, true)] else []
    {
      hide Valid, Permitted, ResumeResult, ApprovedOption, InvestigateResult, ExecuteResult, MayCommand;
      MayCommandIff(config, k.permission, command);
      if !Permitted(k.permission, RequiredLevel(config, command)) {
        return true;
      }
      if k.id.Some? && command != Resume {
        MarkInProgress(k.id.value);
      }
      raised := Perform(k, command, checkpoint, a);
      if !raised && k.id.Some? && command != Resume {
        MarkConfirmed(k.id.value);
      }
    }

    lemma RefusedIff(k: Comment, checkpoint: Checkpoint, a: Answers)
      ensures k.command.Some? && !k.command.value.Approve? ==>
        (CommandResult(config, Now(), k.permission, k.command.value, checkpoint, a).None? <==>
         !MayCommand(config, k.permission, k.command.value))
    {
      hide Permitted, MayCommand, InvestigateResult, ResumeResult;
      if k.command.Some? {
        MayCommandIff(config, k.permission, k.command.value);
      }
    }

    /** One comment on the incident's issue, a command or free text. */
    method HandleComment(k: Comment, checkpoint: Checkpoint, a: Answers) returns (raised: bool)
      requires Valid()
      modifies this
      ensures Valid() && old(trace) <= trace
      ensures old(Turned(k)) ==> Now() == old(Now()) && trace == old(trace) && humanInputs == old(humanInputs)
      ensures !old(Turned(k)) && k.command.None? ==>
        && Now() == old(Now()) && trace == old(trace) + [Admitted(k.id, k.delivery)]
        && humanInputs == old(humanInputs) + [HumanInput(k.actor, k.text, false)]
      ensures !old(Turned(k)) && k.command.Some? ==>
        var r := CommandResult(config, old(Now()), k.permission, k.command.value, checkpoint, a);
        if r.None? then raised && Now() == old(Now()) && trace == old(trace) + [Admitted(k.id, k.delivery)]
        else
          var done := if k.id.Some? && k.command != Some(Resume) then [CommandConfirmed(k.id.value)] else [];
          && trace <= old(trace) + [Admitted(k.id, k.delivery)] + r.value.1 + done
          && (!raised ==> state == r.value.0 && trace == old(trace) + [Admitted(k.id, k.delivery)] + r.value.1 + done)
      ensures !old(Turned(k)) && k.command.Some? && Blocked(config, old(Now()), k.command.value, checkpoint) ==>
        raised && Now() == old(Now()) && forall i :: |old(trace)| < i < |trace| ==>
          trace[i].Asked? || trace[i].Approved?
      ensures !old(Turned(k)) && k.id.Some? ==>
        var ran := k.command.Some? && k.command != Some(Resume)
          && Permitted(k.permission, RequiredLevel(config, k.command.value));
        && k.id.value in commandOutcomes
        && commandOutcomes[k.id.value] == if !ran then Received else if raised then InProgress else Confirmed
      ensures forall id :: old(Turned(k)) || k.id != Some(id) ==> AlreadyConfirmed(id) == old(AlreadyConfirmed(id))
      ensures idempotencyKeys == old(idempotencyKeys) +
        if !old(Turned(k)) && k.delivery.Some? then {k.delivery.value} else {}
      ensures old(Unhindered(22)) && !old(Turned(k)) && raised ==>
        k.command.Some? && CommandResult(config, old(Now()), k.permission, k.command.value, checkpoint, a).None?
      ensures !old(Turned(k)) && k.command.Some? && k.command.value.Approve? ==>
        ExecutionCutShort(old(Now()), old(trace) + [Admitted(k.id, k.delivery)], old(awaits), k.permission,
                          k.command.value.argument, a, raised)
      ensures !old(Turned(k)) && k.command.Some? && !MayCommand(config, k.permission, k.command.value) ==>
        && raised && Now() == old(Now()) && trace == old(trace) + [Admitted(k.id, k.delivery)]
        && humanInputs == old(humanInputs)
      ensures old(Unhindered(22)) && !old(Turned(k)) && k.command.Some? && !k.command.value.Approve? ==>
        (raised <==> !MayCommand(config, k.permission, k.command.value))
      ensures !old(Turned(k)) && k.command.Some? && MayCommand(config, k.permission, k.command.value) ==>
        humanInputs == old(humanInputs) +
          if k.command.value.Provide? then [HumanInput(k.actor, k.command.value.argument, true)] else []
      ensures !old(Turned(k)) && k.id.Some? ==>
        (AlreadyConfirmed(k.id.value) <==>
         && k.command.Some? && k.command != Some(Resume) && !raised
         && MayCommand(config, k.permission, k.command.value))
    {
      hide Valid, CommandResult, Permitted, Rank, RequiredLevel, Blocked, ExecutionCutShort, ApprovedOption, MayCommand;
      RefusedIff(k, checkpoint, a);
      if k.command.Some? {
        MayCommandIff(config, k.permission, k.command.value);
      }
      if Terminal(state) && k.command != Some(Resume) {
        raised := Await();
        return;
      }
      var repeated := Repeated(k);
      if repeated {
        return false;
      }
      Admit(k);
      if k.command.None? {
        humanInputs := humanInputs + [HumanInput(k.actor, k.text, false)];
        raised := Await();
        return;
      }
      raised := Obey(k, k.command.value, checkpoint, a);
    }

    /** Startup recovery: a command caught between its marks may or may not have taken effect. */
    method Recover()
      requires Valid()
      modifies this`commandOutcomes
      ensures Valid() && commandOutcomes.Keys == old(commandOutcomes).Keys
      ensures forall id :: id in commandOutcomes ==>
        commandOutcomes[id] == if old(commandOutcomes)[id] == InProgress then Unknown else old(commandOutcomes)[id]
      ensures forall id :: AlreadyConfirmed(id) == old(AlreadyConfirmed(id))
    {
      hide Safe, CurrentPlan, LastExecution;
      var todo := commandOutcomes.Keys;
      while todo != {}
        invariant todo <= commandOutcomes.Keys == old(commandOutcomes).Keys && Valid()
        invariant forall id :: id in todo ==> commandOutcomes[id] == old(commandOutcomes)[id]
        invariant forall id :: id in commandOutcomes.Keys - todo ==>
          commandOutcomes[id] == if old(commandOutcomes)[id] == InProgress then Unknown else old(commandOutcomes)[id]
      {
        var id :| id in todo;
        if commandOutcomes[id] == InProgress {
          commandOutcomes := commandOutcomes[id := Unknown];
        }
        todo := todo - {id};
      }
    }
  }

  // ---- Whole lives ----

  /**
   A request to start the incident of an issue. `fetched` says whether the issue could be read, `labelled` whether
   it carries the required label or none is required.
   */
  method StartIssue(config: Config, existing: Run?, delivery: Option<string>, fetched: bool, labelled: bool,
                    awaits: nat, a: Answers)
    returns (run: Run?, raised: bool)
    ensures var kept := existing != null
        && ((delivery.Some? && delivery.value in existing.idempotencyKeys)
            || (existing.state != Failed && existing.state != Aborted));
      && (kept ==> run == existing && !raised)
      && (!kept && !(fetched && labelled) ==> run == existing && raised)
      && (!kept && fetched && labelled ==> run != null && fresh(run))
    ensures run != existing ==>
      && run != null && run.Valid() && run.config == config
      && run.trace <= InvestigateResult(config, a).1
      && (!raised ==> run.state == InvestigateResult(config, a).0 && run.trace == InvestigateResult(config, a).1)
      && (config.enforcement != Strict && awaits >= 22 ==> !raised)
      && (delivery.Some? ==> delivery.value in run.idempotencyKeys)
      && forall id :: !run.AlreadyConfirmed(id)
  {
    hide InvestigateResult, Run.Valid;
    if existing != null && KeepsExisting(existing, delivery) {
      return existing, false;
    }
    if !fetched || !labelled {
      return existing, true;
    }
    run := new Run(config, delivery, awaits);
    raised := run.Start(a);
  }

  /** A delivery that was seen before, or a run that has neither failed nor been aborted, is left as it is. */
  predicate KeepsExisting(run: Run, delivery: Option<string>)
    reads run
  {
    (delivery.Some? && delivery.value in run.idempotencyKeys) || run.state !in {Failed, Aborted}
  }

  datatype Event =
    | Started(delivery: Option<string>, fetched: bool, labelled: bool, answers: Answers)
    | Commented(comment: Comment, checkpoint: Checkpoint, answers: Answers)
    | Restarted

  /** A start that gets as far as making a run, if there is none. */
  predicate Creates(e: Event) {
    e.Started? && e.fetched && e.labelled
  }

  /**
   Any sequence of starts, comments and restarts of one issue, each of which may be cut short by an exception: every
   run that is ever created keeps a safe trace. There is no run until the first start that finds the issue and its
   label, unless an older version stored one; comments without a run are ignored.
   */
  method Live(config: Config, stored: Option<StoredRecord>, awaits: seq<nat>, events: seq<Event>)
    returns (runs: seq<Run>)
    requires |awaits| == |events|
    ensures forall i :: 0 <= i < |runs| ==> runs[i].Valid() && Safe(config, runs[i].trace)
    ensures runs == [] <==> stored.None? && forall n :: 0 <= n < |events| ==> !Creates(events[n])
    ensures stored.Some? ==> forall id :: id in stored.value.carriedOut ==> runs[0].AlreadyConfirmed(id)
  {
    hide Allowed, CurrentPlan, LastExecution, CommandResult, InvestigateResult, Permitted, Rank, Safe, Run.Valid;
    var run: Run? := null;
    runs := [];
    if stored.Some? {
      run := new Run.Stored(config, stored.value);
      runs := [run];
    }
    for n := 0 to |events|
      invariant runs == [] <==> stored.None? && forall m :: 0 <= m < n ==> !Creates(events[m])
      invariant if runs == [] then run == null else run == runs[|runs|-1]
      invariant forall i :: 0 <= i < |runs| ==> fresh(runs[i]) && runs[i].Valid() && runs[i].config == config
      invariant forall i, j :: 0 <= i < j < |runs| ==> runs[i] != runs[j]
      invariant stored.Some? ==> forall id :: id in stored.value.carriedOut ==> runs[0].AlreadyConfirmed(id)
    {
      match events[n] {
        case Started(delivery, fetched, labelled, a) =>
          var started, _ := StartIssue(config, run, delivery, fetched, labelled, awaits[n], a);
          if started != null && started != run {
            run := started;
            runs := runs + [run];
          }
        case Commented(k, checkpoint, a) =>
          if run != null {
            run.awaits := awaits[n];
            var _ := run.HandleComment(k, checkpoint, a);
          }
        case Restarted =>
          if run != null {
            run.Recover();
          }
      }
    }
    forall i | 0 <= i < |runs| ensures Safe(config, runs[i].trace) {
      runs[i].TraceIsSafe();
    }
  }

  // ---- What safety of the trace says ----

  /** `j` is where the plan in force at `i` was recorded. */
  ghost predicate PlannedAt(t: seq<Effect>, i: nat, j: nat) {
    j < i <= |t| && t[j].Planned? && forall k :: j < k < i ==> !t[k].Planned?
  }

  ghost predicate FinishedAt(t: seq<Effect>, i: nat, j: nat) {
    j < i <= |t| && t[j].Finished? && forall k :: j < k < i ==> !t[k].Finished?
  }

  lemma {:induction false} CurrentPlanMeaning(t: seq<Effect>, i: nat)
    requires i <= |t| && CurrentPlan(t[..i]).Some?
    ensures exists j: nat :: PlannedAt(t, i, j) && t[j].plan == CurrentPlan(t[..i]).value
  {
    if t[i-1].Planned? {
      assert PlannedAt(t, i, i - 1);
    } else {
      assert t[..i][..i-1] == t[..i-1];
      CurrentPlanMeaning(t, i - 1);
      var j: nat :| PlannedAt(t, i - 1, j) && t[j].plan == CurrentPlan(t[..i-1]).value;
      assert PlannedAt(t, i, j);
    }
  }

  lemma {:induction false} LastExecutionMeaning(t: seq<Effect>, i: nat)
    requires i <= |t| && LastExecution(t[..i]).Some?
    ensures exists j: nat :: FinishedAt(t, i, j) && t[j].result == LastExecution(t[..i]).value
  {
    if t[i-1].Finished? {
      assert FinishedAt(t, i, i - 1);
    } else {
      assert t[..i][..i-1] == t[..i-1];
      LastExecutionMeaning(t, i - 1);
      var j: nat :| FinishedAt(t, i - 1, j) && t[j].result == LastExecution(t[..i-1]).value;
      assert FinishedAt(t, i, j);
    }
  }

  lemma {:induction false} FoundIsListed(options: seq<RemediationOption>, id: string)
    ensures FindOption(options, id).Some? ==>
      FindOption(options, id).value in options && FindOption(options, id).value.id == id
  {
    if options != [] {
      FoundIsListed(options[1..], id);
    }
  }

  /** `j` is where the plan in force at the execution `t[i]` was recorded, and that execution is authorised. */
  ghost predicate AuthorisedBy(c: Config, t: seq<Effect>, i: nat, j: nat)
    requires i < |t| && t[i].Executed?
  {
    var option := t[i].option;
    var automatic :=
      && j == i - 1 && PlannedAt(t, i, j) && !t[j].plan.requiresBusinessInput && t[j].plan.options == [option]
      && option.risk in c.engine.actions && c.engine.actions[option.risk] == "AUTO";
    var approved :=
      i > 0 && t[i-1].Approved? && t[i-1].argument == option.id && Meets(t[i-1].permission, c.minApproval);
    PlannedAt(t, i, j) && option in t[j].plan.options && (automatic || (approved && !Denied(c, option)))
  }

  /**
   Authority: what is executed is an option of the plan in force, and either that plan was recorded
   immediately before, is classified AUTO and has no other option, or the immediately preceding effect is an
   approval naming the option, by someone of the required rank, and the policy does not deny it.
   */
  lemma ExecutionsAreAuthorised(c: Config, t: seq<Effect>, i: nat)
    requires Safe(c, t) && i < |t| && t[i].Executed?
    ensures exists j: nat :: AuthorisedBy(c, t, i, j)
  {
    hide ClassifyPlan, Permitted, Meets, Denied, CurrentPlan;
    assert Allowed(c, t[..i], t[i]);
    if AutoAuthorised(c, t[..i], t[i].option) {
      VerdictIff(c.engine, t[i-1].plan);
      assert AuthorisedBy(c, t, i, i - 1);
    } else {
      CurrentPlanMeaning(t, i);
      var j: nat :| PlannedAt(t, i, j) && t[j].plan == CurrentPlan(t[..i]).value;
      FoundIsListed(t[j].plan.options, t[i-1].argument);
      PermittedIff(t[i-1].permission, c.minApproval);
      assert AuthorisedBy(c, t, i, j);
    }
  }

  /** Closure: the effect just before is a verification, good enough, of the last result recorded. */
  lemma ClosuresAreVerified(c: Config, t: seq<Effect>, i: nat)
    requires Safe(c, t) && i < |t| && t[i].Closed?
    ensures i > 0 && t[i-1].Verified? && t[i-1].verdict.verified && t[i-1].verdict.confidence >= c.verificationThreshold
    ensures exists j: nat :: FinishedAt(t, i, j) && t[j].result == t[i-1].result
  {
    hide LastExecution;
    assert Allowed(c, t[..i], t[i]);
    LastExecutionMeaning(t, i);
  }

  /** `e` is the last execution before `i`. */
  ghost predicate LastExecutedAt(t: seq<Effect>, i: nat, e: nat) {
    e < i <= |t| && t[e].Executed? && forall k :: e < k < i ==> !t[k].Executed?
  }

  /** Some execution before `i` has not been followed by any result: it raised, or its write is ambiguous. */
  ghost predicate Unanswered(t: seq<Effect>, i: nat) {
    exists e: nat :: e < i <= |t| && t[e].Executed? && forall k :: e < k < i ==> !t[k].Finished?
  }

  /**
   Which execution is verified when the issue is closed: the one that returned the last result. That is the last
   execution of all exactly when none has been left without a result since.
   */
  lemma ClosureIsCurrentIff(c: Config, t: seq<Effect>, i: nat)
    requires Safe(c, t) && i < |t| && t[i].Closed?
    ensures exists j: nat :: FinishedAt(t, i, j) && j > 0 && t[j-1].Executed? && t[j].result == t[i-1].result
              && (LastExecutedAt(t, i, j - 1) <==> !Unanswered(t, i))
  {
    ClosuresAreVerified(c, t, i);
    var j: nat :| FinishedAt(t, i, j) && t[j].result == t[i-1].result;
    assert Allowed(c, t[..j], t[j]);
    assert t[..j][j-1] == t[j-1];
    if !LastExecutedAt(t, i, j - 1) {
      var k :| j - 1 < k < i && t[k].Executed?;
      assert forall m :: k < m < i ==> !t[m].Finished?;
      assert Unanswered(t, i);
    }
  }

  // ---- A closure on an older execution ----

  const CAREFUL := Config(Engine(PRODUCTION, None), Audit, 0.85, 0.8, "read", "maintain", "maintain", false)
  const FIRST_FIX := RemediationOption("1", "", RiskyWrite)
  const SECOND_FIX := RemediationOption("2", "", RiskyWrite)
  const TWO_FIXES := RecoveryPlan([FIRST_FIX, SECOND_FIX], false)
  const NO_FIX := RecoveryPlan([], false)
  const WORKED := ExecutionResult("1", true, false)
  const GOOD := VerificationResult(true, 0.9, false)
  const USUAL := Answers(RootCause(false, 0.9), NO_FIX, Returned(WORKED), GOOD, true, true, true, true, true, false)
  const TWO_WAYS := USUAL.(plan := TWO_FIXES)
  const LATE := USUAL.(verifyBudget := false)

  function FromAdmin(id: string, command: Command): Comment {
    Comment("admin", "", "admin", Some(command), Some(id), None)
  }

  lemma FixesAreAllowed()
    ensures ApprovedOption(CAREFUL, Some(TWO_FIXES), "1") == Some(FIRST_FIX)
    ensures ApprovedOption(CAREFUL, Some(TWO_FIXES), "2") == Some(SECOND_FIX)
  {
    assert TWO_FIXES.options[1..] == [SECOND_FIX];
    assert FindOption([SECOND_FIX], "2") == Some(SECOND_FIX);
  }

  lemma AdminMay(command: Command)
    ensures Permitted("admin", RequiredLevel(CAREFUL, command)) && Permitted("admin", CAREFUL.minApproval)
  {
  }

  lemma InvestigatesTo(plan: RecoveryPlan)
    requires plan == TWO_FIXES || plan == NO_FIX
    ensures InvestigateResult(CAREFUL, USUAL.(plan := plan))
         == (if plan == NO_FIX then Failed else WaitingDecision, [Asked, Asked, Asked, Planned(plan)])
  {
    assert PlanResult(CAREFUL, USUAL.(plan := plan)).1 == [Asked, Planned(plan)];
    assert [Asked, Asked] + [Asked, Planned(plan)] == [Asked, Asked, Asked, Planned(plan)];
  }

  lemma ProvideInvestigates(v: View, a: Answers)
    ensures CommandResult(CAREFUL, v, "admin", Provide(""), OtherCheckpoint, a) == Some(InvestigateResult(CAREFUL, a))
  {
    hide InvestigateResult;
    AdminMay(Provide(""));
  }

  lemma FirstFixStaysUnverified(v: View)
    requires v.plan == Some(TWO_FIXES)
    ensures CommandResult(CAREFUL, v, "admin", Approve("1"), OtherCheckpoint, LATE)
         == Some((WaitingDecision, [Approved("admin", "1"), Executed(FIRST_FIX), Finished(WORKED)]))
  {
    FixesAreAllowed();
    assert ExecuteResult(CAREFUL, FIRST_FIX, LATE).1 == [Executed(FIRST_FIX), Finished(WORKED)];
    assert [Approved("admin", "1")] + [Executed(FIRST_FIX), Finished(WORKED)]
        == [Approved("admin", "1"), Executed(FIRST_FIX), Finished(WORKED)];
  }

  lemma ResumeCloses(v: View)
    requires v.state == Failed && v.execution == Some(WORKED)
    ensures CommandResult(CAREFUL, v, "admin", Resume, OtherCheckpoint, USUAL)
         == Some((Resolved, [Verified(WORKED, GOOD), Closed]))
  {
    assert [Verified(WORKED, GOOD)] + [Closed] == [Verified(WORKED, GOOD), Closed];
  }

  lemma {:induction false} CurrentPlanIs(t: seq<Effect>, j: nat)
    requires PlannedAt(t, |t|, j)
    ensures CurrentPlan(t) == Some(t[j].plan)
  {
    if j < |t| - 1 {
      CurrentPlanIs(t[..|t|-1], j);
    }
  }

  lemma {:induction false} LastExecutionIs(t: seq<Effect>, j: nat)
    requires FinishedAt(t, |t|, j)
    ensures LastExecution(t) == Some(t[j].result)
  {
    if j < |t| - 1 {
      LastExecutionIs(t[..|t|-1], j);
    }
  }

  const FIRST_FIX_APPLIED :=
    [Asked, Asked, Asked, Planned(TWO_FIXES), Admitted(Some("a"), None), Approved("admin", "1"), Executed(FIRST_FIX),
     Finished(WORKED), CommandConfirmed("a")]
  const PLANNED_AGAIN :=
    [Admitted(Some("b"), None), Asked, Asked, Asked, Planned(TWO_FIXES), CommandConfirmed("b")]
  const SECOND_FIX_LOST := [Admitted(Some("c"), None), Approved("admin", "2"), Executed(SECOND_FIX)]
  const NOTHING_LEFT := [Admitted(Some("d"), None), Asked, Asked, Asked, Planned(NO_FIX), CommandConfirmed("d")]
  const CLOSED_ANYWAY := [Admitted(Some("e"), None), Verified(WORKED, GOOD), Closed]

  /** Started, and the first fix approved: it works, but the budget is used up before its verification. */
  method ApplyFirstFix() returns (run: Run)
    ensures fresh(run) && run.Valid() && run.config == CAREFUL && run.state == WaitingDecision
    ensures run.trace == FIRST_FIX_APPLIED && forall id :: id != "a" ==> !run.AlreadyConfirmed(id)
  {
    hide Run.Valid, InvestigateResult, CommandResult, Permitted, CurrentPlan;
    InvestigatesTo(TWO_FIXES);
    var started, raised := StartIssue(CAREFUL, null, None, true, true, 22, TWO_WAYS);
    run := started;
    run.Recorded();
    CurrentPlanIs(run.trace, 3);
    FirstFixStaysUnverified(run.Now());
    run.awaits := 22;
    raised := run.HandleComment(FromAdmin("a", Approve("1")), OtherCheckpoint, LATE);
  }

  const TRACE_B := FIRST_FIX_APPLIED + PLANNED_AGAIN
  const TRACE_C := TRACE_B + SECOND_FIX_LOST
  const TRACE_D := TRACE_C + NOTHING_LEFT
  const TRACE_E := TRACE_D + CLOSED_ANYWAY

  lemma WhatIsRecorded()
    ensures CurrentPlan(TRACE_B) == Some(TWO_FIXES) && LastExecution(TRACE_D) == Some(WORKED)
    ensures TRACE_E[26] == Closed && Unanswered(TRACE_E, 26)
  {
    CurrentPlanIs(TRACE_B, 13);
    LastExecutionIs(TRACE_D, 7);
    assert TRACE_E[17] == Executed(SECOND_FIX);
  }

  /** Input restarts the clock and leads to the same plan. */
  method PlanAgain(run: Run)
    requires run.Valid() && run.config == CAREFUL && run.state == WaitingDecision && run.trace == FIRST_FIX_APPLIED
    requires forall id :: id != "a" ==> !run.AlreadyConfirmed(id)
    modifies run
    ensures run.Valid() && run.state == WaitingDecision && run.trace == TRACE_B && run.recoveryPlan == Some(TWO_FIXES)
    ensures forall id :: id != "a" && id != "b" ==> !run.AlreadyConfirmed(id)
  {
    hide Run.Valid, InvestigateResult, CommandResult, CurrentPlan, LastExecution, Unanswered, Permitted, Rank, Blocked;
    InvestigatesTo(TWO_FIXES);
    ProvideInvestigates(run.Now(), TWO_WAYS);
    run.awaits := 22;
    var raised := run.HandleComment(FromAdmin("b", Provide("")), OtherCheckpoint, TWO_WAYS);
    run.Recorded();
    WhatIsRecorded();
  }

  lemma SecondFixMayBeApproved(v: View)
    requires v.plan == Some(TWO_FIXES)
    ensures Permitted("admin", CAREFUL.minApproval) && ApprovedOption(CAREFUL, v.plan, "2") == Some(SECOND_FIX)
    ensures CommandResult(CAREFUL, v, "admin", Approve("2"), OtherCheckpoint, USUAL).Some?
  {
    FixesAreAllowed();
    AdminMay(Approve("2"));
  }

  /** The second fix is approved and its execution raises. */
  method LoseSecondFix(run: Run)
    requires run.Valid() && run.config == CAREFUL && run.state == WaitingDecision && run.trace == TRACE_B
    requires run.recoveryPlan == Some(TWO_FIXES)
    requires forall id :: id != "a" && id != "b" ==> !run.AlreadyConfirmed(id)
    modifies run
    ensures run.Valid() && run.state == Executing && run.trace == TRACE_C
    ensures !run.AlreadyConfirmed("d") && !run.AlreadyConfirmed("e")
  {
    hide Run.Valid, CommandResult, Permitted, ApprovedOption, Rank, Blocked;
    SecondFixMayBeApproved(run.Now());
    run.awaits := 3;
    var raised := run.HandleComment(FromAdmin("c", Approve("2")), OtherCheckpoint, USUAL);
  }

  /** More input leads to a plan without options, which fails the run. */
  method RunOutOfFixes(run: Run)
    requires run.Valid() && run.config == CAREFUL && run.state == Executing && run.trace == TRACE_C
    requires !run.AlreadyConfirmed("d") && !run.AlreadyConfirmed("e")
    modifies run
    ensures run.Valid() && run.state == Failed && run.trace == TRACE_D && run.execution == Some(WORKED)
    ensures !run.AlreadyConfirmed("e")
  {
    hide Run.Valid, InvestigateResult, CommandResult, CurrentPlan, LastExecution, Unanswered, Permitted, Rank, Blocked;
    InvestigatesTo(NO_FIX);
    ProvideInvestigates(run.Now(), USUAL);
    run.awaits := 22;
    var raised := run.HandleComment(FromAdmin("d", Provide("")), OtherCheckpoint, USUAL);
    run.Recorded();
    WhatIsRecorded();
  }

  /** `resume` finds the old success, verifies it and closes. */
  method CloseAnyway(run: Run)
    requires run.Valid() && run.config == CAREFUL && run.state == Failed && run.trace == TRACE_D
    requires run.execution == Some(WORKED) && !run.AlreadyConfirmed("e")
    modifies run
    ensures run.Valid() && run.state == Resolved && run.trace == TRACE_E
  {
    hide Run.Valid, CommandResult;
    ResumeCloses(run.Now());
    run.awaits := 22;
    var raised := run.HandleComment(FromAdmin("e", Resume), OtherCheckpoint, USUAL);
  }

  /**
   The issue is closed on an older execution: the first fix works but is not verified, the execution of the second
   one raises, the next plan has no options and fails the run, and `resume` then verifies and closes on the result
   of the first fix, while the second one is unanswered.
   */
  method ResumeClosesOnOlderExecution() returns (run: Run)
    ensures fresh(run) && run.Valid() && Safe(CAREFUL, run.trace) && run.state == Resolved && run.trace == TRACE_E
    ensures TRACE_E[26] == Closed && Unanswered(TRACE_E, 26)
  {
    hide Run.Valid, CurrentPlan, LastExecution, Unanswered, Safe;
    run := ApplyFirstFix();
    PlanAgain(run);
    LoseSecondFix(run);
    RunOutOfFixes(run);
    CloseAnyway(run);
    run.TraceIsSafe();
    WhatIsRecorded();
  }

  /** No delivery passes the gate twice, and no comment does once its command has been confirmed. */
  lemma GateIsIdempotent(c: Config, t: seq<Effect>, i: nat, j: nat)
    requires Safe(c, t) && i < j < |t| && t[j].Admitted?
    ensures t[i].Admitted? && t[j].delivery.Some? ==> t[i].delivery != t[j].delivery
    ensures t[j].comment.Some? ==> t[i] != CommandConfirmed(t[j].comment.value)
  {
    assert Allowed(c, t[..j], t[j]);
    assert t[..j][i] == t[i];
  }

  // ---- What one comment can cause ----

  ghost predicate NoneExecuted(t: seq<Effect>) {
    forall i :: 0 <= i < |t| ==> !t[i].Executed?
  }

  /** Exactly one execution, of option `o`; no execution at all for None. */
  ghost predicate ExecutesExactly(t: seq<Effect>, o: Option<RemediationOption>) {
    if o.None? then NoneExecuted(t)
    else exists i :: 0 <= i < |t| && t[i] == Executed(o.value) && NoneExecuted(t[..i]) && NoneExecuted(t[i+1..])
  }

  /** The option that planning alone, without any approval, gets executed. */
  function Autonomous(c: Config, a: Answers): Option<RemediationOption> {
    if a.planBudget && a.executeBudget && ClassifyPlan(c.engine, a.plan) == Auto then Some(a.plan.options[0]) else None
  }

  function Concluded(c: Config, a: Answers): bool {
    a.diagnosisBudget && !a.rootCause.uncertain && a.rootCause.confidence >= c.rootCauseThreshold
  }

  /** What a comment executes, read off the command, the plan in force and the model's answers. */
  function Target(c: Config, v: View, command: Command, checkpoint: Checkpoint, a: Answers): Option<RemediationOption> {
    match command
    case Abort | Reject => None
    case Provide(_) | Investigate => if Concluded(c, a) then Autonomous(c, a) else None
    case Approve(id) => if a.executeBudget then ApprovedOption(c, v.plan, id) else None
    case Resume =>
      if !checkpoint.StateTransition? then None
      else if v.state == Planning then Autonomous(c, a)
      else if v.state == Investigating && Concluded(c, a) then Autonomous(c, a)
      else None
  }

  lemma PrependExecutes(s: seq<Effect>, t: seq<Effect>, o: Option<RemediationOption>)
    requires NoneExecuted(s) && ExecutesExactly(t, o)
    ensures ExecutesExactly(s + t, o)
  {
    if o.Some? {
      var i :| 0 <= i < |t| && t[i] == Executed(o.value) && NoneExecuted(t[..i]) && NoneExecuted(t[i+1..]);
      assert (s + t)[..|s| + i] == s + t[..i];
      assert (s + t)[|s| + i + 1..] == t[i+1..];
      assert (s + t)[|s| + i] == t[i];
    }
  }

  lemma ExecuteExecutes(c: Config, o: RemediationOption, a: Answers)
    ensures ExecutesExactly(ExecuteResult(c, o, a).1, if a.executeBudget then Some(o) else None)
  {
    var t := ExecuteResult(c, o, a).1;
    if a.executeBudget {
      assert t[0] == Executed(o) && NoneExecuted(t[..0]) && NoneExecuted(t[1..]);
    }
  }

  lemma PlanExecutes(c: Config, a: Answers)
    ensures ExecutesExactly(PlanResult(c, a).1, Autonomous(c, a))
  {
    hide ExecuteResult;
    if a.planBudget && ClassifyPlan(c.engine, a.plan) == Auto {
      ExecuteExecutes(c, a.plan.options[0], a);
      PrependExecutes([Asked, Planned(a.plan)], ExecuteResult(c, a.plan.options[0], a).1, Autonomous(c, a));
    }
  }

  lemma InvestigationExecutes(c: Config, a: Answers)
    ensures ExecutesExactly(InvestigateResult(c, a).1, if Concluded(c, a) then Autonomous(c, a) else None)
  {
    hide PlanResult, Autonomous;
    if Concluded(c, a) {
      PlanExecutes(c, a);
      PrependExecutes([Asked, Asked], PlanResult(c, a).1, Autonomous(c, a));
    }
  }

  /** A command that runs to its end executes exactly its target, once; `abort` and `reject` execute nothing. */
  lemma CommandExecutesTarget(c: Config, v: View, permission: string, command: Command, checkpoint: Checkpoint,
                              a: Answers)
    requires CommandResult(c, v, permission, command, checkpoint, a).Some?
    ensures var effects := CommandResult(c, v, permission, command, checkpoint, a).value.1;
      ExecutesExactly(effects, Target(c, v, command, checkpoint, a))
  {
    hide InvestigateResult, PlanResult, ExecuteResult, ExecutesExactly, Autonomous, Permitted, RequiredLevel,
      ApprovedOption;
    InvestigationExecutes(c, a);
    PlanExecutes(c, a);
    match command {
      case Approve(id) =>
        var o := ApprovedOption(c, v.plan, id).value;
        ExecuteExecutes(c, o, a);
        PrependExecutes([Approved(permission, id)], ExecuteResult(c, o, a).1, Target(c, v, command, checkpoint, a));
      case Investigate =>
        PrependExecutes([Asked], InvestigateResult(c, a).1, Target(c, v, command, checkpoint, a));
      case _ =>
        VerificationExecutesNothing(c, v, a);
    }
  }

  lemma VerificationExecutesNothing(c: Config, v: View, a: Answers)
    ensures ExecutesExactly([], None)
    ensures v.execution.Some? ==> ExecutesExactly(VerifyResult(c, v.execution.value, a).1, None)
  {
  }

  /** The execution came back as a success, and its verification was good enough. */
  predicate Remedied(c: Config, a: Answers) {
    && a.executeBudget && a.execution.Returned? && !a.execution.result.ambiguous && a.execution.result.success
    && a.verifyBudget && Passes(c, a.verification)
  }

  /** A final state and effects agree: the issue is closed exactly when the run got past its resolution. */
  ghost predicate ClosureMatches(r: (RunState, seq<Effect>), closed: bool) {
    && (Closed in r.1 <==> closed)
    && (closed ==> r.0 in {Resolved, PlanRcaResolved, Aborted})
    && (!closed ==> r.0 !in {Resolved, PlanRcaResolved})
  }

  lemma VerificationCloses(c: Config, r: ExecutionResult, a: Answers)
    ensures ClosureMatches(VerifyResult(c, r, a), a.verifyBudget && Passes(c, a.verification))
  {
    assert Closed in ResolveResult(c, a).1 by { assert ResolveResult(c, a).1[0] == Closed; }
  }

  /** Executing an option closes the issue exactly when it is remedied; an ambiguous outcome never does. */
  lemma ExecutionCloses(c: Config, o: RemediationOption, a: Answers)
    ensures ClosureMatches(ExecuteResult(c, o, a), Remedied(c, a))
  {
    hide VerifyResult, Passes;
    if a.execution.Returned? {
      VerificationCloses(c, a.execution.result, a);
    }
  }

  lemma PlanningCloses(c: Config, a: Answers)
    ensures ClosureMatches(PlanResult(c, a), Autonomous(c, a).Some? && Remedied(c, a))
  {
    hide ExecuteResult;
    if ClassifyPlan(c.engine, a.plan) == Auto {
      ExecutionCloses(c, a.plan.options[0], a);
    }
  }

  lemma InvestigationCloses(c: Config, a: Answers)
    ensures ClosureMatches(InvestigateResult(c, a), Concluded(c, a) && Autonomous(c, a).Some? && Remedied(c, a))
  {
    hide PlanResult, Autonomous, Remedied;
    PlanningCloses(c, a);
  }

  /**
   A command closes the issue exactly when what it executes is remedied, or when it resumes a verification
   that is good enough. Unless it leaves the run where it was, it ends resolved only with the issue closed.
   */
  lemma CommandCloses(c: Config, v: View, permission: string, command: Command, checkpoint: Checkpoint, a: Answers)
    requires CommandResult(c, v, permission, command, checkpoint, a).Some?
    ensures var r := CommandResult(c, v, permission, command, checkpoint, a).value;
      var resumed := command == Resume && FirstMove(v, Resume, checkpoint) == Some(Verifying);
      if command == Resume && FirstMove(v, Resume, checkpoint).None? then r == (v.state, [])
      else ClosureMatches(r, if resumed then a.verifyBudget && Passes(c, a.verification)
                             else Target(c, v, command, checkpoint, a).Some? && Remedied(c, a))
  {
    hide InvestigateResult, PlanResult, ExecuteResult, VerifyResult, Passes, Concluded, Autonomous, Permitted,
      RequiredLevel, ApprovedOption;
    InvestigationCloses(c, a);
    PlanningCloses(c, a);
    match command {
      case Approve(id) => ExecutionCloses(c, ApprovedOption(c, v.plan, id).value, a);
      case Resume => if v.execution.Some? { VerificationCloses(c, v.execution.value, a); }
      case _ =>
    }
  }

  // ---- Where a run can end up, state by state ----

  predicate GoodEnough(c: Config, a: Answers) {
    a.verification.verified && a.verification.confidence >= c.verificationThreshold
  }

  /** The final state of an executed option, for each state the exact answers that lead to it. */
  lemma ExecutionEnds(c: Config, o: RemediationOption, a: Answers)
    ensures var (s, effects) := ExecuteResult(c, o, a);
      var worked := a.execution.Returned? && !a.execution.result.ambiguous && a.execution.result.success;
      var checked := a.executeBudget && worked && a.verifyBudget;
      && (s == WaitingDecision <==>
            || !a.executeBudget || a.execution.WriteAmbiguous? || a.execution.result.ambiguous
            || (worked && !a.verifyBudget))
      && (s == Failed <==>
            && a.executeBudget && a.execution.Returned? && !a.execution.result.ambiguous
            && (!a.execution.result.success || (a.verifyBudget && !GoodEnough(c, a) && !a.verification.abort)))
      && (s == Aborted <==>
            checked && if GoodEnough(c, a) then c.rcaEnabled && (!a.rcaInTime || a.rcaOverrun)
              else a.verification.abort)
      && (s == Resolved <==> checked && GoodEnough(c, a) && !c.rcaEnabled)
      && (s == PlanRcaResolved <==> checked && GoodEnough(c, a) && c.rcaEnabled && a.rcaInTime && !a.rcaOverrun)
      && (a.executeBudget ==> effects != [] && effects[0] == Executed(o))
      && (a.executeBudget && a.execution.Returned? ==> |effects| >= 2 && effects[1] == Finished(a.execution.result))
      && (checked ==> |effects| >= 3 && effects[2] == Verified(a.execution.result, a.verification))
  {
  }

  /** The final state of a plan; one that needs business input, or is denied, or undecided, executes nothing. */
  lemma PlanEnds(c: Config, a: Answers)
    ensures var (s, effects) := PlanResult(c, a);
      && (!a.planBudget ==> s == WaitingDecision && effects == [])
      && (a.planBudget ==> effects != [] && Planned(a.plan) in effects)
      && (a.planBudget && a.plan.requiresBusinessInput ==> s == WaitingInput && NoneExecuted(effects))
      && (a.planBudget && ClassifyPlan(c.engine, a.plan) == Approval ==> s == WaitingApproval && NoneExecuted(effects))
      && (a.planBudget && ClassifyPlan(c.engine, a.plan) == Decision ==> s == WaitingDecision && NoneExecuted(effects))
      && (a.planBudget && ClassifyPlan(c.engine, a.plan) == Deny ==> s == Failed && NoneExecuted(effects))
      && (a.planBudget && ClassifyPlan(c.engine, a.plan) == Auto ==>
            s == ExecuteResult(c, a.plan.options[0], a).0 && effects[2..] == ExecuteResult(c, a.plan.options[0], a).1)
  {
    hide ExecuteResult;
    VerdictIff(c.engine, a.plan);
    assert [Asked, Planned(a.plan)][1] == Planned(a.plan);
  }

  /** The final state of an investigation: a decision without budget, input without a sure diagnosis,
    else the plan's. */
  lemma InvestigationEnds(c: Config, a: Answers)
    ensures var (s, effects) := InvestigateResult(c, a);
      var sure := !a.rootCause.uncertain && a.rootCause.confidence >= c.rootCauseThreshold;
      && (!a.diagnosisBudget ==> s == WaitingDecision && effects == [Asked])
      && (a.diagnosisBudget && !sure ==> s == WaitingInput && effects == [Asked, Asked])
      && (a.diagnosisBudget && sure ==> s == PlanResult(c, a).0 && effects[2..] == PlanResult(c, a).1)
  {
    hide PlanResult;
  }

  /** What each command that is not refused comes to. */
  lemma CommandEnds(c: Config, v: View, permission: string, command: Command, checkpoint: Checkpoint, a: Answers)
    requires CommandResult(c, v, permission, command, checkpoint, a).Some?
    ensures var (s, effects) := CommandResult(c, v, permission, command, checkpoint, a).value;
      && (command == Abort ==> s == Aborted && effects == [])
      && (command == Reject ==> s == WaitingDecision && effects == [])
      && (command.Provide? ==> (s, effects) == InvestigateResult(c, a))
      && (command == Investigate ==> s == InvestigateResult(c, a).0 && effects[1..] == InvestigateResult(c, a).1)
      && (command.Approve? ==>
            && v.plan.Some?
              && IsFirst(v.plan.value.options, command.argument, ApprovedOption(c, v.plan, command.argument))
            && effects[0] == Approved(permission, command.argument)
            && s == ExecuteResult(c, ApprovedOption(c, v.plan, command.argument).value, a).0
            && effects[1..] == ExecuteResult(c, ApprovedOption(c, v.plan, command.argument).value, a).1)
  {
    hide InvestigateResult, ExecuteResult, Permitted;
    if command.Approve? && v.plan.Some? {
      FoundIsFirst(v.plan.value.options, command.argument);
    }
  }

  /** `o` is the first of the options with the given id. */
  ghost predicate IsFirst(options: seq<RemediationOption>, id: string, o: Option<RemediationOption>) {
    exists i :: 0 <= i < |options| && o == Some(options[i]) && options[i].id == id
                && forall j :: 0 <= j < i ==> options[j].id != id
  }

  lemma {:induction false} FoundIsFirst(options: seq<RemediationOption>, id: string)
    ensures FindOption(options, id).None? <==> forall i :: 0 <= i < |options| ==> options[i].id != id
    ensures FindOption(options, id).Some? ==> IsFirst(options, id, FindOption(options, id))
  {
    if options != [] && options[0].id != id {
      var rest := options[1..];
      assert forall i :: 0 <= i < |rest| ==> rest[i] == options[i+1];
      FoundIsFirst(rest, id);
      if FindOption(rest, id).Some? {
        var i :| 0 <= i < |rest| && FindOption(rest, id) == Some(rest[i]) && rest[i].id == id
          && forall j :: 0 <= j < i ==> rest[j].id != id;
        assert options[i+1] == rest[i] && forall j :: 0 < j < i + 1 ==> options[j] == rest[j-1];
      } else {
        assert forall i :: 0 < i < |options| ==> options[i] == rest[i-1];
      }
    } else if options != [] {
      assert FindOption(options, id) == Some(options[0]);
    }
  }

  /**
   Exactly when an approval is refused: the actor is too low on the ladder, there is no plan, no option of the plan
   has the id, or the policy denies the effective risk of the first one that has it.
   */
  lemma ApprovalRefusedIff(c: Config, v: View, permission: string, id: string, checkpoint: Checkpoint, a: Answers)
    ensures CommandResult(c, v, permission, Approve(id), checkpoint, a).None? <==>
      || !Meets(permission, c.minApproval)
      || v.plan.None?
      || (forall i :: 0 <= i < |v.plan.value.options| ==> v.plan.value.options[i].id != id)
      || (exists o :: IsFirst(v.plan.value.options, id, Some(o)) && Denied(c, o))
  {
    hide Permitted, Meets, Denied, ExecuteResult;
    PermittedIff(permission, c.minApproval);
    if v.plan.Some? {
      FoundIsFirst(v.plan.value.options, id);
      var found := FindOption(v.plan.value.options, id);
      forall o | IsFirst(v.plan.value.options, id, Some(o)) ensures found == Some(o) {
      }
    }
  }

  /** When `resume` goes on from an investigation, a plan or a verification; otherwise it only posts a comment. */
  lemma ResumeIs(v: View, checkpoint: Checkpoint)
    ensures var move := FirstMove(v, Resume, checkpoint);
      var worked := v.execution.Some? && v.execution.value.success;
      && (move == Some(Investigating) <==> checkpoint == StateTransition && v.state == Investigating)
      && (move == Some(Planning) <==> checkpoint == StateTransition && v.state == Planning)
      && (move == Some(Verifying) <==>
            || (checkpoint == AtExecution(PostExecution) && worked)
            || (checkpoint == StateTransition && v.state == Executing && v.execution.Some?)
            || (v.state == Failed && worked && checkpoint != HumanGate && checkpoint != AtExecution(PreExecution)))
      && (move.Some? ==> move.value in {Investigating, Planning, Verifying})
      && (move == Some(Verifying) && v.state != Executing ==> worked)
  {
  }

  /** The transition table read by its targets: from which states each state may be entered; and the final states. */
  lemma EnteredFrom(s: RunState)
    ensures Open !in ValidTransitions(s)
    ensures Triage in ValidTransitions(s) <==> s == Open
    ensures Investigating in ValidTransitions(s) <==> s in {Triage, WaitingDecision, WaitingInput, Failed}
    ensures Diagnosed in ValidTransitions(s) <==> s in {Investigating, WaitingInput}
    ensures Planning in ValidTransitions(s) <==> s in {Diagnosed, WaitingApproval, WaitingDecision}
    ensures Executing in ValidTransitions(s) <==> s in {Planning, WaitingApproval, WaitingDecision}
    ensures Verifying in ValidTransitions(s) <==> s == Executing
    ensures WaitingApproval in ValidTransitions(s) <==> s in {Planning, Failed}
    ensures WaitingDecision in ValidTransitions(s) <==> s in {Planning, Executing, Failed}
    ensures WaitingInput in ValidTransitions(s) <==> s in {Investigating, Diagnosed, Planning, Failed}
    ensures Resolved in ValidTransitions(s) <==> s == Verifying
    ensures Failed in ValidTransitions(s) <==> s in {Triage, Investigating, Diagnosed, Planning, Executing, Verifying}
    ensures Aborted in ValidTransitions(s) <==> s !in {Open, Resolved, Aborted, PlanRcaResolved}
    ensures PlanRca in ValidTransitions(s) <==> s == Resolved
    ensures PlanRcaResolved in ValidTransitions(s) <==> s in {Resolved, PlanRca}
    ensures Terminal(s) <==> s == Failed || ValidTransitions(s) == {}
  {
  }

  /**
   Enforcement. In strict mode a rejection is refused while the run waits for approval, and `resume` can never
   verify a failed run. Without strict mode nothing is refused, and what an approval does is the same in every
   state, also in one where the incident is already resolved. A declined preflight of the wave loop raises in strict
   mode, because it cannot move on from the investigation, and not otherwise.
   */
  lemma EnforcementDecides(c: Config, v: View, command: Command, checkpoint: Checkpoint, permission: string, a: Answers)
    ensures c.enforcement == Strict ==>
      && (Blocked(c, v, Reject, checkpoint) <==> v.state !in {Planning, Executing, Failed})
      && (command.Approve? ==>
            (Blocked(c, v, command, checkpoint) <==> v.state !in {Planning, WaitingApproval, WaitingDecision}))
      && (command.Provide? || command.Investigate? ==>
            (Blocked(c, v, command, checkpoint) <==> v.state !in {Triage, WaitingDecision, WaitingInput, Failed}))
      && (Blocked(c, v, Abort, checkpoint) <==> v.state in {Open, Resolved, Aborted, PlanRcaResolved})
      && (v.state == Failed ==> (Blocked(c, v, Resume, checkpoint) <==> FirstMove(v, Resume, checkpoint).Some?))
    ensures Transition(c.enforcement, Investigating, WaitingDecision).None? <==> c.enforcement == Strict
    ensures c.enforcement != Strict ==>
      && !Blocked(c, v, command, checkpoint)
      && forall id, s :: CommandResult(c, v, permission, Approve(id), checkpoint, a)
                         == CommandResult(c, v.(state := s), permission, Approve(id), checkpoint, a)
  {
    hide Permitted, ExecuteResult, ApprovedOption;
  }
}
