// One iteration of the agent loop as a function of the loop state and of what
// the outside world answers: the clock, the model, and the executed program.

module Loop {
  import opened Options
  import opened Json
  import opened Window
  import opened Grounding

  datatype OutputMode = MessageMode | FindingMode | OperationsMode

  datatype Config = Config(
    mode: OutputMode,
    budgetSoft: real,
    budgetHard: real,
    maxCallsSoft: int,
    maxCallsHard: int,
    retryOnModelError: bool,
    voidFailedApprovals: bool,
    liveRounds: int,
    grounding: GroundingIds)

  const GROUNDING_REJECTION_LIMIT := 2

  // The bounds the settings validators enforce.
  predicate ValidConfig(cfg: Config)
  {
    cfg.liveRounds >= 1 && 0.0 < cfg.budgetSoft <= cfg.budgetHard && 1 <= cfg.maxCallsSoft <= cfg.maxCallsHard
  }

  datatype ProgramResult = ProgramResult(
    ok: bool,
    programError: Option<string>,
    callbackErrors: seq<string>,
    attempts: seq<Attempt>,
    message: string,
    values: seq<Json>,
    finding: Option<Json>,
    done: Option<string>,
    finishedSilent: bool,
    silentReason: string)

  // A valid reply is exactly one `run` call; `source` is its stripped program.
  datatype Reply =
    | ModelError(retryable: bool)
    | BadProtocol(callIds: seq<string>)
    | RunCall(callId: string, source: string, result: ProgramResult)

  // What the world contributes to one iteration.
  datatype Turn = Turn(elapsed: real, now: int, reply: Reply)

  datatype Executed = Executed(source: string, ok: bool, errors: seq<string>)

  datatype State = State(
    window: Window,
    calls: nat,
    prevSource: Option<string>,
    lastErrors: Option<seq<string>>,
    rejections: nat,
    attempts: seq<Attempt>,        // the turn's action attempts, in proposal order
    expiredEvents: seq<string>,    // attempt ids of the approval-expired events
    executed: seq<Executed>)       // history: the programs run so far

  datatype Outcome =
    | Message | Finding | Operations | ApprovalOutcome | Silent | BudgetExhausted | ModelFailed

  // Which return statement ended the run.
  datatype Exit =
    | ClockOrCallCap | RepeatedSource | IdenticalErrors | ModelFailure | GroundingExhausted
    | EmittedMessage | EmittedFinding | EmittedOperations | StagedApproval | FinishedSilent

  datatype LoopResult = LoopResult(
    outcome: Outcome,
    message: Option<string>,
    finding: Option<Json>,
    operations: Option<string>,
    calls: nat,
    awaiting: Option<Attempt>,
    silentReason: string)

  datatype Next = Continue(state: State) | Stop(state: State, exit: Exit, result: LoopResult)

  function InitialState(stable: seq<string>, prior: seq<Attempt>): State
  {
    State(InitialWindow(stable), 0, None, None, 0, prior, [], [])
  }

  function Plain(outcome: Outcome, calls: nat): LoopResult
  {
    LoopResult(outcome, None, None, None, calls, None, "")
  }

  // --------------------------------------------------------------- the head

  predicate OutOfBudget(cfg: Config, s: State, elapsed: real)
  {
    elapsed > cfg.budgetHard || s.calls > cfg.maxCallsHard
  }

  predicate NudgeDue(cfg: Config, s: State, elapsed: real)
  {
    !s.window.wrapUpInjected && (elapsed > cfg.budgetSoft || s.calls > cfg.maxCallsSoft)
  }

  // `max(0.0, budget_seconds_hard - elapsed)`
  function Remaining(cfg: Config, elapsed: real): real
  {
    if cfg.budgetHard - elapsed > 0.0 then cfg.budgetHard - elapsed else 0.0
  }

  // The state in which the model is called.
  function AtCall(cfg: Config, s: State, elapsed: real): State
  {
    s.(window := OpenCall(s.window, NudgeDue(cfg, s, elapsed), Remaining(cfg, elapsed)), calls := s.calls + 1)
  }

  // ------------------------------------------------------------ after a reply

  function Pair(s: State, callIds: seq<string>, kind: ReturnKind): seq<Msg>
  {
    [ToolCalls(s.calls, callIds), ToolReturns(s.calls, NonEmptyIds(callIds), kind)]
  }

  function Append(cfg: Config, s: State, block: seq<Msg>): State
  {
    s.(window := AppendRound(s.window, s.calls, block, cfg.liveRounds))
  }

  function ProgramErrors(p: ProgramResult): seq<string>
  {
    (if p.programError.Some? then [p.programError.value] else []) + p.callbackErrors
  }

  function Voided(a: Attempt, now: int): Attempt
  {
    if a.status != AwaitingApproval then a
    else a.(status := Expired, policyReason := Some("program_failed"), updatedAt := now,
            approval := if a.approval.Some? && a.approval.value.status == Pending
                        then Some(Approval(ExpiredRequest, Some("program_failed"), Some(now), now))
                        else a.approval)
  }

  function VoidAll(attempts: seq<Attempt>, now: int): seq<Attempt>
  {
    seq(|attempts|, i requires 0 <= i < |attempts| => Voided(attempts[i], now))
  }

  function AwaitingIds(attempts: seq<Attempt>): seq<string>
  {
    if attempts == [] then []
    else (if attempts[0].status == AwaitingApproval then [attempts[0].id] else []) + AwaitingIds(attempts[1..])
  }

  function FirstAwaiting(attempts: seq<Attempt>): Option<Attempt>
  {
    if attempts == [] then None
    else if attempts[0].status == AwaitingApproval then Some(attempts[0])
    else FirstAwaiting(attempts[1..])
  }

  // A program that did not complete; `s` already holds its attempts.
  function AfterFailure(cfg: Config, s: State, before: seq<Attempt>, callId: string, p: ProgramResult, now: int): Next
  {
    var errors := ProgramErrors(p);
    if errors != [] && s.lastErrors == Some(errors) then
      Stop(s, IdenticalErrors, Plain(BudgetExhausted, s.calls))
    else
      var s1 := if cfg.voidFailedApprovals
                then s.(attempts := before + VoidAll(p.attempts, now),
                        expiredEvents := s.expiredEvents + AwaitingIds(p.attempts))
                else s;
      Continue(Append(cfg, s1.(lastErrors := Some(errors)), Pair(s, [callId], ProgramFailure(errors))))
  }

  predicate Premature(cfg: Config, s: State, p: ProgramResult)
  {
    && cfg.mode == MessageMode && s.calls == 1 && p.message != ""
    && exists i :: 0 <= i < |p.attempts| && p.attempts[i].impactLevel == "read"
  }

  predicate GroundingRejects(cfg: Config, s: State, p: ProgramResult)
  {
    cfg.mode == MessageMode && p.message != "" && !Premature(cfg, s, p) && !Satisfied(s.attempts, cfg.grounding)
  }

  // The terminal branches, by output mode.
  function Terminal(cfg: Config, s: State, p: ProgramResult): Option<(Exit, LoopResult)>
  {
    match cfg.mode
    case FindingMode =>
      if p.finding.Some? then Some((EmittedFinding, Plain(Finding, s.calls).(finding := p.finding))) else None
    case OperationsMode =>
      if p.done.Some? then Some((EmittedOperations, Plain(Operations, s.calls).(operations := p.done))) else None
    case MessageMode =>
      if p.message != "" && !Premature(cfg, s, p) && !GroundingRejects(cfg, s, p) then
        Some((EmittedMessage, Plain(Message, s.calls).(message := Some(p.message))))
      else if FirstAwaiting(p.attempts).Some? then
        Some((StagedApproval, Plain(ApprovalOutcome, s.calls).(awaiting := FirstAwaiting(p.attempts))))
      else if p.finishedSilent then
        Some((FinishedSilent, Plain(Silent, s.calls).(silentReason := p.silentReason)))
      else None
  }

  // The branches that feed the program's outcome back and loop.
  function FeedBack(cfg: Config, s: State, callId: string, p: ProgramResult): State
  {
    if GroundingRejects(cfg, s, p) then Append(cfg, s, Pair(s, [callId], MessageRejected))
    else if p.values != [] then
      s.(window := AppendEmitRound(s.window, s.calls, Pair(s, [callId], Values(p.values)), cfg.liveRounds))
    else if p.attempts != [] then Append(cfg, s, Pair(s, [callId], SyscallTrace(Premature(cfg, s, p))))
    else Append(cfg, s, [NoOutput(s.calls)])
  }

  function AfterSuccess(cfg: Config, s: State, callId: string, p: ProgramResult): Next
  {
    var rejected := GroundingRejects(cfg, s, p);
    var s1 := s.(lastErrors := None, rejections := if rejected then s.rejections + 1 else s.rejections);
    if rejected && s1.rejections > GROUNDING_REJECTION_LIMIT then
      Stop(s1, GroundingExhausted, Plain(Silent, s.calls).(silentReason := "grounding_unrecoverable"))
    else
      match Terminal(cfg, s, p)
      case Some((exit, result)) => Stop(s1, exit, result)
      case None => Continue(FeedBack(cfg, s1, callId, p))
  }

  // `s` is the state of the model call that the reply answers.
  function Respond(cfg: Config, s: State, turn: Turn): Next
  {
    match turn.reply
    case ModelError(retryable) =>
      if cfg.retryOnModelError && retryable then Continue(s)
      else Stop(s, ModelFailure, Plain(ModelFailed, s.calls))
    case BadProtocol(callIds) => Continue(Append(cfg, s, Pair(s, callIds, ProtocolFailure)))
    case RunCall(callId, source, p) =>
      if s.prevSource == Some(source) then Stop(s, RepeatedSource, Plain(BudgetExhausted, s.calls))
      else
        var ran := s.(prevSource := Some(source),
                      attempts := s.attempts + p.attempts,
                      executed := s.executed + [Executed(source, p.ok, ProgramErrors(p))]);
        if p.ok then AfterSuccess(cfg, ran, callId, p)
        else AfterFailure(cfg, ran, s.attempts, callId, p, turn.now)
  }

  function Step(cfg: Config, s: State, turn: Turn): Next
  {
    if OutOfBudget(cfg, s, turn.elapsed) then Stop(s, ClockOrCallCap, Plain(BudgetExhausted, s.calls))
    else Respond(cfg, AtCall(cfg, s, turn.elapsed), turn)
  }

  // ------------------------------------------------------------- whole runs

  // The run that the given world answers lead to; a stopped run stays stopped.
  function Run(cfg: Config, init: State, turns: seq<Turn>): Next
  {
    if turns == [] then Continue(init)
    else
      var before := Run(cfg, init, turns[..|turns| - 1]);
      if before.Continue? then Step(cfg, before.state, turns[|turns| - 1]) else before
  }

  function Answers(world: nat -> Turn, n: nat): seq<Turn>
  {
    seq(n, k requires 0 <= k < n => world(k))
  }

  // `s` is the state at some loop head of some run.
  ghost predicate Reachable(cfg: Config, stable: seq<string>, prior: seq<Attempt>, turns: seq<Turn>, s: State)
  {
    Run(cfg, InitialState(stable, prior), turns) == Continue(s)
  }
}
