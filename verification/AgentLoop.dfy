// The agent loop as it runs: one object edits its message list, its span list
// and its counters in place. Every method is proved against the functions of
// Window and Loop, so what is proved of those holds of every run of `RunLoop`.

module AgentLoop {
  import opened Options
  import opened Window
  import opened Grounding
  import opened Loop
  import opened LoopWindow

  class AgentLoop {
    const cfg: Config

    var messages: seq<Msg>
    var stablePrefixLen: nat
    var budgetItemIndex: Option<int>
    var wrapUpNudgeInjected: bool
    var roundSpans: seq<Span>
    var lastEmitValueTail: Option<int>
    var modelCallCount: nat
    var prevRunSource: Option<string>
    var lastProgramErrors: Option<seq<string>>
    var groundingRejections: nat
    var attempts: seq<Attempt>
    var expiredEvents: seq<string>

    ghost var history: map<nat, seq<Msg>>
    ghost var slipped: bool
    ghost var executed: seq<Executed>

    ghost function WindowView(): Window
      reads this
    {
      Window(messages, stablePrefixLen, budgetItemIndex, wrapUpNudgeInjected, roundSpans, lastEmitValueTail,
             history, slipped)
    }

    ghost function View(): State
      reads this
    {
      State(WindowView(), modelCallCount, prevRunSource, lastProgramErrors, groundingRejections, attempts,
            expiredEvents, executed)
    }

    constructor (cfg: Config, stable: seq<string>, prior: seq<Attempt>)
      ensures this.cfg == cfg && View() == InitialState(stable, prior)
    {
      this.cfg := cfg;
      messages := seq(|stable|, i requires 0 <= i < |stable| => Stable(stable[i]));
      stablePrefixLen := |stable|;
      budgetItemIndex, wrapUpNudgeInjected, roundSpans, lastEmitValueTail := None, false, [], None;
      modelCallCount, prevRunSource, lastProgramErrors, groundingRejections := 0, None, None, 0;
      attempts, expiredEvents := prior, [];
      history, slipped, executed := map[], false, [];
    }

    // Record the round that started at `roundStart` and evict the oldest one if
    // the window overflows, shifting the later spans one by one.
    method EvictOldestRound(roundStart: int)
      modifies this`messages, this`roundSpans, this`slipped
      ensures WindowView() == RecordRound(old(WindowView()), roundStart, cfg.liveRounds)
    {
      var roundEnd := |messages|;
      if roundStart >= roundEnd {
        return;
      }
      roundSpans := roundSpans + [Span(roundStart, roundEnd)];
      if |roundSpans| <= cfg.liveRounds {
        return;
      }
      var oldest := roundSpans[0];
      roundSpans := roundSpans[1..];
      if oldest.start < stablePrefixLen {
        return;
      }
      if budgetItemIndex.Some? && oldest.start <= budgetItemIndex.value < oldest.end {
        return;
      }
      var evictCount := oldest.end - oldest.start;
      messages := DeleteSlice(messages, oldest.start, oldest.end);
      slipped := slipped || lastEmitValueTail.Some?;
      ghost var rest := roundSpans;
      for i := 0 to |roundSpans|
        modifies this`roundSpans
        invariant |roundSpans| == |rest|
        invariant forall j :: 0 <= j < i ==> roundSpans[j] == ShiftSpans(rest, evictCount)[j]
        invariant forall j :: i <= j < |rest| ==> roundSpans[j] == rest[j]
      {
        roundSpans := roundSpans[i := Span(roundSpans[i].start - evictCount, roundSpans[i].end - evictCount)];
      }
      assert roundSpans == ShiftSpans(rest, evictCount);
    }

    // Append the block of the current round and let the window slide.
    method AppendBlock(block: seq<Msg>)
      modifies this`messages, this`roundSpans, this`slipped, this`history
      ensures WindowView() == AppendRound(old(WindowView()), modelCallCount, block, cfg.liveRounds)
    {
      var roundStart := |messages|;
      messages := messages + block;
      history := history[modelCallCount := block];
      EvictOldestRound(roundStart);
    }

    // An emit_value round first evicts the previous one and all after it.
    method AppendEmitBlock(block: seq<Msg>)
      modifies this`messages, this`roundSpans, this`slipped, this`history, this`lastEmitValueTail
      ensures WindowView() == AppendEmitRound(old(WindowView()), modelCallCount, block, cfg.liveRounds)
    {
      if lastEmitValueTail.Some? {
        messages := DeleteSlice(messages, lastEmitValueTail.value, |messages|);
        roundSpans := SpansUpTo(roundSpans, lastEmitValueTail.value);
      }
      lastEmitValueTail := Some(|messages|);
      AppendBlock(block);
    }

    // Expire the approvals among the attempts from index `from` on.
    method VoidApprovals(from: nat, now: int)
      requires from <= |attempts|
      modifies this`attempts, this`expiredEvents
      ensures attempts == old(attempts)[..from] + VoidAll(old(attempts)[from..], now)
      ensures expiredEvents == old(expiredEvents) + AwaitingIds(old(attempts)[from..])
    {
      ghost var before := attempts[from..];
      for i := from to |attempts|
        invariant |attempts| == |old(attempts)|
        invariant forall j :: 0 <= j < |attempts| ==>
                    attempts[j] == if from <= j < i then Voided(old(attempts)[j], now) else old(attempts)[j]
        invariant expiredEvents == old(expiredEvents) + AwaitingIds(before[..i - from])
      {
        var attempt := attempts[i];
        ghost var k := i - from;
        assert before[..k + 1] == before[..k] + [before[k]];
        AwaitingIdsSnoc(before[..k], before[k]);
        if attempt.status != AwaitingApproval {
          continue;
        }
        if attempt.approval.Some? && attempt.approval.value.status == Pending {
          var expired := Approval(ExpiredRequest, Some("program_failed"), Some(now), now);
          attempt := attempt.(approval := Some(expired));
        }
        attempt := attempt.(status := Expired, policyReason := Some("program_failed"), updatedAt := now);
        attempts := attempts[i := attempt];
        expiredEvents := expiredEvents + [attempt.id];
      }
      assert before[..|before|] == before;
    }

    lemma AwaitingIdsSnoc(a: seq<Attempt>, x: Attempt)
      ensures AwaitingIds(a + [x]) == AwaitingIds(a) + (if x.status == AwaitingApproval then [x.id] else [])
    {
      if a != [] {
        assert (a + [x])[1..] == a[1..] + [x];
        AwaitingIdsSnoc(a[1..], x);
      }
    }

    // The head of an iteration: the nudge once, then the budget line in its slot.
    method OpenModelCall(elapsed: real)
      modifies this`messages, this`wrapUpNudgeInjected, this`budgetItemIndex, this`modelCallCount
      ensures View() == AtCall(cfg, old(View()), elapsed)
    {
      if !wrapUpNudgeInjected && (elapsed > cfg.budgetSoft || modelCallCount > cfg.maxCallsSoft) {
        messages := messages + [WrapUp];
        wrapUpNudgeInjected := true;
      }
      var remaining := if cfg.budgetHard - elapsed > 0.0 then cfg.budgetHard - elapsed else 0.0;
      if budgetItemIndex.None? {
        messages := messages + [BudgetLine(remaining)];
        budgetItemIndex := Some(|messages| - 1);
      } else if 0 <= budgetItemIndex.value < |messages| {
        messages := messages[budgetItemIndex.value := BudgetLine(remaining)];
      }
      modelCallCount := modelCallCount + 1;
    }

    // A program that did not complete. Its attempts start at index `from`.
    method HandleFailure(callId: string, p: ProgramResult, from: nat, now: int)
      returns (stop: Option<(Exit, LoopResult)>)
      requires from <= |attempts| && p.attempts == attempts[from..]
      modifies this
      ensures AfterFailure(cfg, old(View()), old(attempts)[..from], callId, p, now) ==
              if stop.Some? then Stop(View(), stop.value.0, stop.value.1) else Continue(View())
    {
      hide AppendRound, VoidAll, AwaitingIds;
      var errors := ProgramErrors(p);
      if errors != [] && lastProgramErrors == Some(errors) {
        return Some((IdenticalErrors, Plain(BudgetExhausted, modelCallCount)));
      }
      lastProgramErrors := Some(errors);
      if cfg.voidFailedApprovals {
        VoidApprovals(from, now);
      }
      AppendBlock([ToolCalls(modelCallCount, [callId]),
                   ToolReturns(modelCallCount, NonEmptyIds([callId]), ProgramFailure(errors))]);
      return None;
    }

    // A clean program: the rails, the terminal branches, the feedback branches.
    method HandleSuccess(callId: string, p: ProgramResult) returns (stop: Option<(Exit, LoopResult)>)
      modifies this
      ensures AfterSuccess(cfg, old(View()), callId, p) ==
              if stop.Some? then Stop(View(), stop.value.0, stop.value.1) else Continue(View())
    {
      hide AppendRound, AppendEmitRound, Satisfied;
      ghost var s := View();
      lastProgramErrors := None;
      var read := AnyRead(p.attempts);
      var premature := cfg.mode == MessageMode && modelCallCount == 1 && p.message != "" && read;
      var rejected := false;
      if cfg.mode == MessageMode && p.message != "" && !premature {
        var grounded := CheckSatisfied(attempts, cfg.grounding);
        rejected := !grounded;
      }
      assert rejected == GroundingRejects(cfg, s, p) && premature == Premature(cfg, s, p);
      if rejected {
        groundingRejections := groundingRejections + 1;
        if groundingRejections > GROUNDING_REJECTION_LIMIT {
          return Some((GroundingExhausted, Plain(Silent, modelCallCount).(silentReason := "grounding_unrecoverable")));
        }
      }
      stop := TerminalBranch(p, premature, rejected);
      if stop.Some? {
        return;
      }
      var ids := NonEmptyIds([callId]);
      if rejected {
        AppendBlock([ToolCalls(modelCallCount, [callId]), ToolReturns(modelCallCount, ids, MessageRejected)]);
      } else if p.values != [] {
        AppendEmitBlock([ToolCalls(modelCallCount, [callId]), ToolReturns(modelCallCount, ids, Values(p.values))]);
      } else if p.attempts != [] {
        AppendBlock([ToolCalls(modelCallCount, [callId]), ToolReturns(modelCallCount, ids, SyscallTrace(premature))]);
      } else {
        AppendBlock([NoOutput(modelCallCount)]);
      }
    }

    method AnyRead(tried: seq<Attempt>) returns (found: bool)
      ensures found <==> exists i :: 0 <= i < |tried| && tried[i].impactLevel == "read"
    {
      for i := 0 to |tried|
        invariant forall j :: 0 <= j < i ==> tried[j].impactLevel != "read"
      {
        if tried[i].impactLevel == "read" {
          return true;
        }
      }
      return false;
    }

    method TerminalBranch(p: ProgramResult, premature: bool, rejected: bool) returns (stop: Option<(Exit, LoopResult)>)
      requires premature == Premature(cfg, View(), p)
      requires rejected == GroundingRejects(cfg, View(), p)
      ensures stop == Terminal(cfg, View(), p)
    {
      hide Satisfied;
      var plain := Plain(Silent, modelCallCount);
      match cfg.mode {
      case FindingMode =>
        if p.finding.Some? {
          return Some((EmittedFinding, plain.(outcome := Finding, finding := p.finding)));
        }
      case OperationsMode =>
        if p.done.Some? {
          return Some((EmittedOperations, plain.(outcome := Operations, operations := p.done)));
        }
      case MessageMode =>
        if p.message != "" && !premature && !rejected {
          return Some((EmittedMessage, plain.(outcome := Message, message := Some(p.message))));
        }
        var awaiting := FirstAwaiting(p.attempts);
        if awaiting.Some? {
          return Some((StagedApproval, plain.(outcome := ApprovalOutcome, awaiting := awaiting)));
        }
        if p.finishedSilent {
          return Some((FinishedSilent, plain.(silentReason := p.silentReason)));
        }
      }
      return None;
    }

    // What follows a model call.
    method HandleReply(turn: Turn) returns (stop: Option<(Exit, LoopResult)>)
      modifies this
      ensures Respond(cfg, old(View()), turn) ==
              if stop.Some? then Stop(View(), stop.value.0, stop.value.1) else Continue(View())
    {
      hide AfterFailure, AfterSuccess, AppendRound;
      match turn.reply
      case ModelError(retryable) =>
        if cfg.retryOnModelError && retryable {
          return None;
        }
        return Some((ModelFailure, Plain(ModelFailed, modelCallCount)));
      case BadProtocol(callIds) =>
        AppendBlock([ToolCalls(modelCallCount, callIds),
                     ToolReturns(modelCallCount, NonEmptyIds(callIds), ProtocolFailure)]);
        return None;
      case RunCall(callId, source, p) =>
        if prevRunSource == Some(source) {
          return Some((RepeatedSource, Plain(BudgetExhausted, modelCallCount)));
        }
        prevRunSource := Some(source);
        var from := |attempts|;
        attempts := attempts + p.attempts;
        executed := executed + [Executed(source, p.ok, ProgramErrors(p))];
        if p.ok {
          stop := HandleSuccess(callId, p);
        } else {
          assert attempts[..from] == old(attempts) && attempts[from..] == p.attempts;
          stop := HandleFailure(callId, p, from, turn.now);
        }
    }

    // The while loop. `world` answers the k-th iteration with `world(k)`; the run
    // it returns from is the run of the first `n + 1` answers.
    method RunLoop(world: nat -> Turn) returns (result: LoopResult, ghost exit: Exit, ghost n: nat)
      requires View().calls == 0
      modifies this
      ensures Run(cfg, old(View()), Answers(world, n + 1)) == Stop(View(), exit, result)
      ensures Run(cfg, old(View()), Answers(world, n)).Continue?
    {
      hide Step, Respond, AtCall, OpenCall;
      ghost var init := View();
      var k: nat := 0;
      n := 0;
      while true
        invariant n == k == modelCallCount
        invariant Run(cfg, init, Answers(world, k)) == Continue(View())
        decreases cfg.maxCallsHard + 1 - modelCallCount
      {
        var turn := world(k);
        ghost var s := View();
        ghost var answers := Answers(world, k + 1);
        assert answers[..k] == Answers(world, k) && answers[k] == turn;
        StepByParts(cfg, s, turn);
        if turn.elapsed > cfg.budgetHard || modelCallCount > cfg.maxCallsHard {
          result, exit := Plain(BudgetExhausted, modelCallCount), ClockOrCallCap;
          return;
        }
        OpenModelCall(turn.elapsed);
        AtCallCounts(cfg, s, turn.elapsed);
        ghost var c := View();
        var stop := HandleReply(turn);
        if stop.Some? {
          result, exit := stop.value.1, stop.value.0;
          return;
        }
        var edit := RespondEdit(cfg, c, turn);
        k := k + 1;
        n := k;
      }
    }
  }

  lemma StepByParts(cfg: Config, s: State, turn: Turn)
    ensures Step(cfg, s, turn) ==
            if turn.elapsed > cfg.budgetHard || s.calls > cfg.maxCallsHard
            then Stop(s, ClockOrCallCap, Plain(BudgetExhausted, s.calls))
            else Respond(cfg, AtCall(cfg, s, turn.elapsed), turn)
  {
  }

  lemma AtCallCounts(cfg: Config, s: State, elapsed: real)
    ensures AtCall(cfg, s, elapsed).calls == s.calls + 1
  {
  }
}
