// Which approvals of a run are live, at every loop head and at every end.

module LoopApprovals {
  import opened Options
  import opened Json
  import opened Window
  import opened Grounding
  import opened Loop
  import opened LoopOutcomes

  // The attempts that a run created, past those the turn already had.
  function Own(prior: seq<Attempt>, attempts: seq<Attempt>): seq<Attempt>
  {
    if |prior| <= |attempts| then attempts[|prior|..] else []
  }

  lemma {:induction false} AwaitingIdsAppend(a: seq<Attempt>, b: seq<Attempt>)
    ensures AwaitingIds(a + b) == AwaitingIds(a) + AwaitingIds(b)
  {
    if a == [] {
      assert a + b == b;
    } else {
      assert (a + b)[1..] == a[1..] + b;
      AwaitingIdsAppend(a[1..], b);
    }
  }

  lemma {:induction false} NoneAwaitingVoided(attempts: seq<Attempt>, now: int)
    ensures AwaitingIds(VoidAll(attempts, now)) == []
  {
    if attempts != [] {
      assert VoidAll(attempts, now)[1..] == VoidAll(attempts[1..], now);
      NoneAwaitingVoided(attempts[1..], now);
    }
  }

  lemma {:induction false} FirstAwaitingExists(attempts: seq<Attempt>)
    ensures FirstAwaiting(attempts).None? <==> AwaitingIds(attempts) == []
  {
    if attempts != [] {
      FirstAwaitingExists(attempts[1..]);
    }
  }

  // The approvals the programs of these answers staged, in order.
  function StagedBy(turns: seq<Turn>): seq<string>
  {
    if turns == [] then []
    else
      var last := turns[|turns| - 1];
      StagedBy(turns[..|turns| - 1]) + if last.reply.RunCall? then AwaitingIds(last.reply.result.attempts) else []
  }

  // The exits that leave the approvals of the last program as they are.
  predicate LeavesApprovals(exit: Exit)
  {
    exit in {IdenticalErrors, EmittedMessage, GroundingExhausted, StagedApproval}
  }

  // What the state after a reply says of this run's approvals, given those the
  // reply staged.
  ghost predicate ApprovalsAfter(prior: seq<Attempt>, expired: seq<string>, staged: seq<string>, next: Next)
  {
    match next
    case Continue(t) =>
      && prior <= t.attempts && AwaitingIds(Own(prior, t.attempts)) == []
      && t.expiredEvents == expired + staged
    case Stop(t, exit, _) =>
      && prior <= t.attempts && t.expiredEvents == expired
      && AwaitingIds(Own(prior, t.attempts))
         == if LeavesApprovals(exit) then staged else []
  }

  // `s` holds the program's attempts already.
  lemma SuccessApprovals(
    cfg: Config, prior: seq<Attempt>, own: seq<Attempt>, s: State, callId: string, p: ProgramResult)
    requires cfg.mode == MessageMode && s.attempts == prior + own + p.attempts && AwaitingIds(own) == []
    ensures ApprovalsAfter(prior, s.expiredEvents, AwaitingIds(p.attempts), AfterSuccess(cfg, s, callId, p))
  {
    hide AppendRound, AppendEmitRound, Satisfied, Premature, AwaitingIds, FirstAwaiting;
    assert Own(prior, s.attempts) == own + p.attempts;
    AwaitingIdsAppend(own, p.attempts);
    FirstAwaitingExists(p.attempts);
  }

  lemma FailureApprovals(
    cfg: Config, prior: seq<Attempt>, own: seq<Attempt>, s: State, callId: string, p: ProgramResult, now: int)
    requires cfg.voidFailedApprovals && s.attempts == prior + own + p.attempts && AwaitingIds(own) == []
    ensures var next := AfterFailure(cfg, s, prior + own, callId, p, now);
            ApprovalsAfter(prior, s.expiredEvents, AwaitingIds(p.attempts), next)
  {
    hide AppendRound, AwaitingIds, VoidAll;
    var voided := VoidAll(p.attempts, now);
    assert Own(prior, s.attempts) == own + p.attempts && Own(prior, prior + own + voided) == own + voided;
    AwaitingIdsAppend(own, p.attempts);
    AwaitingIdsAppend(own, voided);
    NoneAwaitingVoided(p.attempts, now);
  }

  lemma ApprovalStep(cfg: Config, prior: seq<Attempt>, s: State, turn: Turn)
    requires cfg.mode == MessageMode && cfg.voidFailedApprovals
    requires prior <= s.attempts && AwaitingIds(Own(prior, s.attempts)) == []
    ensures var staged := if turn.reply.RunCall? then AwaitingIds(turn.reply.result.attempts) else [];
            ApprovalsAfter(prior, s.expiredEvents, staged, Step(cfg, s, turn))
  {
    hide OpenCall, AppendRound, AwaitingIds, AfterSuccess, AfterFailure;
    if !OutOfBudget(cfg, s, turn.elapsed) && turn.reply.RunCall? && s.prevSource != Some(turn.reply.source) {
      var own, c, p := Own(prior, s.attempts), AtCall(cfg, s, turn.elapsed), turn.reply.result;
      assert prior + own == s.attempts;
      var ran := c.(prevSource := Some(turn.reply.source), attempts := c.attempts + p.attempts,
                    executed := c.executed + [Executed(turn.reply.source, p.ok, ProgramErrors(p))]);
      if p.ok {
        SuccessApprovals(cfg, prior, own, ran, turn.reply.callId, p);
      } else {
        FailureApprovals(cfg, prior, own, ran, turn.reply.callId, p, turn.now);
      }
    }
  }

  // At every loop head no attempt of this run awaits approval, and exactly the
  // approvals its programs staged have been expired, one event each.
  lemma {:induction false} HeadsHaveNoLiveApproval(cfg: Config, stable: seq<string>, prior: seq<Attempt>,
                                                   turns: seq<Turn>, s: State)
    requires cfg.mode == MessageMode && cfg.voidFailedApprovals && Reachable(cfg, stable, prior, turns, s)
    ensures prior <= s.attempts && AwaitingIds(Own(prior, s.attempts)) == []
    ensures s.expiredEvents == StagedBy(turns)
  {
    if turns != [] {
      var before := Run(cfg, InitialState(stable, prior), turns[..|turns| - 1]).state;
      HeadsHaveNoLiveApproval(cfg, stable, prior, turns[..|turns| - 1], before);
      hide Step, AwaitingIds;
      ApprovalStep(cfg, prior, before, turns[|turns| - 1]);
    }
  }

  // Exactly when an iteration leaves an approval of this run live: its program
  // staged one and was clean, or repeated the errors of the one before it.
  lemma LiveApprovalsExactly(
    cfg: Config, stable: seq<string>, prior: seq<Attempt>, turns: seq<Turn>, turn: Turn, s: State)
    requires cfg.mode == MessageMode && cfg.voidFailedApprovals && Reachable(cfg, stable, prior, turns, s)
    ensures AwaitingIds(Own(prior, Step(cfg, s, turn).state.attempts)) != []
            <==> && Executes(cfg, s, turn) && AwaitingIds(turn.reply.result.attempts) != []
                 && (turn.reply.result.ok || RepeatsErrors(s, turn.reply.result))
  {
    HeadsHaveNoLiveApproval(cfg, stable, prior, turns, s);
    ApprovalStep(cfg, prior, s, turn);
    hide Step, AwaitingIds, Accepted, Exhausts;
    if Executes(cfg, s, turn) {
      FirstAwaitingExists(turn.reply.result.attempts);
      ProgramEndsExactly(cfg, s, turn);
    } else {
      NotExecuted(cfg, s, turn);
    }
  }

  // Without an executed program the run ends on the budget, a repeated source or
  // a failed model, or goes on.
  lemma NotExecuted(cfg: Config, s: State, turn: Turn)
    requires !Executes(cfg, s, turn)
    ensures Step(cfg, s, turn).Stop? ==> Step(cfg, s, turn).exit in {ClockOrCallCap, RepeatedSource, ModelFailure}
    ensures Step(cfg, s, turn).state.attempts == s.attempts
    ensures Step(cfg, s, turn).Stop? ==> Step(cfg, s, turn).result.awaiting.None?
  {
    hide OpenCall, AppendRound, AfterSuccess, AfterFailure;
  }

  // The approvals that the result of a run tells its caller of.
  function Reported(result: LoopResult): seq<string>
  {
    if result.awaiting.Some? then [result.awaiting.value.id] else []
  }

  // The program ends the run with approvals its result says nothing of, or not all.
  predicate Withholds(cfg: Config, s: State, p: ProgramResult)
  {
    || RepeatsErrors(s, p) || Accepted(cfg, s, p) || Exhausts(cfg, s, p)
    || (p.ok && |AwaitingIds(p.attempts)| >= 2)
  }

  lemma {:induction false} FirstOfAwaiting(attempts: seq<Attempt>)
    requires FirstAwaiting(attempts).Some?
    ensures AwaitingIds(attempts) != [] && FirstAwaiting(attempts).value.id == AwaitingIds(attempts)[0]
  {
    if attempts[0].status != AwaitingApproval {
      FirstOfAwaiting(attempts[1..]);
    }
  }

  lemma ResultAwaits(cfg: Config, s: State, turn: Turn)
    requires cfg.mode == MessageMode && Executes(cfg, s, turn) && Step(cfg, s, turn).Stop?
    ensures var end, attempts := Step(cfg, s, turn), turn.reply.result.attempts;
            end.result.awaiting == if end.exit == StagedApproval then FirstAwaiting(attempts) else None
  {
    hide OpenCall, AppendRound, AppendEmitRound, Satisfied, FirstAwaiting, VoidAll, AwaitingIds, Premature;
  }

  // The result of a run reports exactly its live approvals, unless the last
  // program staged one and then repeated errors, spoke a message that was
  // accepted or one that was once too often ungrounded, or staged a second one.
  lemma ReportExactly(cfg: Config, stable: seq<string>, prior: seq<Attempt>, turns: seq<Turn>, turn: Turn, s: State)
    requires cfg.mode == MessageMode && cfg.voidFailedApprovals && Reachable(cfg, stable, prior, turns, s)
    requires Step(cfg, s, turn).Stop?
    ensures var end := Step(cfg, s, turn);
            AwaitingIds(Own(prior, end.state.attempts)) == Reported(end.result)
            <==> !(&& Executes(cfg, s, turn) && AwaitingIds(turn.reply.result.attempts) != []
                   && Withholds(cfg, s, turn.reply.result))
  {
    HeadsHaveNoLiveApproval(cfg, stable, prior, turns, s);
    ApprovalStep(cfg, prior, s, turn);
    hide Step, AwaitingIds, FirstAwaiting, Accepted, Exhausts, RepeatsErrors;
    if Executes(cfg, s, turn) {
      var attempts := turn.reply.result.attempts;
      FirstAwaitingExists(attempts);
      if FirstAwaiting(attempts).Some? {
        FirstOfAwaiting(attempts);
      }
      ProgramEndsExactly(cfg, s, turn);
      ResultAwaits(cfg, s, turn);
    } else {
      NotExecuted(cfg, s, turn);
    }
  }

  // -------------------------------------------------------------- runs that do so

  function Staged(id: string): Attempt
  {
    var pending := Some(Approval(Pending, None, None, 0));
    Attempt(id, "cap.email.send", "external_send", AwaitingApproval, None, pending, JNull, 0)
  }

  // Two programs that fail alike, the second with an approval staged: under every
  // message configuration the run ends with that approval live and unreported.
  function Failing(source: string, attempts: seq<Attempt>): Turn
  {
    Turn(0.0, 0, RunCall("", source, ProgramResult(false, Some("boom"), [], attempts, "", [], None, None, false, "")))
  }

  lemma IdenticalErrorsCanLeak(cfg: Config)
    requires ValidConfig(cfg) && cfg.mode == MessageMode && cfg.voidFailedApprovals
    ensures exists turns ::
              var end := Run(cfg, InitialState([], []), turns);
              && end.Stop? && end.result.outcome == BudgetExhausted && end.result.awaiting.None?
              && AwaitingIds(Own([], end.state.attempts)) != []
  {
    hide OpenCall, AppendRound;
    var staged := Staged("a");
    var first, second := Failing("one", []), Failing("two", [staged]);
    var s0 := InitialState([], []);
    var s1 := Step(cfg, s0, first).state;
    var end := Step(cfg, s1, second);
    assert ProgramErrors(first.reply.result) == ["boom"] && ProgramErrors(second.reply.result) == ["boom"];
    assert s1.attempts == [] && s1.lastErrors == Some(["boom"]) && s1.prevSource == Some("one") && s1.calls == 1;
    assert end == Stop(end.state, IdenticalErrors, end.result) && end.state.attempts == [] + [staged];
    assert Own([], end.state.attempts) == [staged];
    assert Run(cfg, s0, [first]) == Continue(s1) by { assert [first][..0] == []; }
    assert Run(cfg, s0, [first, second]) == end by { assert [first, second][..1] == [first]; }
  }

  // The same for a third ungrounded message whose program also stages an approval.
  function Speaking(source: string, attempts: seq<Attempt>): Turn
  {
    Turn(0.0, 0, RunCall("", source, ProgramResult(true, None, [], attempts, "hello", [], None, None, false, "")))
  }

  lemma RejectedTwice(cfg: Config, s: State, source: string)
    requires ValidConfig(cfg) && cfg.mode == MessageMode && s.rejections < GROUNDING_REJECTION_LIMIT
    requires s.calls <= cfg.maxCallsHard && s.prevSource != Some(source) && !Satisfied(s.attempts, cfg.grounding)
    ensures var next := Step(cfg, s, Speaking(source, []));
            && next.Continue? && next.state.attempts == s.attempts && next.state.calls == s.calls + 1
            && next.state.prevSource == Some(source) && next.state.rejections == s.rejections + 1
  {
    hide OpenCall, AppendRound, Satisfied;
    assert s.attempts + [] == s.attempts;
  }

  lemma RejectedOut(cfg: Config, s: State, source: string, attempts: seq<Attempt>)
    requires ValidConfig(cfg) && cfg.mode == MessageMode && s.rejections == GROUNDING_REJECTION_LIMIT
    requires 1 <= s.calls <= cfg.maxCallsHard && s.prevSource != Some(source)
    requires !Satisfied(s.attempts + attempts, cfg.grounding)
    ensures var end := Step(cfg, s, Speaking(source, attempts));
            && end.Stop? && end.exit == GroundingExhausted && end.result.outcome == Silent
            && end.state.attempts == s.attempts + attempts
  {
    hide OpenCall, AppendRound, Satisfied, Terminal, AppendEmitRound;
  }

  // A run that exhausts its grounding rail and keeps an approval live.
  ghost predicate ExhaustsLive(cfg: Config, stable: seq<string>, prior: seq<Attempt>, turns: seq<Turn>)
  {
    var end := Run(cfg, InitialState(stable, prior), turns);
    && end.Stop? && end.exit == GroundingExhausted && end.result.outcome == Silent && end.result.awaiting.None?
    && AwaitingIds(Own(prior, end.state.attempts)) != []
  }

  lemma ThreeRejections(cfg: Config) returns (turns: seq<Turn>)
    requires ValidConfig(cfg) && cfg.mode == MessageMode && cfg.maxCallsHard >= 2 && !Satisfied([], cfg.grounding)
    ensures ExhaustsLive(cfg, [], [], turns)
  {
    var first, second, third := Speaking("one", []), Speaking("two", []), Speaking("three", [Staged("a")]);
    var s0 := InitialState([], []);
    RejectedTwice(cfg, s0, "one");
    var s1 := Step(cfg, s0, first).state;
    RejectedTwice(cfg, s1, "two");
    var s2 := Step(cfg, s1, second).state;
    assert s2.attempts + [Staged("a")] == [Staged("a")] && !Satisfied([Staged("a")], cfg.grounding);
    RejectedOut(cfg, s2, "three", [Staged("a")]);
    RunOfThree(cfg, s0, first, s1, second, s2, third);
    hide Step, Satisfied, Run, InitialState;
    turns := [first, second, third];
    assert Own([], Run(cfg, s0, turns).state.attempts) == [Staged("a")];
  }

  lemma {:induction false} ExhaustionNeedsDemand(
    cfg: Config, stable: seq<string>, prior: seq<Attempt>, turns: seq<Turn>)
    requires Satisfied([], cfg.grounding)
    ensures var end := Run(cfg, InitialState(stable, prior), turns); end.Stop? ==> end.exit != GroundingExhausted
  {
    if turns != [] {
      ExhaustionNeedsDemand(cfg, stable, prior, turns[..|turns| - 1]);
      hide Satisfied;
      var before := Run(cfg, InitialState(stable, prior), turns[..|turns| - 1]);
      if before.Continue? {
        UndemandedStep(cfg, before.state, turns[|turns| - 1]);
      }
    }
  }

  lemma UndemandedStep(cfg: Config, s: State, turn: Turn)
    requires Satisfied([], cfg.grounding)
    ensures Step(cfg, s, turn).Stop? ==> Step(cfg, s, turn).exit != GroundingExhausted
  {
    hide OpenCall, AppendRound, AppendEmitRound, FirstAwaiting, VoidAll, AwaitingIds, Premature;
  }

  // Under every message configuration, exactly if it demands grounding and allows
  // three calls.
  lemma ExhaustedGroundingCanLeak(cfg: Config)
    requires ValidConfig(cfg) && cfg.mode == MessageMode && cfg.voidFailedApprovals
    ensures (exists stable, prior, turns :: ExhaustsLive(cfg, stable, prior, turns))
            <==> cfg.maxCallsHard >= 2 && !Satisfied([], cfg.grounding)
  {
    if cfg.maxCallsHard >= 2 && !Satisfied([], cfg.grounding) {
      var turns := ThreeRejections(cfg);
    }
    forall stable, prior, turns | ExhaustsLive(cfg, stable, prior, turns)
      ensures cfg.maxCallsHard >= 2 && !Satisfied([], cfg.grounding)
    {
      hide Run, InitialState, Satisfied;
      RejectionsBounded(cfg, stable, prior, turns);
      HistoryWithinCalls(cfg, stable, prior, turns);
      CallsBounded(cfg, stable, prior, turns);
      if Satisfied([], cfg.grounding) {
        ExhaustionNeedsDemand(cfg, stable, prior, turns);
      }
    }
  }

  // A single program whose message is accepted, or that stages two approvals.
  lemma OneCallRun(cfg: Config, turn: Turn)
    ensures Run(cfg, InitialState([], []), [turn]) == Step(cfg, InitialState([], []), turn)
  {
    assert [turn][..0] == [];
  }

  lemma MessageCanWithhold(cfg: Config)
    requires ValidConfig(cfg) && cfg.mode == MessageMode && Satisfied([], cfg.grounding)
    ensures var end := Run(cfg, InitialState([], []), [Speaking("one", [Staged("a")])]);
            && end.Stop? && end.exit == EmittedMessage && end.result.awaiting.None?
            && AwaitingIds(Own([], end.state.attempts)) == ["a"]
  {
    OneCallRun(cfg, Speaking("one", [Staged("a")]));
    hide OpenCall, AppendRound, AppendEmitRound;
    assert [] + [Staged("a")] == [Staged("a")];
    assert AwaitingIds([Staged("a")]) == ["a"];
  }

  lemma SecondApprovalIsWithheld(cfg: Config)
    requires ValidConfig(cfg) && cfg.mode == MessageMode
    ensures var p := ProgramResult(true, None, [], [Staged("a"), Staged("b")], "", [], None, None, false, "");
            var end := Run(cfg, InitialState([], []), [Turn(0.0, 0, RunCall("", "one", p))]);
            && end.Stop? && end.exit == StagedApproval && Reported(end.result) == ["a"]
            && AwaitingIds(Own([], end.state.attempts)) == ["a", "b"]
  {
    var both := [Staged("a"), Staged("b")];
    var p := ProgramResult(true, None, [], both, "", [], None, None, false, "");
    OneCallRun(cfg, Turn(0.0, 0, RunCall("", "one", p)));
    hide OpenCall, AppendRound, AppendEmitRound;
    assert [] + both == both && both[1..] == [Staged("b")];
    assert AwaitingIds(both) == ["a"] + AwaitingIds([Staged("b")]);
  }
}
