// How runs of the agent loop end: progress, message soundness, exits.

module LoopOutcomes {
  import opened Options
  import opened Window
  import opened Grounding
  import opened Loop

  // ------------------------------------------------------------------ progress

  lemma {:induction false} CallsBounded(cfg: Config, stable: seq<string>, prior: seq<Attempt>, turns: seq<Turn>)
    requires cfg.maxCallsHard >= 0
    ensures var end := Run(cfg, InitialState(stable, prior), turns);
            end.state.calls <= cfg.maxCallsHard + 1 && (end.Continue? ==> end.state.calls == |turns|)
  {
    if turns != [] {
      CallsBounded(cfg, stable, prior, turns[..|turns| - 1]);
      hide OpenCall, AppendRound, AppendEmitRound, Terminal;
      var before := Run(cfg, InitialState(stable, prior), turns[..|turns| - 1]);
      if before.Continue? {
        CallsAfterStep(cfg, before.state, turns[|turns| - 1]);
      }
    }
  }

  lemma CallsAfterStep(cfg: Config, s: State, turn: Turn)
    ensures var c := Step(cfg, s, turn).state.calls;
            if OutOfBudget(cfg, s, turn.elapsed) then c == s.calls else c == s.calls + 1
    ensures OutOfBudget(cfg, s, turn.elapsed) ==> Step(cfg, s, turn).Stop?
  {
    hide OpenCall, AppendRound, AppendEmitRound, Terminal;
  }

  ghost predicate HasStopped(cfg: Config, stable: seq<string>, prior: seq<Attempt>, turns: seq<Turn>)
  {
    exists s, exit, result :: Run(cfg, InitialState(stable, prior), turns) == Stop(s, exit, result)
  }

  // Retries and protocol failures included, no run outlives its call cap.
  lemma EveryRunStops(cfg: Config, stable: seq<string>, prior: seq<Attempt>, turns: seq<Turn>)
    requires ValidConfig(cfg) && |turns| >= cfg.maxCallsHard + 2
    ensures HasStopped(cfg, stable, prior, turns)
  {
    CallsBounded(cfg, stable, prior, turns);
    var end := Run(cfg, InitialState(stable, prior), turns);
    assert end == Stop(end.state, end.exit, end.result);
  }

  // What the loop remembers of the programs it ran.
  ghost predicate MemoryOk(s: State)
  {
    if s.executed == [] then s.prevSource == None && s.lastErrors == None
    else
      var last := s.executed[|s.executed| - 1];
      s.prevSource == Some(last.source) && s.lastErrors == if last.ok then None else Some(last.errors)
  }

  // Two programs run one after the other, both failed with the same errors.
  ghost predicate Stuck(a: Executed, b: Executed)
  {
    !a.ok && !b.ok && a.errors == b.errors && a.errors != []
  }

  ghost predicate NeverStuck(executed: seq<Executed>)
  {
    forall i :: 0 < i < |executed| ==>
      executed[i - 1].source != executed[i].source && !Stuck(executed[i - 1], executed[i])
  }

  lemma NeverStuckAppend(executed: seq<Executed>, e: Executed)
    requires NeverStuck(executed)
    ensures NeverStuck(executed + [e]) <==>
              executed == [] || (executed[|executed| - 1].source != e.source && !Stuck(executed[|executed| - 1], e))
  {
    var longer := executed + [e];
    assert longer[|executed|] == e && forall i :: 0 <= i < |executed| ==> longer[i] == executed[i];
    if executed != [] && NeverStuck(longer) {
      assert longer[|executed| - 1].source != longer[|executed|].source;
    }
  }

  lemma ProgressStep(cfg: Config, s: State, turn: Turn)
    requires MemoryOk(s) && NeverStuck(s.executed)
    ensures match Step(cfg, s, turn)
            case Continue(t) => MemoryOk(t) && NeverStuck(t.executed)
            case Stop(t, exit, _) =>
              && (exit == IdenticalErrors <==>
                    |t.executed| == |s.executed| + 1 >= 2
                    && Stuck(t.executed[|t.executed| - 2], t.executed[|t.executed| - 1]))
              && (exit != IdenticalErrors ==> NeverStuck(t.executed))
              && (exit == RepeatedSource <==>
                    && !OutOfBudget(cfg, s, turn.elapsed) && turn.reply.RunCall? && s.executed != []
                    && turn.reply.source == s.executed[|s.executed| - 1].source)
  {
    hide OpenCall, AppendRound, AppendEmitRound, GroundingRejects, Premature, Terminal, FeedBack, NeverStuck,
          VoidAll, AwaitingIds;
    if turn.reply.RunCall? {
      var p := turn.reply.result;
      NeverStuckAppend(s.executed, Executed(turn.reply.source, p.ok, ProgramErrors(p)));
      if p.ok {
        FeedBackKeepsMemory(cfg, turn.reply.callId, p);
        TerminalExits(cfg, p);
      }
    }
  }

  lemma FeedBackKeepsMemory(cfg: Config, callId: string, p: ProgramResult)
    ensures forall t :: var f := FeedBack(cfg, t, callId, p);
              f.executed == t.executed && f.prevSource == t.prevSource && f.lastErrors == t.lastErrors
  {
    hide AppendRound, AppendEmitRound, GroundingRejects, Premature;
  }

  lemma TerminalExits(cfg: Config, p: ProgramResult)
    ensures forall t :: var r := Terminal(cfg, t, p);
              r.Some? ==> r.value.0 !in {IdenticalErrors, RepeatedSource}
  {
    hide GroundingRejects, Premature;
  }

  lemma {:induction false} ReachableProgress(cfg: Config, stable: seq<string>, prior: seq<Attempt>,
                                             turns: seq<Turn>, s: State)
    requires Reachable(cfg, stable, prior, turns, s)
    ensures MemoryOk(s) && NeverStuck(s.executed)
  {
    if turns != [] {
      var before := Run(cfg, InitialState(stable, prior), turns[..|turns| - 1]).state;
      ReachableProgress(cfg, stable, prior, turns[..|turns| - 1], before);
      hide Step;
      ProgressStep(cfg, before, turns[|turns| - 1]);
    }
  }

  // No two programs run in succession are the same, and the run ends at the
  // second of two successive programs that fail with the same errors, and only
  // there for that reason.
  lemma StuckRunsEnd(cfg: Config, stable: seq<string>, prior: seq<Attempt>, turns: seq<Turn>, turn: Turn, s: State)
    requires Reachable(cfg, stable, prior, turns, s)
    ensures NeverStuck(s.executed)
    ensures match Step(cfg, s, turn)
            case Continue(t) => NeverStuck(t.executed)
            case Stop(t, exit, _) =>
              (exit == IdenticalErrors <==>
                 |t.executed| == |s.executed| + 1 >= 2
                 && Stuck(t.executed[|t.executed| - 2], t.executed[|t.executed| - 1]))
  {
    hide Step;
    ReachableProgress(cfg, stable, prior, turns, s);
    ProgressStep(cfg, s, turn);
  }

  // ---------------------------------------------------------- message soundness

  // Exactly when an answered call ends the run with a user-visible message.
  lemma MessageExactly(cfg: Config, s: State, turn: Turn)
    ensures var next := Step(cfg, s, turn);
            next.Stop? && next.result.outcome == Message
            <==> && !OutOfBudget(cfg, s, turn.elapsed) && cfg.mode == MessageMode
                 && turn.reply.RunCall? && s.prevSource != Some(turn.reply.source)
                 && var p := turn.reply.result;
                    && p.ok && p.message != ""
                    && !(s.calls == 0 && exists i :: 0 <= i < |p.attempts| && p.attempts[i].impactLevel == "read")
                    && Satisfied(s.attempts + p.attempts, cfg.grounding)
    ensures var next := Step(cfg, s, turn);
            next.Stop? && next.result.outcome == Message ==>
              && next.result.message == Some(turn.reply.result.message)
              && next.state.attempts == s.attempts + turn.reply.result.attempts
  {
    hide OpenCall, AppendRound, AppendEmitRound, Satisfied;
  }

  // Voiding touches only awaiting attempts, so a grounding read stays one.
  lemma SatisfiedAfterAppend(attempts: seq<Attempt>, more: seq<Attempt>, ids: GroundingIds)
    requires Satisfied(attempts, ids)
    ensures Satisfied(attempts + more, ids)
  {
    if i :| 0 <= i < |attempts| && Grounds(attempts[i], ids) {
      assert Grounds((attempts + more)[i], ids);
    }
  }

  lemma GroundingStep(cfg: Config, s: State, turn: Turn)
    requires Satisfied(s.attempts, cfg.grounding)
    ensures Satisfied(Step(cfg, s, turn).state.attempts, cfg.grounding)
  {
    hide OpenCall, AppendRound, AppendEmitRound, Satisfied, GroundingRejects, Terminal;
    if turn.reply.RunCall? {
      var p := turn.reply.result;
      SatisfiedAfterAppend(s.attempts, p.attempts, cfg.grounding);
      SatisfiedAfterAppend(s.attempts, VoidAll(p.attempts, turn.now), cfg.grounding);
    }
  }

  // Once the wake is grounded it stays grounded, however the run goes on.
  lemma {:induction false} GroundingIsSticky(cfg: Config, init: State, turns: seq<Turn>, more: seq<Turn>)
    requires Satisfied(Run(cfg, init, turns).state.attempts, cfg.grounding)
    ensures Satisfied(Run(cfg, init, turns + more).state.attempts, cfg.grounding)
    decreases |more|
  {
    hide Satisfied, Step;
    if more == [] {
      assert turns + more == turns;
    } else {
      var all, init' := turns + more, more[..|more| - 1];
      assert all[..|all| - 1] == turns + init';
      GroundingIsSticky(cfg, init, turns, init');
      var before := Run(cfg, init, turns + init');
      if before.Continue? {
        GroundingStep(cfg, before.state, all[|all| - 1]);
      }
    }
  }

  // At most two rejected messages are fed back; the third one ends the run.
  lemma RejectionStep(cfg: Config, s: State, turn: Turn)
    requires s.rejections <= 2
    ensures match Step(cfg, s, turn)
            case Continue(t) => t.rejections <= 2
            case Stop(t, exit, result) =>
              && t.rejections <= 3
              && (exit == GroundingExhausted <==> t.rejections == 3)
              && (exit == GroundingExhausted ==>
                    result.outcome == Silent && result.silentReason == "grounding_unrecoverable")
  {
    hide OpenCall, AppendRound, AppendEmitRound, Satisfied, Premature;
  }

  lemma {:induction false} RejectionsBounded(cfg: Config, stable: seq<string>, prior: seq<Attempt>, turns: seq<Turn>)
    ensures match Run(cfg, InitialState(stable, prior), turns)
            case Continue(t) => t.rejections <= 2
            case Stop(t, exit, _) => t.rejections == 3 <==> exit == GroundingExhausted
  {
    if turns != [] {
      RejectionsBounded(cfg, stable, prior, turns[..|turns| - 1]);
      hide Step;
      var before := Run(cfg, InitialState(stable, prior), turns[..|turns| - 1]);
      if before.Continue? {
        RejectionStep(cfg, before.state, turns[|turns| - 1]);
      }
    }
  }

  lemma RunOfThree(cfg: Config, s0: State, a: Turn, s1: State, b: Turn, s2: State, c: Turn)
    requires Step(cfg, s0, a) == Continue(s1) && Step(cfg, s1, b) == Continue(s2)
    ensures Run(cfg, s0, [a, b, c]) == Step(cfg, s2, c)
  {
    hide Step;
    assert [a][..0] == [] && [a, b][..1] == [a] && [a, b, c][..2] == [a, b];
    assert Run(cfg, s0, []) == Continue(s0);
    assert Run(cfg, s0, [a]) == Continue(s1);
    assert Run(cfg, s0, [a, b]) == Continue(s2);
  }

  // Only successive failures are compared: a run may fail in one way, then in
  // another, then in the first way again, and goes on.
  function Broken(source: string, error: string): Turn
  {
    Turn(0.0, 0, RunCall("", source, ProgramResult(false, Some(error), [], [], "", [], None, None, false, "")))
  }

  lemma BrokenStep(cfg: Config, s: State, source: string, error: string)
    requires s.calls <= cfg.maxCallsHard && cfg.budgetHard > 0.0
    requires s.prevSource != Some(source) && s.lastErrors != Some([error])
    ensures var next := Step(cfg, s, Broken(source, error));
            && next.Continue? && next.state.calls == s.calls + 1 && next.state.prevSource == Some(source)
            && next.state.lastErrors == Some([error])
            && next.state.executed == s.executed + [Executed(source, false, [error])]
  {
    hide OpenCall, AppendRound;
    assert ProgramErrors(Broken(source, error).reply.result) == [error];
  }

  lemma ThreeFailures(cfg: Config) returns (turns: seq<Turn>)
    requires ValidConfig(cfg) && cfg.maxCallsHard >= 2
    ensures var end := Run(cfg, InitialState([], []), turns);
            end.Continue? && end.state.executed ==
            [Executed("one", false, ["a"]), Executed("two", false, ["b"]), Executed("three", false, ["a"])]
  {
    hide Step, Run, InitialWindow;
    var s0 := InitialState([], []);
    BrokenStep(cfg, s0, "one", "a");
    var s1 := Step(cfg, s0, Broken("one", "a")).state;
    BrokenStep(cfg, s1, "two", "b");
    var s2 := Step(cfg, s1, Broken("two", "b")).state;
    BrokenStep(cfg, s2, "three", "a");
    RunOfThree(cfg, s0, Broken("one", "a"), s1, Broken("two", "b"), s2, Broken("three", "a"));
    turns := [Broken("one", "a"), Broken("two", "b"), Broken("three", "a")];
  }

  // A run that goes on after errors a, b and a, with no clean program in between.
  ghost predicate GoesOnAfterRepeat(cfg: Config, stable: seq<string>, prior: seq<Attempt>, turns: seq<Turn>)
  {
    var end := Run(cfg, InitialState(stable, prior), turns);
    && end.Continue? && |end.state.executed| == 3
    && (forall i :: 0 <= i < 3 ==> !end.state.executed[i].ok)
    && end.state.executed[0].errors == end.state.executed[2].errors != []
  }

  // There is one under every configuration that allows three calls.
  lemma AlternatingErrorsGoOn(cfg: Config)
    requires ValidConfig(cfg)
    ensures (exists stable, prior, turns :: GoesOnAfterRepeat(cfg, stable, prior, turns)) <==> cfg.maxCallsHard >= 2
  {
    if cfg.maxCallsHard >= 2 {
      hide Run, InitialState;
      var turns := ThreeFailures(cfg);
      assert GoesOnAfterRepeat(cfg, [], [], turns);
    }
    forall stable, prior, turns | GoesOnAfterRepeat(cfg, stable, prior, turns)
      ensures cfg.maxCallsHard >= 2
    {
      hide Run, InitialState;
      HistoryWithinCalls(cfg, stable, prior, turns);
      CallsBounded(cfg, stable, prior, turns);
    }
  }

  lemma HistoryWithinStep(cfg: Config, s: State, turn: Turn)
    requires |s.executed| <= s.calls && s.rejections <= s.calls
    ensures var t := Step(cfg, s, turn).state; |t.executed| <= t.calls && t.rejections <= t.calls
  {
    hide OpenCall, AppendRound, AppendEmitRound, Terminal, GroundingRejects, VoidAll, AwaitingIds;
  }

  // Programs and rejected messages come one to a call.
  lemma {:induction false} HistoryWithinCalls(cfg: Config, stable: seq<string>, prior: seq<Attempt>, turns: seq<Turn>)
    ensures var end := Run(cfg, InitialState(stable, prior), turns).state;
            |end.executed| <= end.calls && end.rejections <= end.calls
  {
    if turns != [] {
      HistoryWithinCalls(cfg, stable, prior, turns[..|turns| - 1]);
      hide Step;
      var before := Run(cfg, InitialState(stable, prior), turns[..|turns| - 1]);
      if before.Continue? {
        HistoryWithinStep(cfg, before.state, turns[|turns| - 1]);
      }
    }
  }

  // ----------------------------------------------------------- how runs end

  // The call's program is executed.
  predicate Executes(cfg: Config, s: State, turn: Turn)
  {
    !OutOfBudget(cfg, s, turn.elapsed) && turn.reply.RunCall? && s.prevSource != Some(turn.reply.source)
  }

  // The program repeats the errors of the one before it.
  predicate RepeatsErrors(s: State, p: ProgramResult)
  {
    !p.ok && ProgramErrors(p) != [] && s.lastErrors == Some(ProgramErrors(p))
  }

  // The program emits a message that is not the first call's read.
  predicate Speaks(s: State, p: ProgramResult)
  {
    && p.ok && p.message != ""
    && !(s.calls == 0 && exists i :: 0 <= i < |p.attempts| && p.attempts[i].impactLevel == "read")
  }

  // Its message passes the grounding rail.
  predicate Accepted(cfg: Config, s: State, p: ProgramResult)
  {
    Speaks(s, p) && Satisfied(s.attempts + p.attempts, cfg.grounding)
  }

  // Its message is one ungrounded message too many.
  predicate Exhausts(cfg: Config, s: State, p: ProgramResult)
  {
    Speaks(s, p) && !Satisfied(s.attempts + p.attempts, cfg.grounding) && s.rejections >= 2
  }

  // How an executed program ends the run in message mode, if it does.
  lemma ProgramEndsExactly(cfg: Config, s: State, turn: Turn)
    requires cfg.mode == MessageMode && Executes(cfg, s, turn)
    ensures var next, p := Step(cfg, s, turn), turn.reply.result;
            && (next.Stop? && next.exit == IdenticalErrors <==> RepeatsErrors(s, p))
            && (next.Stop? && next.exit == EmittedMessage <==> Accepted(cfg, s, p))
            && (next.Stop? && next.exit == GroundingExhausted <==> Exhausts(cfg, s, p))
            && (next.Stop? && next.exit == StagedApproval
                <==> p.ok && !Accepted(cfg, s, p) && !Exhausts(cfg, s, p) && FirstAwaiting(p.attempts).Some?)
            && (next.Stop? && next.exit == FinishedSilent
                <==> p.ok && !Accepted(cfg, s, p) && !Exhausts(cfg, s, p) && FirstAwaiting(p.attempts).None?
                     && p.finishedSilent)
            && (next.Stop? ==>
                  next.exit in {IdenticalErrors, EmittedMessage, GroundingExhausted, StagedApproval, FinishedSilent})
  {
    hide OpenCall, AppendRound, AppendEmitRound, Satisfied, FirstAwaiting, VoidAll, AwaitingIds;
  }

  // Exactly when an iteration ends the run without a program's own say: on the
  // clock or the call cap, on a repeated source, on repeated errors.
  lemma BudgetExhaustedExactly(cfg: Config, s: State, turn: Turn)
    ensures var next := Step(cfg, s, turn);
            next.Stop? && next.result.outcome == BudgetExhausted
            <==> || OutOfBudget(cfg, s, turn.elapsed)
                 || (turn.reply.RunCall? && s.prevSource == Some(turn.reply.source))
                 || (Executes(cfg, s, turn) && RepeatsErrors(s, turn.reply.result))
  {
    hide OpenCall, AppendRound, AppendEmitRound, Satisfied, FirstAwaiting, VoidAll, AwaitingIds, Premature;
  }

  // Exactly when a finding run or an operations run ends with what it is for.
  lemma DeliveredExactly(cfg: Config, s: State, turn: Turn)
    ensures var next := Step(cfg, s, turn);
            && (next.Stop? && next.result.outcome == Finding
                <==> Executes(cfg, s, turn) && cfg.mode == FindingMode
                     && turn.reply.result.ok && turn.reply.result.finding.Some?)
            && (next.Stop? && next.result.outcome == Operations
                <==> Executes(cfg, s, turn) && cfg.mode == OperationsMode
                     && turn.reply.result.ok && turn.reply.result.done.Some?)
            && (next.Stop? ==> next.result.finding ==
                               if next.result.outcome == Finding then turn.reply.result.finding else None)
            && (next.Stop? ==> next.result.operations ==
                               if next.result.outcome == Operations then turn.reply.result.done else None)
  {
    hide OpenCall, AppendRound, AppendEmitRound, Satisfied, FirstAwaiting, VoidAll, AwaitingIds, Premature;
  }
}
