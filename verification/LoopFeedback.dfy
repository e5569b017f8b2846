// What an iteration leaves behind: the attempts of the run, the message the model
// is shown next, the head of the next call, and the result of a run that ends.

module LoopFeedback {
  import opened Options
  import opened Window
  import opened WindowProofs
  import opened WindowInv
  import opened WindowBudget
  import opened Grounding
  import opened Loop
  import opened LoopWindow
  import opened LoopOutcomes

  // ------------------------------------------------------- the attempts of a run

  // A pending approval is expired for the failed program; any other is untouched.
  predicate ApprovalExpired(before: Option<Approval>, after: Option<Approval>, now: int)
  {
    if before.Some? && before.value.status == Pending then
      && after.Some? && after.value.status == ExpiredRequest && after.value.decisionReason == Some("program_failed")
      && after.value.decidedAt == Some(now) && after.value.updatedAt == now
    else after == before
  }

  // An attempt after its program failed: expired if it was awaiting approval, and
  // otherwise as it was.
  predicate ExpiredBy(before: Attempt, after: Attempt, now: int)
  {
    if before.status == AwaitingApproval then
      && after.status == Expired && after.policyReason == Some("program_failed") && after.updatedAt == now
      && ApprovalExpired(before.approval, after.approval, now)
      && after.id == before.id && after.capability == before.capability
      && after.impactLevel == before.impactLevel && after.output == before.output
    else after == before
  }

  // The program fails, and not in the way of the one before it.
  predicate FailsAnew(cfg: Config, s: State, turn: Turn)
  {
    Executes(cfg, s, turn) && !turn.reply.result.ok && !RepeatsErrors(s, turn.reply.result)
  }

  // What an iteration does to the attempts: those of earlier programs stay, those
  // of the program it executes are added, expired exactly if it fails anew and
  // voiding is on.
  ghost predicate AttemptsAfter(cfg: Config, s: State, turn: Turn, after: seq<Attempt>)
  {
    var n := |s.attempts|;
    if !Executes(cfg, s, turn) then after == s.attempts
    else
      var added := turn.reply.result.attempts;
      && |after| == n + |added| && after[..n] == s.attempts
      && forall i :: 0 <= i < |added| ==>
           if FailsAnew(cfg, s, turn) && cfg.voidFailedApprovals then ExpiredBy(added[i], after[n + i], turn.now)
           else after[n + i] == added[i]
  }

  lemma AttemptsExactly(cfg: Config, s: State, turn: Turn)
    ensures AttemptsAfter(cfg, s, turn, Step(cfg, s, turn).state.attempts)
  {
    hide OpenCall, AppendRound, AppendEmitRound, Terminal, GroundingRejects, AwaitingIds;
    if turn.reply.RunCall? {
      var p := turn.reply.result;
      assert (s.attempts + p.attempts)[..|s.attempts|] == s.attempts;
      assert (s.attempts + VoidAll(p.attempts, turn.now))[..|s.attempts|] == s.attempts;
    }
  }

  // No attempt is touched again once its program is over: what `AttemptsExactly`
  // says of an iteration holds to the end of the run.
  lemma {:induction false} AttemptsStay(cfg: Config, init: State, turns: seq<Turn>, more: seq<Turn>)
    ensures Run(cfg, init, turns).state.attempts <= Run(cfg, init, turns + more).state.attempts
    decreases |more|
  {
    hide Step;
    if more == [] {
      assert turns + more == turns;
    } else {
      var all, init' := turns + more, more[..|more| - 1];
      assert all[..|all| - 1] == turns + init';
      AttemptsStay(cfg, init, turns, init');
      var before := Run(cfg, init, turns + init');
      if before.Continue? {
        AttemptsExactly(cfg, before.state, all[|all| - 1]);
      }
    }
  }

  // ------------------------------------------------------- the round shown next

  // What the program reports as its errors.
  function ReportedErrors(p: ProgramResult): seq<string>
  {
    match p.programError
    case None => p.callbackErrors
    case Some(e) => [e] + p.callbackErrors
  }

  // A first call that both reads and speaks.
  predicate SpeaksTooSoon(cfg: Config, s: State, p: ProgramResult)
  {
    && cfg.mode == MessageMode && s.calls == 0 && p.message != ""
    && exists i :: 0 <= i < |p.attempts| && p.attempts[i].impactLevel == "read"
  }

  // The message of a clean program is dropped for want of grounding.
  predicate Ungrounded(cfg: Config, s: State, p: ProgramResult)
  {
    cfg.mode == MessageMode && Speaks(s, p) && !Satisfied(s.attempts + p.attempts, cfg.grounding)
  }

  // The answer of a round that makes a tool call.
  function Answer(cfg: Config, s: State, p: ProgramResult): ReturnKind
  {
    if !p.ok then ProgramFailure(ReportedErrors(p))
    else if Ungrounded(cfg, s, p) then MessageRejected
    else if p.values != [] then Values(p.values)
    else SyscallTrace(SpeaksTooSoon(cfg, s, p))
  }

  // The messages that tell the model how this turn went.
  predicate Tells(cfg: Config, s: State, turn: Turn, ms: seq<Msg>)
  {
    var round := s.calls + 1;
    match turn.reply
    case ModelError(_) => ms == []
    case BadProtocol(ids) =>
      |ms| == 2 && ms[0] == ToolCalls(round, ids) && ms[1].ToolReturns? && ms[1].round == round
      && ms[1].callIds == NonEmptyIds(ids) && ms[1].kind == ProtocolFailure
    case RunCall(id, _, p) =>
      if p.ok && !Ungrounded(cfg, s, p) && p.values == [] && p.attempts == [] then ms == [NoOutput(round)]
      else
        |ms| == 2 && ms[0] == ToolCalls(round, [id]) && ms[1].ToolReturns? && ms[1].round == round
        && ms[1].callIds == NonEmptyIds([id]) && ms[1].kind == Answer(cfg, s, p)
  }

  // The messages of the newest round of a window.
  function Newest(w: Window): seq<Msg>
  {
    if w.spans == [] then []
    else
      var sp := w.spans[|w.spans| - 1];
      if 0 <= sp.start <= sp.end <= |w.messages| then w.messages[sp.start..sp.end] else []
  }

  // What a call that goes on appends.
  lemma RespondTells(cfg: Config, s: State, turn: Turn, c: State) returns (edit: Edit)
    requires c == AtCall(cfg, s, turn.elapsed) && Respond(cfg, c, turn).Continue? && !turn.reply.ModelError?
    ensures edit.Record? || edit.RecordEmit?
    ensures Tells(cfg, s, turn, edit.block) && IsBlock(edit.block, c.calls)
    ensures Respond(cfg, c, turn).state.window == Apply(c.window, c.calls, edit, cfg.liveRounds)
  {
    hide OpenCall, AppendRound, AppendEmitRound, Satisfied, FirstAwaiting, VoidAll, AwaitingIds;
    match turn.reply
    case BadProtocol(callIds) => edit := Record(Pair(c, callIds, ProtocolFailure));
    case RunCall(callId, source, p) =>
      if !p.ok {
        assert ProgramErrors(p) == ReportedErrors(p);
        edit := Record(Pair(c, [callId], ProgramFailure(ReportedErrors(p))));
      } else {
        var ran := c.(attempts := c.attempts + p.attempts);
        assert Premature(cfg, c, p) == SpeaksTooSoon(cfg, s, p);
        assert GroundingRejects(cfg, ran, p) == Ungrounded(cfg, s, p);
        if GroundingRejects(cfg, ran, p) {
          edit := Record(Pair(c, [callId], MessageRejected));
        } else if p.values != [] {
          edit := RecordEmit(Pair(c, [callId], Values(p.values)));
        } else if p.attempts != [] {
          edit := Record(Pair(c, [callId], SyscallTrace(SpeaksTooSoon(cfg, s, p))));
        } else {
          edit := Record([NoOutput(c.calls)]);
        }
      }
  }

  // Cutting out an earlier slice leaves a later one, moved to the front.
  lemma CutKeepsLater<T>(xs: seq<T>, a: nat, b: nat, from: nat, to: nat)
    requires a <= b <= from <= to <= |xs|
    ensures (xs[..a] + xs[b..])[from - (b - a)..to - (b - a)] == xs[from..to]
  {
  }

  lemma EvictedNewest(e: Window, lo: int)
    requires |e.spans| >= 2 && SpansOk(e.spans, lo, |e.messages|) && lo >= 0
    requires e.spans[|e.spans| - 1].end == |e.messages|
    ensures Newest(Evicted(e)) == Newest(e)
    ensures var v := Evicted(e); |v.spans| > 0 && v.spans[|v.spans| - 1].end == |v.messages|
  {
    var a, b, last := e.spans[0].start, e.spans[0].end, e.spans[|e.spans| - 1];
    assert b <= last.start && last.end == |e.messages|;
    CutKeepsLater(e.messages, a, b, last.start, last.end);
    assert Evicted(e).messages == e.messages[..a] + e.messages[b..];
    assert Evicted(e).spans[|e.spans| - 2] == Span(last.start - (b - a), last.end - (b - a));
  }

  lemma ExtendedNewest(w: Window, round: nat, block: seq<Msg>)
    ensures var e := Extended(w, round, block);
            Newest(e) == block && |e.spans| == |w.spans| + 1 && e.spans[|w.spans|].end == |e.messages|
  {
    assert (w.messages + block)[|w.messages|..|w.messages| + |block|] == block;
  }

  lemma AppendedIsNewest(w: Window, stable: seq<string>, live: int, round: nat, block: seq<Msg>)
    requires FrameOk(w, stable) && live >= 1 && IsBlock(block, round)
    ensures var v := AppendRound(w, round, block, live);
            Newest(v) == block && |v.spans| > 0 && v.spans[|v.spans| - 1].end == |v.messages|
  {
    hide AppendRound, Newest, Evicted, SpansOk, Extended;
    AppendRoundEvictsExactlyOldest(w, stable, live, round, block);
    ExtendedFrame(w, stable, round, block);
    ExtendedNewest(w, round, block);
    var e := Extended(w, round, block);
    if |e.spans| > live {
      EvictedNewest(e, e.budgetIndex.value + 1);
    }
  }

  lemma OpeningKeepsNewest(w: Window, stable: seq<string>, nudge: bool, remaining: real)
    requires FrameOk(w, stable) && |w.spans| > 0
    ensures Newest(OpenCall(w, nudge, remaining)) == Newest(w)
    ensures OpenCall(w, nudge, remaining).spans == w.spans
    ensures |OpenCall(w, nudge, remaining).messages| == |w.messages| + if nudge then 1 else 0
  {
  }

  // The model is told of every answered call at the next one: the newest round of
  // the context is the one this turn calls for, with all the values, errors and
  // flags it calls for, and only a wrap-up nudge can come after it.
  lemma NextContextTells(
    cfg: Config, stable: seq<string>, prior: seq<Attempt>, turns: seq<Turn>, s: State, turn: Turn,
    elapsed: real, w: Window)
    requires ValidConfig(cfg) && Reachable(cfg, stable, prior, turns, s) && !turn.reply.ModelError?
    requires SeenAt(cfg, stable, prior, turns + [turn], elapsed, w)
    ensures Tells(cfg, s, turn, Newest(w))
    ensures var end := w.spans[|w.spans| - 1].end;
            |w.spans| > 0 && (w.messages[end..] == [] || w.messages[end..] == [WrapUp])
  {
    hide Respond, OpenCall, AppendRound, AppendEmitRound, Tells, Inv;
    assert (turns + [turn])[..|turns|] == turns;
    var t :| Reachable(cfg, stable, prior, turns + [turn], t) && !OutOfBudget(cfg, t, elapsed)
             && w == AtCall(cfg, t, elapsed).window;
    ReachableInv(cfg, stable, prior, turns, s);
    AtCallInv(cfg, s, stable, turn.elapsed);
    var c := AtCall(cfg, s, turn.elapsed);
    assert Step(cfg, s, turn) == Continue(t);
    var edit := RespondTells(cfg, s, turn, c);
    EditIsNewest(c.window, stable, c.calls - 1, edit, cfg.liveRounds);
    ReachableInv(cfg, stable, prior, turns + [turn], t);
    NextOpens(t.window, stable, t.calls, cfg.liveRounds, NudgeDue(cfg, t, elapsed), Remaining(cfg, elapsed));
  }

  lemma EditIsNewest(w: Window, stable: seq<string>, rounds: nat, edit: Edit, live: int)
    requires Inv(w, stable, rounds, live) && live >= 1 && !edit.Keep? && IsBlock(edit.block, rounds + 1)
    ensures var v := Apply(w, rounds + 1, edit, live);
            Newest(v) == edit.block && |v.spans| > 0 && v.spans[|v.spans| - 1].end == |v.messages|
  {
    hide AppendRound, Newest, SlicesOk, ReturnsPaired;
    if edit.RecordEmit? {
      RetailedOk(w, stable, rounds, live);
      AppendedIsNewest(Retailed(w), stable, live, rounds + 1, edit.block);
    } else {
      AppendedIsNewest(w, stable, live, rounds + 1, edit.block);
    }
  }

  lemma NextOpens(w: Window, stable: seq<string>, calls: nat, live: int, nudge: bool, remaining: real)
    requires Inv(w, stable, calls, live) && |w.spans| > 0 && w.spans[|w.spans| - 1].end == |w.messages|
    ensures var v := OpenCall(w, nudge, remaining);
            && Newest(v) == Newest(w) && v.spans == w.spans
            && v.messages[|w.messages|..] == if nudge then [WrapUp] else []
  {
    hide SlicesOk, ReturnsPaired, Newest;
    OpeningKeepsNewest(w, stable, nudge, remaining);
  }

  // ---------------------------------------------------- heads, retries, results

  // Past a soft limit the nudge is there from then on, and not before.
  lemma NudgedExactly(cfg: Config, s: State, elapsed: real)
    ensures AtCall(cfg, s, elapsed).window.wrapUpInjected
            <==> s.window.wrapUpInjected || elapsed > cfg.budgetSoft || s.calls > cfg.maxCallsSoft
    ensures s.window.budgetIndex.Some? && 0 <= s.window.budgetIndex.value < |s.window.messages| ==>
              var added := AtCall(cfg, s, elapsed).window.messages[|s.window.messages|..];
              added == if !s.window.wrapUpInjected && (elapsed > cfg.budgetSoft || s.calls > cfg.maxCallsSoft)
                       then [WrapUp] else []
    ensures elapsed <= cfg.budgetHard ==> Remaining(cfg, elapsed) == cfg.budgetHard - elapsed
    ensures elapsed > cfg.budgetHard ==> Remaining(cfg, elapsed) == 0.0
  {
  }

  // An iteration ends the run before its call exactly past the hard budget or the
  // hard cap of calls.
  lemma StopsAtHeadExactly(cfg: Config, s: State, turn: Turn)
    ensures Step(cfg, s, turn).Stop? && Step(cfg, s, turn).exit == ClockOrCallCap
            <==> turn.elapsed > cfg.budgetHard || s.calls > cfg.maxCallsHard
    ensures Step(cfg, s, turn).Stop? && Step(cfg, s, turn).exit == ClockOrCallCap ==> Step(cfg, s, turn).state == s
  {
    hide OpenCall, AppendRound, AppendEmitRound, Satisfied, FirstAwaiting, VoidAll, AwaitingIds, Premature;
  }

  // A failed model call is retried exactly if the run retries and the error allows
  // it; otherwise it ends the run, and nothing else ends it so.
  lemma ModelFailedExactly(cfg: Config, s: State, turn: Turn)
    ensures var next := Step(cfg, s, turn);
            && (next.Stop? && next.result.outcome == ModelFailed
                <==> && !OutOfBudget(cfg, s, turn.elapsed) && turn.reply.ModelError?
                     && !(cfg.retryOnModelError && turn.reply.retryable))
            && (!OutOfBudget(cfg, s, turn.elapsed) && turn.reply.ModelError? && next.Continue? ==>
                  next.state == AtCall(cfg, s, turn.elapsed))
  {
    hide OpenCall, AppendRound, AppendEmitRound, Satisfied, FirstAwaiting, VoidAll, AwaitingIds, Premature;
  }

  // The result of a run names its outcome by its exit, carries only what that
  // outcome carries, and counts the calls made.
  lemma ResultExactly(cfg: Config, s: State, turn: Turn)
    requires Step(cfg, s, turn).Stop?
    ensures var end := Step(cfg, s, turn); var r := end.result;
            && r.calls == end.state.calls == s.calls + (if OutOfBudget(cfg, s, turn.elapsed) then 0 else 1)
            && (r.outcome == BudgetExhausted <==> end.exit in {ClockOrCallCap, RepeatedSource, IdenticalErrors})
            && (r.outcome == ModelFailed <==> end.exit == ModelFailure)
            && (r.outcome == Message <==> end.exit == EmittedMessage)
            && (r.outcome == Finding <==> end.exit == EmittedFinding)
            && (r.outcome == Operations <==> end.exit == EmittedOperations)
            && (r.outcome == ApprovalOutcome <==> end.exit == StagedApproval)
            && (r.outcome == Silent <==> end.exit in {GroundingExhausted, FinishedSilent})
            && r.message == (if r.outcome == Message then Some(turn.reply.result.message) else None)
            && (r.awaiting.Some? <==> r.outcome == ApprovalOutcome)
            && r.silentReason == if end.exit == GroundingExhausted then "grounding_unrecoverable"
                                 else if end.exit == FinishedSilent then turn.reply.result.silentReason
                                 else ""
  {
    hide OpenCall, AppendRound, AppendEmitRound, Satisfied, VoidAll, AwaitingIds, Premature, FirstAwaiting;
  }
}
