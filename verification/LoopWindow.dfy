// What holds of the context at every model call of every run of the agent loop.

module LoopWindow {
  import opened Window
  import opened WindowBound
  import opened WindowFresh
  import opened WindowBudget
  import opened WindowInv
  import opened Grounding
  import opened Loop

  ghost predicate HeadInv(cfg: Config, s: State, stable: seq<string>)
  {
    if s.calls == 0 then s.window == InitialWindow(stable) else Inv(s.window, stable, s.calls, cfg.liveRounds)
  }

  // At a model call, `s.calls` counts the call itself.
  ghost predicate CallInv(cfg: Config, s: State, stable: seq<string>)
  {
    s.calls >= 1 && Inv(s.window, stable, s.calls - 1, cfg.liveRounds)
  }

  lemma AtCallInv(cfg: Config, s: State, stable: seq<string>, elapsed: real)
    requires ValidConfig(cfg) && HeadInv(cfg, s, stable)
    ensures CallInv(cfg, AtCall(cfg, s, elapsed), stable)
  {
    hide Inv, OpenCall;
    var remaining := Remaining(cfg, elapsed);
    if s.calls == 0 {
      OpenFirstCallInv(stable, NudgeDue(cfg, s, elapsed), remaining, cfg.liveRounds);
    } else {
      OpenCallInv(s.window, stable, s.calls, cfg.liveRounds, NudgeDue(cfg, s, elapsed), remaining);
    }
  }

  // What an answered call does to the window.
  datatype Edit = Keep | Record(block: seq<Msg>) | RecordEmit(block: seq<Msg>)

  ghost function Apply(w: Window, round: nat, edit: Edit, live: int): Window
  {
    match edit
    case Keep => w
    case Record(block) => AppendRound(w, round, block, live)
    case RecordEmit(block) => AppendEmitRound(w, round, block, live)
  }

  ghost predicate EditOk(edit: Edit, round: nat)
  {
    match edit
    case Keep => true
    case Record(block) => IsBlock(block, round) && !IsValues(block[|block| - 1])
    case RecordEmit(block) => IsBlock(block, round)
  }

  lemma RespondEdit(cfg: Config, s: State, turn: Turn) returns (edit: Edit)
    requires Respond(cfg, s, turn).Continue?
    ensures EditOk(edit, s.calls)
    ensures Respond(cfg, s, turn).state.window == Apply(s.window, s.calls, edit, cfg.liveRounds)
    ensures Respond(cfg, s, turn).state.calls == s.calls
  {
    match turn.reply
    case ModelError(_) => edit := Keep;
    case BadProtocol(callIds) => edit := Record(Pair(s, callIds, ProtocolFailure));
    case RunCall(callId, source, p) =>
      if !p.ok {
        edit := Record(Pair(s, [callId], ProgramFailure(ProgramErrors(p))));
      } else {
        var ran := s.(attempts := s.attempts + p.attempts);
        if GroundingRejects(cfg, ran, p) {
          edit := Record(Pair(s, [callId], MessageRejected));
        } else if p.values != [] {
          edit := RecordEmit(Pair(s, [callId], Values(p.values)));
        } else if p.attempts != [] {
          edit := Record(Pair(s, [callId], SyscallTrace(Premature(cfg, s, p))));
        } else {
          edit := Record([NoOutput(s.calls)]);
        }
      }
  }

  lemma ApplyInv(w: Window, stable: seq<string>, rounds: nat, edit: Edit, live: int)
    requires Inv(w, stable, rounds, live) && EditOk(edit, rounds + 1)
    ensures Inv(Apply(w, rounds + 1, edit, live), stable, rounds + 1, live)
  {
    match edit
    case Keep => SilentCallInv(w, stable, rounds, live);
    case Record(block) => AppendRoundInv(w, stable, rounds, live, block);
    case RecordEmit(block) => AppendEmitRoundInv(w, stable, rounds, live, block);
  }

  lemma ApplyTail(w: Window, stable: seq<string>, rounds: nat, edit: Edit, live: int)
    requires Inv(w, stable, rounds, live) && EditOk(edit, rounds + 1) && w.emitTail.Some?
    ensures var v := Apply(w, rounds + 1, edit, live); v.emitTail.Some? && v.emitTail.value <= w.emitTail.value
  {
    if edit.RecordEmit? {
      AppendEmitRoundSize(w, stable, rounds, live, rounds + 1, edit.block);
    }
  }

  lemma RespondInv(cfg: Config, s: State, stable: seq<string>, turn: Turn)
    requires CallInv(cfg, s, stable) && Respond(cfg, s, turn).Continue?
    ensures HeadInv(cfg, Respond(cfg, s, turn).state, stable)
    ensures Respond(cfg, s, turn).state.calls == s.calls
  {
    hide Respond, Apply, Inv;
    var edit := RespondEdit(cfg, s, turn);
    ApplyInv(s.window, stable, s.calls - 1, edit, cfg.liveRounds);
  }

  lemma {:induction false} ReachableInv(cfg: Config, stable: seq<string>, prior: seq<Attempt>,
                                        turns: seq<Turn>, s: State)
    requires ValidConfig(cfg) && Reachable(cfg, stable, prior, turns, s)
    ensures HeadInv(cfg, s, stable) && s.calls == |turns|
  {
    if turns != [] {
      var init, last := turns[..|turns| - 1], turns[|turns| - 1];
      var before := Run(cfg, InitialState(stable, prior), init).state;
      ReachableInv(cfg, stable, prior, init, before);
      AtCallInv(cfg, before, stable, last.elapsed);
      RespondInv(cfg, AtCall(cfg, before, last.elapsed), stable, last);
    }
  }

  // ------------------------------------------------------------- main results

  // The context the model sees at the next call after `turns`.
  ghost predicate SeenAt(
    cfg: Config, stable: seq<string>, prior: seq<Attempt>, turns: seq<Turn>, elapsed: real, w: Window)
  {
    exists s ::
      && Reachable(cfg, stable, prior, turns, s) && !OutOfBudget(cfg, s, elapsed)
      && w == AtCall(cfg, s, elapsed).window
  }

  lemma SeenInv(cfg: Config, stable: seq<string>, prior: seq<Attempt>, turns: seq<Turn>, elapsed: real, w: Window)
    requires ValidConfig(cfg) && SeenAt(cfg, stable, prior, turns, elapsed, w)
    ensures Inv(w, stable, |turns|, cfg.liveRounds) && |turns| <= cfg.maxCallsHard
  {
    var s :|
      && Reachable(cfg, stable, prior, turns, s) && !OutOfBudget(cfg, s, elapsed)
      && w == AtCall(cfg, s, elapsed).window;
    ReachableInv(cfg, stable, prior, turns, s);
    AtCallInv(cfg, s, stable, elapsed);
  }

  // However the rounds are mixed, the context stays short.
  lemma EveryContextIsBounded(cfg: Config, stable: seq<string>, prior: seq<Attempt>, turns: seq<Turn>,
                              elapsed: real, w: Window)
    requires ValidConfig(cfg) && SeenAt(cfg, stable, prior, turns, elapsed, w)
    ensures |w.messages| <= |stable| + 2 + 4 * cfg.liveRounds
  {
    SeenInv(cfg, stable, prior, turns, elapsed, w);
    ContextBound(w, stable, |turns|, cfg.liveRounds);
  }

  // The stable prefix is untouched, the budget slot holds the line of this very
  // call, which is the only one, and the live spans are increasing, disjoint
  // slices past that slot, each of them exactly the block that its round appended,
  // in the order of the rounds.
  lemma EveryWindowIsWellFormed(cfg: Config, stable: seq<string>, prior: seq<Attempt>, turns: seq<Turn>,
                                elapsed: real, w: Window)
    requires ValidConfig(cfg) && SeenAt(cfg, stable, prior, turns, elapsed, w)
    ensures |stable| < |w.messages| && forall i :: 0 <= i < |stable| ==> w.messages[i] == Stable(stable[i])
    ensures w.budgetIndex.Some? && |stable| <= w.budgetIndex.value <= |stable| + 1 && w.budgetIndex.value < |w.messages|
    ensures w.messages[w.budgetIndex.value] == BudgetLine(Remaining(cfg, elapsed))
    ensures forall i :: 0 <= i < |w.messages| && w.messages[i].BudgetLine? ==> i == w.budgetIndex.value
    ensures |w.spans| <= cfg.liveRounds && SpansOk(w.spans, w.budgetIndex.value + 1, |w.messages|)
    ensures forall k :: 0 <= k < |w.spans| ==> SliceOk(w, w.spans[k], |turns|)
    ensures forall j, k :: 0 <= j < k < |w.spans| ==> RoundOf(w, w.spans[j]) < RoundOf(w, w.spans[k])
  {
    SeenInv(cfg, stable, prior, turns, elapsed, w);
    SeenBudget(cfg, stable, prior, turns, elapsed, w);
  }

  lemma SeenBudget(cfg: Config, stable: seq<string>, prior: seq<Attempt>, turns: seq<Turn>, elapsed: real, w: Window)
    requires ValidConfig(cfg) && SeenAt(cfg, stable, prior, turns, elapsed, w)
    ensures w.budgetIndex.Some? && 0 <= w.budgetIndex.value < |w.messages|
    ensures w.messages[w.budgetIndex.value] == BudgetLine(Remaining(cfg, elapsed))
  {
    var s :|
      && Reachable(cfg, stable, prior, turns, s) && !OutOfBudget(cfg, s, elapsed)
      && w == AtCall(cfg, s, elapsed).window;
    ReachableInv(cfg, stable, prior, turns, s);
    hide Reachable, OpenCall;
    OpenCallWritesBudget(s.window, stable, NudgeDue(cfg, s, elapsed), Remaining(cfg, elapsed));
  }

  // In every run each tool return sits right after the tool calls it answers.
  lemma EveryReturnIsPaired(cfg: Config, stable: seq<string>, prior: seq<Attempt>, turns: seq<Turn>,
                            elapsed: real, w: Window)
    requires ValidConfig(cfg) && SeenAt(cfg, stable, prior, turns, elapsed, w)
    ensures ReturnsPaired(w.messages)
  {
    SeenInv(cfg, stable, prior, turns, elapsed, w);
  }

  // While no round was evicted under a set emit tail, every call is answered and
  // at most one emit_value round is in the context.
  lemma UnslippedContextIsFresh(cfg: Config, stable: seq<string>, prior: seq<Attempt>, turns: seq<Turn>,
                                elapsed: real, w: Window)
    requires ValidConfig(cfg) && SeenAt(cfg, stable, prior, turns, elapsed, w) && !w.slipped
    ensures CallsAnswered(w.messages) && OneValues(w.messages)
  {
    SeenInv(cfg, stable, prior, turns, elapsed, w);
  }

  // The emit tail, once set, never increases.
  lemma TailNeverGrows(cfg: Config, stable: seq<string>, prior: seq<Attempt>, turns: seq<Turn>, turn: Turn, s: State)
    requires ValidConfig(cfg) && Reachable(cfg, stable, prior, turns, s) && s.window.emitTail.Some?
    ensures match Step(cfg, s, turn)
            case Continue(s') => s'.window.emitTail.Some? && s'.window.emitTail.value <= s.window.emitTail.value
            case Stop(_, _, _) => true
  {
    hide Inv, Respond, Apply, Run;
    ReachableInv(cfg, stable, prior, turns, s);
    AtCallInv(cfg, s, stable, turn.elapsed);
    var c := AtCall(cfg, s, turn.elapsed);
    if Step(cfg, s, turn).Continue? {
      var edit := RespondEdit(cfg, c, turn);
      ApplyTail(c.window, stable, c.calls - 1, edit, cfg.liveRounds);
    }
  }
}
