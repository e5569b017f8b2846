// Exactly which configurations keep the context fresh. The emit tail is not
// re-indexed when a round is evicted, so a long enough run can show the model
// two emit_value rounds at once, or a tool call whose return was cut off.

module LoopFresh {
  import opened Options
  import opened Json
  import opened Window
  import opened WindowProofs
  import opened WindowFresh
  import opened Grounding
  import opened Loop
  import opened LoopWindow

  // At every model call of every run, at most one emit_value round is visible.
  ghost predicate AlwaysOneValues(cfg: Config)
  {
    forall stable, prior, turns, elapsed, w ::
      SeenAt(cfg, stable, prior, turns, elapsed, w) ==> OneValues(w.messages)
  }

  // At every model call of every run, every tool call has its return.
  ghost predicate AlwaysAnswered(cfg: Config)
  {
    forall stable, prior, turns, elapsed, w ::
      SeenAt(cfg, stable, prior, turns, elapsed, w) ==> CallsAnswered(w.messages)
  }

  // The same of emit_value rounds whose values are shown.
  ghost predicate AlwaysOneShown(cfg: Config)
  {
    forall stable, prior, turns, elapsed, w ::
      SeenAt(cfg, stable, prior, turns, elapsed, w) ==> OneShown(w.messages)
  }

  ghost predicate OneShown(ms: seq<Msg>)
  {
    forall i, j :: 0 <= i < j < |ms| ==> !(ShowsValues(ms[i]) && ShowsValues(ms[j]))
  }

  // The same of tool calls that have an id to return to.
  ghost predicate AlwaysReturned(cfg: Config)
  {
    forall stable, prior, turns, elapsed, w ::
      SeenAt(cfg, stable, prior, turns, elapsed, w) ==> IdsReturned(w.messages)
  }

  ghost predicate IdsReturned(ms: seq<Msg>)
  {
    forall i :: 0 <= i < |ms| && ms[i].ToolCalls? && NonEmptyIds(ms[i].callIds) != [] ==>
      i + 1 < |ms| && AnsweredBy(ms[i], ms[i + 1])
  }

  lemma OneValuesExactly(cfg: Config)
    requires ValidConfig(cfg)
    ensures AlwaysOneValues(cfg) <==> cfg.liveRounds <= 1 || cfg.maxCallsHard <= cfg.liveRounds + 1
    ensures AlwaysOneShown(cfg) <==> cfg.liveRounds <= 1 || cfg.maxCallsHard <= cfg.liveRounds + 1
  {
    hide SeenAt;
    if cfg.liveRounds <= 1 || cfg.maxCallsHard <= cfg.liveRounds + 1 {
      forall stable, prior, turns, elapsed, w | SeenAt(cfg, stable, prior, turns, elapsed, w)
        ensures OneValues(w.messages)
      {
        ShortRunIsFresh(cfg, stable, prior, turns, elapsed, w);
      }
    } else {
      var turns, w, tail := SlippedContext(cfg, Filler(), 2);
      assert ShowsValues(w.messages[tail - 1]) && ShowsValues(w.messages[tail + 1]);
      assert !OneShown(w.messages) && !OneValues(w.messages);
    }
  }

  lemma AnsweredExactly(cfg: Config)
    requires ValidConfig(cfg)
    ensures AlwaysAnswered(cfg) <==> cfg.maxCallsHard <= cfg.liveRounds + 1
    ensures AlwaysReturned(cfg) <==> cfg.maxCallsHard <= cfg.liveRounds + 1
  {
    hide SeenAt;
    if cfg.maxCallsHard <= cfg.liveRounds + 1 {
      forall stable, prior, turns, elapsed, w | SeenAt(cfg, stable, prior, turns, elapsed, w)
        ensures CallsAnswered(w.messages)
      {
        ShortRunIsFresh(cfg, stable, prior, turns, elapsed, w);
      }
    } else {
      var turns, w, tail := SlippedContext(cfg, Idle(), 1);
      assert w.messages[tail - 1].ToolCalls? && !w.messages[tail].ToolReturns?;
      assert !IdsReturned(w.messages) && !CallsAnswered(w.messages);
    }
  }

  lemma ShortRunIsFresh(cfg: Config, stable: seq<string>, prior: seq<Attempt>, turns: seq<Turn>,
                        elapsed: real, w: Window)
    requires ValidConfig(cfg) && SeenAt(cfg, stable, prior, turns, elapsed, w)
    ensures cfg.maxCallsHard <= cfg.liveRounds + 1 ==> OneValues(w.messages) && CallsAnswered(w.messages)
    ensures cfg.liveRounds <= 1 ==> OneValues(w.messages)
  {
    hide SeenAt, WindowOk, ReturnsInSpans;
    SeenInv(cfg, stable, prior, turns, elapsed, w);
    if cfg.liveRounds <= 1 {
      OneLiveRoundOneValues(w, stable, |turns|, cfg.liveRounds);
    }
  }

  // ------------------------------------------------------------ the witnesses

  function Quiet(values: seq<Json>): ProgramResult
  {
    ProgramResult(true, None, [], [], "", values, None, None, false, "")
  }

  function Filler(): Turn { Turn(0.0, 0, BadProtocol(["call"])) }

  function Idle(): Turn { Turn(0.0, 0, RunCall("call", "idle", Quiet([]))) }

  function Emit(source: string): Turn { Turn(0.0, 0, RunCall("call", source, Quiet([JNull]))) }

  // One round is on record, `gap` messages long.
  ghost predicate Opened(w: Window, gap: nat)
  {
    w.emitTail.None? && |w.spans| == 1 && w.spans[0].end - w.spans[0].start == gap
  }

  // The emit_value round is the second of several rounds, none evicted yet.
  ghost predicate Staged(w: Window, gap: nat)
  {
    && |w.spans| >= 2 && w.spans[0].end - w.spans[0].start == gap
    && w.emitTail == Some(w.spans[1].start) && w.spans[1].end == w.spans[1].start + 2
    && 0 <= w.spans[1].start && w.spans[1].end <= |w.messages|
    && ShowsValues(w.messages[w.spans[1].start + 1])
  }

  // The first round is gone and the tail points past the start of the
  // emit_value round.
  ghost predicate Slipped(w: Window, gap: nat)
  {
    && |w.spans| >= 1
    && w.emitTail == Some(w.spans[0].start + gap) && w.spans[0].end == w.spans[0].start + 2
    && 0 <= w.spans[0].start && w.spans[0].end <= |w.messages|
    && ShowsValues(w.messages[w.spans[0].start + 1])
  }

  ghost predicate TwoCalls(ms: seq<Msg>, tail: int)
  {
    && 0 < tail < |ms| && ms[tail - 1].ToolCalls? && ms[tail].ToolCalls?
    && NonEmptyIds(ms[tail - 1].callIds) != []
  }

  ghost predicate TwoValues(ms: seq<Msg>, tail: int)
  {
    0 < tail < |ms| - 1 && ShowsValues(ms[tail - 1]) && ShowsValues(ms[tail + 1])
  }

  lemma OpenedByFiller(cfg: Config)
    requires ValidConfig(cfg)
    ensures Step(cfg, InitialState([], []), Filler()).Continue?
    ensures var t := Step(cfg, InitialState([], []), Filler()).state;
            Opened(t.window, 2) && t.calls == 1 && t.prevSource == None
  {
  }

  lemma OpenedByIdle(cfg: Config)
    requires ValidConfig(cfg)
    ensures Step(cfg, InitialState([], []), Idle()).Continue?
    ensures var t := Step(cfg, InitialState([], []), Idle()).state;
            Opened(t.window, 1) && t.calls == 1 && t.prevSource == Some("idle")
  {
  }

  // What an answered emit_value program does to the state of its call.
  lemma EmitEffect(cfg: Config, c: State, source: string)
    requires c.prevSource != Some(source)
    ensures var block := Pair(c, ["call"], Values([JNull])); var next := Respond(cfg, c, Emit(source));
            && next.Continue? && next.state.prevSource == Some(source) && next.state.calls == c.calls
            && next.state.window == AppendEmitRound(c.window, c.calls, block, cfg.liveRounds)
            && IsBlock(block, c.calls) && ShowsValues(block[1])
  {
  }

  lemma EmitAfterOpened(w: Window, rounds: nat, live: int, gap: nat, round: nat, block: seq<Msg>)
    requires WindowOk(w, [], rounds, live) && live >= 1 && Opened(w, gap) && gap >= 1
    requires IsBlock(block, round) && ShowsValues(block[|block| - 1])
    ensures var v := AppendEmitRound(w, round, block, live);
            if live == 1 then Slipped(v, gap) else Staged(v, gap) && |v.spans| == 2
  {
    var v := Retailed(w);
    assert v.messages == w.messages && v.spans == w.spans;
    AppendRoundEvictsExactlyOldest(v, [], live, round, block);
    assert Extended(v, round, block).messages[|w.messages| + 1] == block[1];
  }

  lemma FillerAfterStaged(w: Window, rounds: nat, live: int, gap: nat, round: nat, block: seq<Msg>)
    requires WindowOk(w, [], rounds, live) && Staged(w, gap) && IsBlock(block, round)
    ensures var v := AppendRound(w, round, block, live);
            if |w.spans| < live then Staged(v, gap) && |v.spans| == |w.spans| + 1 else Slipped(v, gap)
  {
    hide Staged, Slipped, Extended, Evicted, AppendRound, SlicesOk, ReturnsPaired;
    AppendRoundEvictsExactlyOldest(w, [], live, round, block);
    StagedExtended(w, gap, round, block);
    ExtendedFrame(w, [], round, block);
    if |w.spans| >= live {
      StagedEvicted(Extended(w, round, block), gap);
    }
  }

  lemma StagedExtended(w: Window, gap: nat, round: nat, block: seq<Msg>)
    requires Staged(w, gap)
    ensures Staged(Extended(w, round, block), gap) && |Extended(w, round, block).spans| == |w.spans| + 1
  {
  }

  lemma StagedEvicted(e: Window, gap: nat)
    requires Staged(e, gap) && gap >= 0 && SpansOk(e.spans, 0, |e.messages|)
    ensures Slipped(Evicted(e), gap)
  {
    var a, b := e.spans[0].start, e.spans[0].end;
    assert e.spans[0].end <= e.spans[1].start;
    assert Evicted(e).messages == e.messages[..a] + e.messages[b..];
    assert Evicted(e).spans[0] == Span(e.spans[1].start - gap, e.spans[1].end - gap);
  }

  lemma OpenCallStages(w: Window, rounds: nat, live: int, nudge: bool, remaining: real, gap: nat)
    requires WindowOk(w, [], rounds, live)
    ensures var v := OpenCall(w, nudge, remaining);
            && (Opened(w, gap) ==> Opened(v, gap)) && (Staged(w, gap) ==> Staged(v, gap))
            && (Slipped(w, gap) ==> Slipped(v, gap)) && |v.spans| == |w.spans|
  {
  }

  // A state of the witness run, at a loop head.
  ghost predicate At(cfg: Config, turns: seq<Turn>, s: State)
  {
    ValidConfig(cfg) && Reachable(cfg, [], [], turns, s) && 1 <= s.calls == |turns| <= cfg.maxCallsHard
  }

  // The window of the next call of a witness run.
  lemma NextCall(cfg: Config, turns: seq<Turn>, s: State, gap: nat) returns (c: State)
    requires At(cfg, turns, s)
    ensures c == AtCall(cfg, s, 0.0) && !OutOfBudget(cfg, s, 0.0)
    ensures c.calls == s.calls + 1 && c.prevSource == s.prevSource
    ensures WindowOk(c.window, [], s.calls, cfg.liveRounds) && |c.window.spans| == |s.window.spans|
    ensures Opened(s.window, gap) ==> Opened(c.window, gap)
    ensures Staged(s.window, gap) ==> Staged(c.window, gap)
    ensures Slipped(s.window, gap) ==> Slipped(c.window, gap)
  {
    hide Reachable, WindowOk, Opened, Staged, Slipped, OpenCall;
    ReachableInv(cfg, [], [], turns, s);
    AtCallInv(cfg, s, [], 0.0);
    c := AtCall(cfg, s, 0.0);
    OpenCallStages(s.window, s.calls, cfg.liveRounds, NudgeDue(cfg, s, 0.0), cfg.budgetHard - 0.0, gap);
  }

  lemma Extend(cfg: Config, turns: seq<Turn>, s: State, turn: Turn)
    requires Reachable(cfg, [], [], turns, s) && Step(cfg, s, turn).Continue?
    ensures Reachable(cfg, [], [], turns + [turn], Step(cfg, s, turn).state)
  {
    assert (turns + [turn])[..|turns|] == turns;
  }

  lemma Start(cfg: Config)
    ensures Reachable(cfg, [], [], [], InitialState([], []))
  {
  }

  // Fillers until the first round is evicted.
  lemma FillUntilSlipped(cfg: Config, turns: seq<Turn>, s: State, gap: nat) returns (turns': seq<Turn>, t: State)
    requires At(cfg, turns, s) && cfg.maxCallsHard > cfg.liveRounds
    requires Staged(s.window, gap) && |s.window.spans| == s.calls <= cfg.liveRounds && s.prevSource == Some("first")
    ensures At(cfg, turns', t) && Slipped(t.window, gap)
    ensures t.calls == cfg.liveRounds + 1 && t.prevSource == Some("first")
    decreases cfg.liveRounds - s.calls
  {
    hide Reachable, Staged, Slipped, WindowOk, OpenCall, AppendRound;
    var c := NextCall(cfg, turns, s, gap);
    FillerAfterStaged(c.window, s.calls, cfg.liveRounds, gap, c.calls, Pair(c, ["call"], ProtocolFailure));
    Extend(cfg, turns, s, Filler());
    t := Step(cfg, s, Filler()).state;
    turns' := turns + [Filler()];
    if s.calls < cfg.liveRounds {
      turns', t := FillUntilSlipped(cfg, turns', t, gap);
    }
  }

  lemma FirstRound(cfg: Config, first: Turn, gap: nat) returns (turns: seq<Turn>, t: State)
    requires ValidConfig(cfg)
    requires (first == Filler() && gap == 2) || (first == Idle() && gap == 1)
    ensures At(cfg, turns, t) && Opened(t.window, gap) && t.calls == 1 && t.prevSource != Some("first")
  {
    hide Reachable, Opened, Step, InitialState;
    var s0 := InitialState([], []);
    Start(cfg);
    if first == Filler() {
      OpenedByFiller(cfg);
    } else {
      OpenedByIdle(cfg);
    }
    Extend(cfg, [], s0, first);
    t := Step(cfg, s0, first).state;
    turns := [] + [first];
  }

  lemma SlipRun(cfg: Config, first: Turn, gap: nat) returns (turns: seq<Turn>, t: State)
    requires ValidConfig(cfg) && cfg.maxCallsHard > cfg.liveRounds
    requires (first == Filler() && gap == 2) || (first == Idle() && gap == 1)
    ensures At(cfg, turns, t) && Slipped(t.window, gap)
    ensures t.calls == cfg.liveRounds + 1 && t.prevSource == Some("first")
  {
    hide Reachable, Staged, Slipped, Opened, WindowOk, OpenCall, AppendRound, AppendEmitRound, InitialState;
    var s1;
    turns, s1 := FirstRound(cfg, first, gap);
    var c := NextCall(cfg, turns, s1, gap);
    EmitEffect(cfg, c, "first");
    EmitAfterOpened(c.window, s1.calls, cfg.liveRounds, gap, c.calls, Pair(c, ["call"], Values([JNull])));
    Extend(cfg, turns, s1, Emit("first"));
    t := Step(cfg, s1, Emit("first")).state;
    turns := turns + [Emit("first")];
    if cfg.liveRounds > 1 {
      turns, t := FillUntilSlipped(cfg, turns, t, gap);
    }
  }

  // With the tail past its round by two, a truncation keeps the round; with the
  // tail past it by one, it cuts the round in half.
  lemma SlippedEmitWindow(w: Window, rounds: nat, live: int, gap: nat, round: nat, block: seq<Msg>)
    requires WindowOk(w, [], rounds, live) && live >= 1 && 1 <= gap <= 2 && Slipped(w, gap)
    requires IsBlock(block, round) && ShowsValues(block[|block| - 1])
    ensures w.emitTail.Some?
    ensures var tail := w.emitTail.value; var ms := AppendEmitRound(w, round, block, live).messages;
            (gap == 1 ==> TwoCalls(ms, tail)) && (gap == 2 && live >= 2 ==> TwoValues(ms, tail))
  {
    var v := Retailed(w);
    assert SliceOk(w, w.spans[0], rounds);
    assert w.messages[w.spans[0].start..w.spans[0].end][1] == w.messages[w.spans[0].start + 1];
    var n := SpansUpToPrefix(w.spans, w.emitTail.value, w.budgetIndex.value + 1, |w.messages|);
    assert n == gap - 1;
    assert v.messages == w.messages[..w.emitTail.value];
    RetailedOk(w, [], rounds, live);
    AppendRoundEvictsExactlyOldest(v, [], live, round, block);
  }

  lemma OpenCallShows(w: Window, stable: seq<string>, calls: nat, live: int, nudge: bool, remaining: real, tail: int)
    requires WindowOk(w, stable, calls, live)
    ensures TwoCalls(w.messages, tail) ==> TwoCalls(OpenCall(w, nudge, remaining).messages, tail)
    ensures TwoValues(w.messages, tail) ==> TwoValues(OpenCall(w, nudge, remaining).messages, tail)
  {
  }

  // The slip run and one more emit_value round, seen at the next call.
  lemma SlippedContext(cfg: Config, first: Turn, gap: nat) returns (turns: seq<Turn>, w: Window, tail: int)
    requires ValidConfig(cfg) && cfg.maxCallsHard > cfg.liveRounds + 1
    requires (first == Filler() && gap == 2) || (first == Idle() && gap == 1)
    ensures SeenAt(cfg, [], [], turns, 0.0, w)
    ensures gap == 1 ==> TwoCalls(w.messages, tail)
    ensures gap == 2 && cfg.liveRounds >= 2 ==> TwoValues(w.messages, tail)
  {
    hide Reachable, Slipped, TwoCalls, TwoValues, WindowOk, OpenCall, AppendEmitRound;
    var s;
    turns, s := SlipRun(cfg, first, gap);
    var c := NextCall(cfg, turns, s, gap);
    EmitEffect(cfg, c, "second");
    SlippedEmitWindow(c.window, s.calls, cfg.liveRounds, gap, c.calls, Pair(c, ["call"], Values([JNull])));
    Extend(cfg, turns, s, Emit("second"));
    turns := turns + [Emit("second")];
    var t := Step(cfg, s, Emit("second")).state;
    tail := c.window.emitTail.value;
    var d := NextCall(cfg, turns, t, gap);
    w := d.window;
    ReachableInv(cfg, [], [], turns, t);
    OpenCallShows(t.window, [], t.calls, cfg.liveRounds, NudgeDue(cfg, t, 0.0), cfg.budgetHard - 0.0, tail);
  }
}
