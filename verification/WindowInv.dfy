// The window invariant of the loop, and that each of the loop's edits keeps it.

module WindowInv {
  import opened Options
  import opened Window
  import opened WindowProofs
  import opened WindowBound
  import opened WindowFresh
  import opened WindowBudget

  // A slip needs a full window, so it cannot happen in the first rounds.
  ghost predicate Unslipped(w: Window, rounds: nat, live: int)
  {
    |w.spans| <= rounds && (rounds <= live ==> !w.slipped)
  }

  ghost predicate EarlyOk(w: Window, rounds: nat, live: int)
  {
    && Unslipped(w, rounds, live)
    && (rounds <= live + 1 ==> ContextOk(w))
  }

  // `rounds` model calls have been answered.
  ghost predicate Inv(w: Window, stable: seq<string>, rounds: nat, live: int)
  {
    && WindowOk(w, stable, rounds, live) && SizeOk(w, live) && ReturnsInSpans(w)
    && FreshOk(w) && EarlyOk(w, rounds, live) && OneBudgetLine(w)
  }

  lemma OpenFirstCallInv(stable: seq<string>, nudge: bool, remaining: real, live: int)
    requires live >= 1
    ensures Inv(OpenCall(InitialWindow(stable), nudge, remaining), stable, 0, live)
  {
    OpenFirstCallOk(stable, nudge, remaining, live);
    OpenFirstCallSize(stable, nudge, remaining, live);
    OpenFirstCallFresh(stable, nudge, remaining);
    OpenFirstCallBudget(stable, nudge, remaining);
  }

  lemma OpenCallInv(w: Window, stable: seq<string>, rounds: nat, live: int, nudge: bool, remaining: real)
    requires Inv(w, stable, rounds, live) && (nudge ==> !w.wrapUpInjected)
    ensures Inv(OpenCall(w, nudge, remaining), stable, rounds, live)
  {
    OpenCallOk(w, stable, rounds, live, nudge, remaining);
    OpenCallSize(w, stable, rounds, live, nudge, remaining);
    OpenCallReturns(w, stable, rounds, live, nudge, remaining);
    OpenCallContext(w, stable, rounds, live, nudge, remaining);
    OpenCallBudget(w, stable, nudge, remaining);
  }

  // A model call that appends nothing.
  lemma SilentCallInv(w: Window, stable: seq<string>, rounds: nat, live: int)
    requires Inv(w, stable, rounds, live)
    ensures Inv(w, stable, rounds + 1, live)
  {
    SlicesKept(w, w, rounds, rounds + 1);
  }

  lemma RecordedEarly(w: Window, stable: seq<string>, rounds: nat, live: int, block: seq<Msg>)
    requires WindowOk(w, stable, rounds, live) && FreshOk(w) && Unslipped(w, rounds, live)
    requires IsBlock(block, rounds + 1) && (w.emitTail == Some(|w.messages|) || !IsValues(block[|block| - 1]))
    ensures FreshOk(AppendRound(w, rounds + 1, block, live))
    ensures EarlyOk(AppendRound(w, rounds + 1, block, live), rounds + 1, live)
  {
    AppendRoundEvictsExactlyOldest(w, stable, live, rounds + 1, block);
    if !w.slipped {
      RecordedFresh(w, stable, rounds, live, rounds + 1, block);
    }
  }

  lemma AppendRoundInv(w: Window, stable: seq<string>, rounds: nat, live: int, block: seq<Msg>)
    requires Inv(w, stable, rounds, live) && IsBlock(block, rounds + 1) && !IsValues(block[|block| - 1])
    ensures Inv(AppendRound(w, rounds + 1, block, live), stable, rounds + 1, live)
  {
    AppendRoundOk(w, stable, rounds, live, rounds + 1, block);
    AppendRoundSize(w, stable, live, rounds + 1, block);
    AppendRoundReturns(w, stable, live, rounds + 1, block);
    AppendRoundBudget(w, stable, live, rounds + 1, block);
    RecordedEarly(w, stable, rounds, live, block);
  }

  lemma AppendEmitRoundInv(w: Window, stable: seq<string>, rounds: nat, live: int, block: seq<Msg>)
    requires Inv(w, stable, rounds, live) && IsBlock(block, rounds + 1)
    ensures Inv(AppendEmitRound(w, rounds + 1, block, live), stable, rounds + 1, live)
  {
    AppendEmitRoundOk(w, stable, rounds, live, rounds + 1, block);
    AppendEmitRoundSize(w, stable, rounds, live, rounds + 1, block);
    var v := Retailed(w);
    RetailedOk(w, stable, rounds, live);
    RetailedReturns(w, stable, rounds, live);
    AppendRoundReturns(v, stable, live, rounds + 1, block);
    RetailedBudget(w, stable);
    AppendRoundBudget(v, stable, live, rounds + 1, block);
    RetailedUnslipped(w, stable, rounds, live);
    RecordedEarly(v, stable, rounds, live, block);
  }

  lemma RetailedUnslipped(w: Window, stable: seq<string>, rounds: nat, live: int)
    requires WindowOk(w, stable, rounds, live) && FreshOk(w) && Unslipped(w, rounds, live)
    ensures FreshOk(Retailed(w)) && Unslipped(Retailed(w), rounds, live)
    ensures Retailed(w).emitTail == Some(|Retailed(w).messages|)
  {
    if !w.slipped {
      RetailedAligned(w, stable, rounds, live);
    }
    RetailedSpansFewer(w, stable);
  }

  lemma RetailedSpansFewer(w: Window, stable: seq<string>)
    requires FrameOk(w, stable)
    ensures |Retailed(w).spans| <= |w.spans|
  {
    if w.emitTail.Some? {
      var n := SpansUpToPrefix(w.spans, w.emitTail.value, w.budgetIndex.value + 1, |w.messages|);
    }
  }
}
