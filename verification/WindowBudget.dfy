// The budget slot holds the line of the current call, and no other message is one.

module WindowBudget {
  import opened Options
  import opened Window
  import opened WindowProofs

  ghost predicate OneBudgetLine(w: Window)
  {
    forall i :: 0 <= i < |w.messages| && w.messages[i].BudgetLine? ==> w.budgetIndex == Some(i)
  }

  lemma OpenFirstCallBudget(stable: seq<string>, nudge: bool, remaining: real)
    ensures OneBudgetLine(OpenCall(InitialWindow(stable), nudge, remaining))
  {
  }

  lemma OpenCallBudget(w: Window, stable: seq<string>, nudge: bool, remaining: real)
    requires FrameOk(w, stable) && OneBudgetLine(w)
    ensures OneBudgetLine(OpenCall(w, nudge, remaining))
  {
  }

  // Whatever the call, the slot gets its line.
  lemma OpenCallWritesBudget(w: Window, stable: seq<string>, nudge: bool, remaining: real)
    requires w == InitialWindow(stable) || FrameOk(w, stable)
    ensures var v := OpenCall(w, nudge, remaining);
            && v.budgetIndex.Some? && 0 <= v.budgetIndex.value < |v.messages|
            && v.messages[v.budgetIndex.value] == BudgetLine(remaining)
  {
  }

  lemma EvictedBudget(w: Window, stable: seq<string>)
    requires FrameOk(w, stable) && |w.spans| > 0 && OneBudgetLine(w)
    ensures OneBudgetLine(Evicted(w))
  {
    var a, b := w.spans[0].start, w.spans[0].end;
    var v := Evicted(w);
    assert v.messages == w.messages[..a] + w.messages[b..];
    assert forall i :: 0 <= i < |v.messages| ==> v.messages[i] == w.messages[if i < a then i else i + b - a];
  }

  lemma AppendRoundBudget(w: Window, stable: seq<string>, live: int, round: nat, block: seq<Msg>)
    requires FrameOk(w, stable) && IsBlock(block, round) && OneBudgetLine(w)
    ensures OneBudgetLine(AppendRound(w, round, block, live))
  {
    AppendRoundEvictsExactlyOldest(w, stable, live, round, block);
    var e := Extended(w, round, block);
    assert OneBudgetLine(e);
    if |e.spans| > live {
      ExtendedFrame(w, stable, round, block);
      EvictedBudget(e, stable);
    }
  }

  lemma RetailedBudget(w: Window, stable: seq<string>)
    requires FrameOk(w, stable) && OneBudgetLine(w)
    ensures OneBudgetLine(Retailed(w))
  {
    var v := Retailed(w);
    assert v.messages == w.messages[..|v.messages|];
  }
}
