// When is at most one emit_value round in the context, and when does every
// tool call have its return? As long as no round was evicted while the tail of
// the last emit_value round was set.

module WindowFresh {
  import opened Options
  import opened Window
  import opened WindowProofs

  predicate IsValues(m: Msg)
  {
    m.ToolReturns? && m.kind.Values?
  }

  // The values are in the context: a return without ids has no part to carry them.
  predicate ShowsValues(m: Msg)
  {
    IsValues(m) && m.callIds != []
  }

  ghost predicate OneValues(ms: seq<Msg>)
  {
    forall i, j :: 0 <= i < j < |ms| ==> !(IsValues(ms[i]) && IsValues(ms[j]))
  }

  // The message right after a tool call returns exactly its ids.
  predicate AnsweredBy(call: Msg, answer: Msg)
    requires call.ToolCalls?
  {
    answer.ToolReturns? && answer.round == call.round && answer.callIds == NonEmptyIds(call.callIds)
  }

  // Every tool call is answered by the message right after it.
  ghost predicate CallsAnswered(ms: seq<Msg>)
  {
    forall i :: 0 <= i < |ms| && ms[i].ToolCalls? ==> i + 1 < |ms| && AnsweredBy(ms[i], ms[i + 1])
  }

  ghost predicate ContextOk(w: Window)
  {
    OneValues(w.messages) && CallsAnswered(w.messages)
  }

  // The tail still marks the start of the emit_value round it was taken from.
  ghost predicate Aligned(w: Window)
  {
    && ContextOk(w)
    && match w.emitTail
       case None => forall i :: 0 <= i < |w.messages| ==> !IsValues(w.messages[i])
       case Some(t) =>
         && 0 < t <= |w.messages|
         && (forall i :: 0 <= i < t ==> !IsValues(w.messages[i]))
         && !w.messages[t - 1].ToolCalls?
  }

  ghost predicate FreshOk(w: Window)
  {
    !w.slipped ==> Aligned(w)
  }

  lemma OpenFirstCallFresh(stable: seq<string>, nudge: bool, remaining: real)
    ensures FreshOk(OpenCall(InitialWindow(stable), nudge, remaining))
  {
  }

  lemma OpenCallContext(w: Window, stable: seq<string>, calls: nat, live: int, nudge: bool, remaining: real)
    requires WindowOk(w, stable, calls, live)
    ensures ContextOk(w) ==> ContextOk(OpenCall(w, nudge, remaining))
    ensures Aligned(w) ==> Aligned(OpenCall(w, nudge, remaining))
  {
    var w' := OpenCall(w, nudge, remaining);
    assert forall i :: 0 <= i < |w.messages| ==>
             w'.messages[i] == w.messages[i] || (w'.messages[i].BudgetLine? && w.messages[i].BudgetLine?);
  }

  lemma ExtendedContext(w: Window, round: nat, block: seq<Msg>)
    requires IsBlock(block, round) && Aligned(w)
    requires w.emitTail == Some(|w.messages|) || !IsValues(block[|block| - 1])
    ensures Aligned(Extended(w, round, block))
  {
  }

  // Cutting out a whole block unpairs nothing and adds no values.
  lemma CutContext(ms: seq<Msg>, a: nat, b: nat)
    requires a < b <= |ms| && OneValues(ms) && CallsAnswered(ms)
    requires !ms[b - 1].ToolCalls? && !ms[a].ToolReturns?
    ensures OneValues(ms[..a] + ms[b..]) && CallsAnswered(ms[..a] + ms[b..])
  {
    var cut := ms[..a] + ms[b..];
    assert forall i :: 0 <= i < |cut| ==> cut[i] == ms[if i < a then i else i + b - a];
  }

  lemma EvictedContext(w: Window, calls: nat)
    requires |w.spans| > 0 && SliceOk(w, w.spans[0], calls) && ContextOk(w)
    ensures ContextOk(Evicted(w))
    ensures w.emitTail.None? && Aligned(w) ==> Aligned(Evicted(w))
  {
    var a, b := w.spans[0].start, w.spans[0].end;
    assert w.messages[a..b][b - a - 1] == w.messages[b - 1];
    CutContext(w.messages, a, b);
    var cut := Evicted(w).messages;
    assert forall i :: 0 <= i < |cut| ==> cut[i] == w.messages[if i < a then i else i + b - a];
  }

  lemma RetailedAligned(w: Window, stable: seq<string>, calls: nat, live: int)
    requires WindowOk(w, stable, calls, live) && Aligned(w)
    ensures Aligned(Retailed(w)) && Retailed(w).emitTail == Some(|Retailed(w).messages|)
  {
    var v := Retailed(w);
    assert v.messages == w.messages[..|v.messages|];
  }

  // A recorded round keeps the context in order; alignment is lost only by an
  // eviction under a set tail, which is exactly what `slipped` records.
  lemma RecordedFresh(w: Window, stable: seq<string>, calls: nat, live: int, round: nat, block: seq<Msg>)
    requires WindowOk(w, stable, calls, live) && calls < round && IsBlock(block, round) && Aligned(w)
    requires w.emitTail == Some(|w.messages|) || !IsValues(block[|block| - 1])
    ensures var v := AppendRound(w, round, block, live);
            ContextOk(v) && (v.slipped ==> w.slipped || |w.spans| >= live) && (!v.slipped ==> Aligned(v))
  {
    AppendRoundEvictsExactlyOldest(w, stable, live, round, block);
    ExtendedContext(w, round, block);
    var e := Extended(w, round, block);
    if |e.spans| > live {
      ExtendedSlices(w, calls, round, block);
      EvictedContext(e, round);
    }
  }

  // --------------------------------------------- returns always sit in a span

  ghost predicate EndsAt(spans: seq<Span>, i: int)
  {
    exists k :: 0 <= k < |spans| && spans[k].end == i
  }

  ghost predicate ReturnsInSpans(w: Window)
  {
    forall i :: 0 <= i < |w.messages| && w.messages[i].ToolReturns? ==> EndsAt(w.spans, i + 1)
  }

  // With a window of one round, no two emit_value rounds fit.
  lemma OneLiveRoundOneValues(w: Window, stable: seq<string>, calls: nat, live: int)
    requires WindowOk(w, stable, calls, live) && ReturnsInSpans(w) && live <= 1
    ensures OneValues(w.messages)
  {
    forall i | 0 <= i < |w.messages| && IsValues(w.messages[i])
      ensures |w.spans| == 1 && w.spans[0].end == i + 1
    {
      assert EndsAt(w.spans, i + 1);
    }
  }

  lemma OpenCallReturns(w: Window, stable: seq<string>, calls: nat, live: int, nudge: bool, remaining: real)
    requires WindowOk(w, stable, calls, live) && ReturnsInSpans(w)
    ensures ReturnsInSpans(OpenCall(w, nudge, remaining))
  {
    var w' := OpenCall(w, nudge, remaining);
    assert forall i :: 0 <= i < |w'.messages| && w'.messages[i].ToolReturns? ==>
             i < |w.messages| && w.messages[i] == w'.messages[i];
  }

  lemma ExtendedReturns(w: Window, round: nat, block: seq<Msg>)
    requires IsBlock(block, round) && ReturnsInSpans(w)
    ensures ReturnsInSpans(Extended(w, round, block))
  {
    var e := Extended(w, round, block);
    forall i | 0 <= i < |e.messages| && e.messages[i].ToolReturns?
      ensures EndsAt(e.spans, i + 1)
    {
      if i < |w.messages| {
        var k :| 0 <= k < |w.spans| && w.spans[k].end == i + 1;
        assert e.spans[k] == w.spans[k];
      } else {
        assert e.spans[|w.spans|].end == i + 1;
      }
    }
  }

  lemma CutReturns(ms: seq<Msg>, spans: seq<Span>, i: int)
    requires |spans| > 0 && SpansOk(spans, 0, |ms|)
    requires forall j :: 0 <= j < |ms| && ms[j].ToolReturns? ==> EndsAt(spans, j + 1)
    requires var a, b := spans[0].start, spans[0].end;
             0 <= i < |ms| - (b - a) && ms[if i < a then i else i + b - a].ToolReturns?
    ensures EndsAt(ShiftSpans(spans[1..], spans[0].end - spans[0].start), i + 1)
  {
    var a, b := spans[0].start, spans[0].end;
    var i0 := if i < a then i else i + b - a;
    assert EndsAt(spans, i0 + 1);
    var k :| 0 <= k < |spans| && spans[k].end == i0 + 1;
    assert k > 0 && b <= spans[k].start;
    assert ShiftSpans(spans[1..], b - a)[k - 1].end == i + 1;
  }

  lemma EvictedReturns(w: Window)
    requires |w.spans| > 0 && SpansOk(w.spans, 0, |w.messages|) && ReturnsInSpans(w)
    ensures ReturnsInSpans(Evicted(w))
  {
    var a, b := w.spans[0].start, w.spans[0].end;
    var v := Evicted(w);
    assert v.messages == w.messages[..a] + w.messages[b..];
    forall i | 0 <= i < |v.messages| && v.messages[i].ToolReturns?
      ensures EndsAt(v.spans, i + 1)
    {
      CutReturns(w.messages, w.spans, i);
    }
  }

  lemma RetailedReturns(w: Window, stable: seq<string>, calls: nat, live: int)
    requires WindowOk(w, stable, calls, live) && ReturnsInSpans(w)
    ensures ReturnsInSpans(Retailed(w))
  {
    var v := Retailed(w);
    if w.emitTail.Some? {
      var n := SpansUpToPrefix(w.spans, w.emitTail.value, w.budgetIndex.value + 1, |w.messages|);
      forall i | 0 <= i < |v.messages| && v.messages[i].ToolReturns?
        ensures EndsAt(v.spans, i + 1)
      {
        assert v.messages[i] == w.messages[i];
        assert EndsAt(w.spans, i + 1);
        var k :| 0 <= k < |w.spans| && w.spans[k].end == i + 1;
        assert v.spans[k].end == i + 1;
      }
    }
  }

  lemma AppendRoundReturns(w: Window, stable: seq<string>, live: int, round: nat, block: seq<Msg>)
    requires FrameOk(w, stable) && IsBlock(block, round) && ReturnsInSpans(w)
    ensures ReturnsInSpans(AppendRound(w, round, block, live))
  {
    AppendRoundEvictsExactlyOldest(w, stable, live, round, block);
    ExtendedReturns(w, round, block);
    var e := Extended(w, round, block);
    if |e.spans| > live {
      ExtendedFrame(w, stable, round, block);
      EvictedReturns(e);
    }
  }
}
