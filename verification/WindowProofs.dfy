// Every edit of the context window keeps it well formed.

module WindowProofs {
  import opened Options
  import opened Window

  // ------------------------------------------------------------ opening a call

  lemma OpenFirstCallOk(stable: seq<string>, nudge: bool, remaining: real, live: int)
    requires live >= 0
    ensures WindowOk(OpenCall(InitialWindow(stable), nudge, remaining), stable, 0, live)
  {
  }

  // Spans survive any edit that leaves their slices and their rounds' blocks alone.
  lemma SlicesKept(w: Window, w': Window, calls: nat, calls': nat)
    requires SlicesOk(w, calls) && w'.spans == w.spans && calls <= calls'
    requires |w.messages| <= |w'.messages|
    requires forall r :: r in w.history && r <= calls ==> r in w'.history && w'.history[r] == w.history[r]
    requires forall i, k :: 0 <= i < |w.spans| && w.spans[i].start <= k < w.spans[i].end && 0 <= k < |w.messages|
               ==> w'.messages[k] == w.messages[k]
    ensures SlicesOk(w', calls')
  {
    forall i | 0 <= i < |w.spans|
      ensures SliceOk(w', w'.spans[i], calls') && RoundOf(w', w'.spans[i]) == RoundOf(w, w.spans[i])
    {
      var sp := w.spans[i];
      assert SliceOk(w, sp, calls);
      assert w'.messages[sp.start..sp.end] == w.messages[sp.start..sp.end];
    }
  }

  lemma OpenCallPairs(w: Window, nudge: bool, remaining: real)
    requires w.budgetIndex.Some? && 0 <= w.budgetIndex.value < |w.messages|
    requires w.messages[w.budgetIndex.value].BudgetLine? && ReturnsPaired(w.messages)
    ensures ReturnsPaired(OpenCall(w, nudge, remaining).messages)
  {
  }

  lemma OpenCallOk(w: Window, stable: seq<string>, calls: nat, live: int, nudge: bool, remaining: real)
    requires WindowOk(w, stable, calls, live)
    ensures var w' := OpenCall(w, nudge, remaining);
            && WindowOk(w', stable, calls, live)
            && w'.spans == w.spans && w'.emitTail == w.emitTail && w'.budgetIndex == w.budgetIndex
  {
    var w' := OpenCall(w, nudge, remaining);
    SlicesKept(w, w', calls, calls);
    OpenCallPairs(w, nudge, remaining);
  }

  // ---------------------------------------------------------- appending a block

  // A block appended and recorded as the last span, before any eviction.
  ghost function Extended(w: Window, round: nat, block: seq<Msg>): Window
  {
    w.(messages := w.messages + block,
       history := w.history[round := block],
       spans := w.spans + [Span(|w.messages|, |w.messages| + |block|)])
  }

  lemma ExtendedSlices(w: Window, calls: nat, round: nat, block: seq<Msg>)
    requires SlicesOk(w, calls) && calls < round && IsBlock(block, round)
    ensures SlicesOk(Extended(w, round, block), round)
  {
    var mid := w.(messages := w.messages + block, history := w.history[round := block]);
    forall i, k | 0 <= i < |w.spans| && w.spans[i].start <= k < w.spans[i].end && 0 <= k < |w.messages|
      ensures mid.messages[k] == w.messages[k]
    {
    }
    SlicesKept(w, mid, calls, round);
    var w' := Extended(w, round, block);
    forall i | 0 <= i < |w'.spans|
      ensures SliceOk(w', w'.spans[i], round)
      ensures i < |w.spans| ==>
                RoundOf(w', w'.spans[i]) < round && RoundOf(w', w'.spans[i]) == RoundOf(mid, mid.spans[i])
    {
      if i < |w.spans| {
        assert SliceOk(mid, mid.spans[i], round);
        assert SliceOk(w, w.spans[i], calls);
      } else {
        assert w'.spans[i] == Span(|w.messages|, |w'.messages|);
        assert (w.messages + block)[|w.messages|..] == block;
      }
    }
  }

  lemma BlockKeepsPairs(ms: seq<Msg>, block: seq<Msg>, round: nat)
    requires ReturnsPaired(ms) && IsBlock(block, round)
    ensures ReturnsPaired(ms + block)
  {
  }

  lemma ExtendedFrame(w: Window, stable: seq<string>, round: nat, block: seq<Msg>)
    requires FrameOk(w, stable) && block != []
    ensures FrameOk(Extended(w, round, block), stable)
  {
  }

  lemma ExtendedOk(w: Window, stable: seq<string>, calls: nat, live: int, round: nat, block: seq<Msg>)
    requires WindowOk(w, stable, calls, live) && calls < round && IsBlock(block, round)
    ensures WindowOk(Extended(w, round, block), stable, round, live + 1)
  {
    ExtendedSlices(w, calls, round, block);
    ExtendedFrame(w, stable, round, block);
    BlockKeepsPairs(w.messages, block, round);
  }

  // -------------------------------------------------------- evicting the oldest

  // The oldest round spliced out and the later spans re-indexed.
  ghost function Evicted(w: Window): Window
    requires |w.spans| > 0
  {
    w.(messages := DeleteSlice(w.messages, w.spans[0].start, w.spans[0].end),
       spans := ShiftSpans(w.spans[1..], w.spans[0].end - w.spans[0].start),
       slipped := w.slipped || w.emitTail.Some?)
  }

  // Cutting out a slice that does not end in tool calls separates no pair.
  lemma CutKeepsPairs(ms: seq<Msg>, a: nat, b: nat)
    requires a < b <= |ms| && ReturnsPaired(ms) && !ms[b - 1].ToolCalls?
    ensures ReturnsPaired(ms[..a] + ms[b..])
  {
    var cut := ms[..a] + ms[b..];
    forall i | 0 <= i < |cut| && cut[i].ToolReturns?
      ensures 0 < i && cut[i - 1].ToolCalls? && cut[i - 1].round == cut[i].round
              && cut[i].callIds == NonEmptyIds(cut[i - 1].callIds)
    {
      if i >= a {
        assert cut[i] == ms[i - a + b];
        assert i > a;
      }
    }
  }

  lemma EvictedSlices(w: Window, calls: nat)
    requires |w.spans| > 0 && SlicesOk(w, calls) && SpansOk(w.spans, 0, |w.messages|)
    ensures SlicesOk(Evicted(w), calls)
  {
    var a, b := w.spans[0].start, w.spans[0].end;
    var w' := Evicted(w);
    assert w'.messages == w.messages[..a] + w.messages[b..];
    forall i | 0 <= i < |w'.spans|
      ensures SliceOk(w', w'.spans[i], calls) && RoundOf(w', w'.spans[i]) == RoundOf(w, w.spans[i + 1])
    {
      var sp, sp' := w.spans[i + 1], w'.spans[i];
      assert SliceOk(w, sp, calls);
      assert w.spans[0].end <= sp.start;
      assert w'.messages[sp'.start..sp'.end] == w.messages[sp.start..sp.end];
    }
  }

  lemma EvictedOk(w: Window, stable: seq<string>, calls: nat, live: int)
    requires WindowOk(w, stable, calls, live + 1) && |w.spans| > 0
    ensures WindowOk(Evicted(w), stable, calls, live)
    ensures |Evicted(w).messages| == |w.messages| - (w.spans[0].end - w.spans[0].start)
  {
    var a, b := w.spans[0].start, w.spans[0].end;
    assert SliceOk(w, w.spans[0], calls);
    assert w.messages[a..b][b - a - 1] == w.messages[b - 1];
    EvictedSlices(w, calls);
    CutKeepsPairs(w.messages, a, b);
  }

  // In a well-formed window the two safety returns never fire: appending a
  // round either just records it or splices out exactly the oldest one.
  lemma AppendRoundEvictsExactlyOldest(w: Window, stable: seq<string>, live: int, round: nat, block: seq<Msg>)
    requires FrameOk(w, stable) && block != []
    ensures var e := Extended(w, round, block);
            AppendRound(w, round, block, live) == if |e.spans| <= live then e else Evicted(e)
  {
    var e := Extended(w, round, block);
    assert e.spans[0] == if |w.spans| > 0 then w.spans[0] else Span(|w.messages|, |e.messages|);
  }

  lemma AppendRoundOk(w: Window, stable: seq<string>, calls: nat, live: int, round: nat, block: seq<Msg>)
    requires WindowOk(w, stable, calls, live) && calls < round && IsBlock(block, round)
    ensures WindowOk(AppendRound(w, round, block, live), stable, round, live)
  {
    AppendRoundEvictsExactlyOldest(w, stable, live, round, block);
    ExtendedOk(w, stable, calls, live, round, block);
    var e := Extended(w, round, block);
    if |e.spans| > live {
      EvictedOk(e, stable, round, live);
    }
  }

  // ------------------------------------------------------------------ truncating

  // Spans that end by the tail form a prefix of the spans.
  lemma SpansUpToPrefix(spans: seq<Span>, tail: int, lo: int, hi: int) returns (n: nat)
    requires SpansOk(spans, lo, hi)
    ensures n <= |spans| && SpansUpTo(spans, tail) == spans[..n]
    ensures forall i :: 0 <= i < |spans| ==> (i < n <==> spans[i].end <= tail)
  {
    if spans == [] {
      n := 0;
    } else {
      var m := SpansUpToPrefix(spans[1..], tail, lo, hi);
      if spans[0].end <= tail {
        n := m + 1;
        assert spans[..n] == [spans[0]] + spans[1..][..m];
      } else {
        assert forall i :: 0 <= i < |spans[1..]| ==> spans[1..][i] == spans[i + 1] && spans[1..][i].end > tail;
        n := 0;
      }
    }
  }

  lemma TruncatedSlices(w: Window, w': Window, n: nat, calls: nat)
    requires SlicesOk(w, calls) && n <= |w.spans| && w'.spans == w.spans[..n] && w'.history == w.history
    requires w'.messages <= w.messages
    requires forall i :: 0 <= i < n ==> w.spans[i].end <= |w'.messages|
    ensures SlicesOk(w', calls)
  {
    forall i | 0 <= i < n
      ensures SliceOk(w', w'.spans[i], calls) && RoundOf(w', w'.spans[i]) == RoundOf(w, w.spans[i])
    {
      assert SliceOk(w, w.spans[i], calls);
      assert w'.messages[w.spans[i].start..w.spans[i].end] == w.messages[w.spans[i].start..w.spans[i].end];
    }
  }

  lemma TruncateFrame(w: Window, stable: seq<string>)
    requires FrameOk(w, stable) && w.emitTail.Some?
    ensures FrameOk(TruncateToTail(w), stable) && TruncateToTail(w).messages <= w.messages
    ensures |TruncateToTail(w).messages| ==
            if w.emitTail.value < |w.messages| then w.emitTail.value else |w.messages|
  {
    var n := SpansUpToPrefix(w.spans, w.emitTail.value, w.budgetIndex.value + 1, |w.messages|);
  }

  lemma TruncateOk(w: Window, stable: seq<string>, calls: nat, live: int)
    requires WindowOk(w, stable, calls, live)
    ensures WindowOk(TruncateToTail(w), stable, calls, live)
  {
    if w.emitTail.Some? {
      var v := TruncateToTail(w);
      TruncateFrame(w, stable);
      var n := SpansUpToPrefix(w.spans, w.emitTail.value, w.budgetIndex.value + 1, |w.messages|);
      TruncatedSlices(w, v, n, calls);
      assert forall i :: 0 <= i < |v.messages| ==> v.messages[i] == w.messages[i];
    }
  }

  // The truncated window with its tail moved to the new end.
  ghost function Retailed(w: Window): Window
  {
    var w1 := TruncateToTail(w);
    w1.(emitTail := Some(|w1.messages|))
  }

  lemma RetailedOk(w: Window, stable: seq<string>, calls: nat, live: int)
    requires WindowOk(w, stable, calls, live)
    ensures WindowOk(Retailed(w), stable, calls, live)
  {
    TruncateOk(w, stable, calls, live);
    SlicesKept(TruncateToTail(w), Retailed(w), calls, calls);
  }

  lemma AppendEmitRoundOk(w: Window, stable: seq<string>, calls: nat, live: int, round: nat, block: seq<Msg>)
    requires WindowOk(w, stable, calls, live) && calls < round && IsBlock(block, round)
    ensures WindowOk(AppendEmitRound(w, round, block, live), stable, round, live)
  {
    RetailedOk(w, stable, calls, live);
    AppendRoundOk(Retailed(w), stable, calls, live, round, block);
  }
}
