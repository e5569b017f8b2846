// How long the context can get. The tail of the last emit_value round is not
// re-indexed when a round is evicted, so a truncation can leave half a round
// behind; such leftovers always lie below the tail, and the tail never grows.

module WindowBound {
  import opened Window
  import opened WindowProofs

  // Everything from here on is a live round or the wrap-up nudge.
  ghost function Base(w: Window): int
    requires w.budgetIndex.Some?
  {
    if w.emitTail.Some? then w.emitTail.value else w.budgetIndex.value + 1
  }

  ghost predicate Covered(spans: seq<Span>, i: int)
  {
    exists k :: 0 <= k < |spans| && spans[k].start <= i < spans[k].end
  }

  ghost predicate CoveredFrom(ms: seq<Msg>, spans: seq<Span>, lo: int, hi: int)
    requires 0 <= lo && hi <= |ms|
  {
    forall i :: lo <= i < hi ==> ms[i].WrapUp? || Covered(spans, i)
  }

  ghost predicate OneWrapUp(ms: seq<Msg>)
  {
    forall i, j :: 0 <= i < j < |ms| ==> !(ms[i].WrapUp? && ms[j].WrapUp?)
  }

  ghost predicate WrapUpIn(ms: seq<Msg>, lo: int, hi: int)
  {
    exists i :: 0 <= lo <= i < hi <= |ms| && ms[i].WrapUp?
  }

  ghost function One(b: bool): int { if b then 1 else 0 }

  // What WindowOk does not say and the length bound needs.
  ghost predicate SizeOk(w: Window, live: int)
    requires w.budgetIndex.Some?
  {
    && 0 <= Base(w)
    && CoveredFrom(w.messages, w.spans, Base(w), |w.messages|)
    && OneWrapUp(w.messages)
    && (!w.wrapUpInjected ==> !WrapUpIn(w.messages, 0, |w.messages|))
    && Base(w) + One(WrapUpIn(w.messages, Base(w), |w.messages|))
       <= w.stableLen + 1 + One(w.wrapUpInjected) + (if w.emitTail.Some? then 2 * live else 0)
  }

  // A stretch covered by disjoint spans of at most two messages is short.
  lemma {:induction false} CoveredLength(ms: seq<Msg>, spans: seq<Span>, lo: int, hi: int)
    requires 0 <= lo && hi <= |ms| && SpansOk(spans, 0, hi) && OneWrapUp(ms)
    requires forall k :: 0 <= k < |spans| ==> spans[k].end - spans[k].start <= 2
    requires CoveredFrom(ms, spans, lo, hi)
    ensures hi - lo <= 2 * |spans| + One(WrapUpIn(ms, lo, hi))
    decreases |spans|
  {
    if lo < hi {
      if spans == [] {
        assert ms[lo].WrapUp? && ms[hi - 1].WrapUp?;
      } else {
        var last, init := spans[|spans| - 1], spans[..|spans| - 1];
        WrapUpsOnly(ms, spans, last, lo, hi);
        if lo < last.start {
          forall i | lo <= i < last.start
            ensures ms[i].WrapUp? || Covered(init, i)
          {
            if !ms[i].WrapUp? {
              var k :| 0 <= k < |spans| && spans[k].start <= i < spans[k].end;
              assert init[k] == spans[k];
            }
          }
          CoveredLength(ms, init, lo, last.start);
        }
      }
    }
  }

  // Past the last span there is at most the wrap-up nudge.
  lemma WrapUpsOnly(ms: seq<Msg>, spans: seq<Span>, last: Span, lo: int, hi: int)
    requires 0 <= lo < hi <= |ms| && SpansOk(spans, 0, hi) && OneWrapUp(ms) && |spans| > 0
    requires last == spans[|spans| - 1] && CoveredFrom(ms, spans, lo, hi)
    ensures var from := if last.end < lo then lo else last.end;
            hi - from <= One(WrapUpIn(ms, from, hi))
  {
    var from := if last.end < lo then lo else last.end;
    forall i | from <= i < hi
      ensures ms[i].WrapUp?
    {
      assert forall k :: 0 <= k < |spans| ==> spans[k].end <= last.end;
    }
    if from < hi {
      assert ms[from].WrapUp? && ms[hi - 1].WrapUp?;
    }
  }

  // The context bound: at most the stable prefix, the budget line, the nudge
  // and twice two messages for each live round.
  lemma ContextBound(w: Window, stable: seq<string>, calls: nat, live: int)
    requires WindowOk(w, stable, calls, live) && SizeOk(w, live)
    ensures |w.messages| <= |stable| + 2 + 4 * live
    ensures |w.messages| <= Base(w) + 2 * |w.spans| + One(WrapUpIn(w.messages, Base(w), |w.messages|))
  {
    forall k | 0 <= k < |w.spans|
      ensures w.spans[k].end - w.spans[k].start <= 2
    {
      assert SliceOk(w, w.spans[k], calls);
    }
    CoveredLength(w.messages, w.spans, Base(w), |w.messages|);
  }

  // ------------------------------------------------- every edit keeps the bound

  lemma OpenFirstCallSize(stable: seq<string>, nudge: bool, remaining: real, live: int)
    ensures SizeOk(OpenCall(InitialWindow(stable), nudge, remaining), live)
  {
  }

  lemma OpenCallSize(w: Window, stable: seq<string>, calls: nat, live: int, nudge: bool, remaining: real)
    requires WindowOk(w, stable, calls, live) && SizeOk(w, live) && (nudge ==> !w.wrapUpInjected)
    ensures SizeOk(OpenCall(w, nudge, remaining), live)
  {
    var w' := OpenCall(w, nudge, remaining);
    assert forall i :: 0 <= i < |w.messages| ==> (w'.messages[i].WrapUp? <==> w.messages[i].WrapUp?);
  }

  lemma ExtendedSize(w: Window, stable: seq<string>, live: int, round: nat, block: seq<Msg>)
    requires FrameOk(w, stable) && SizeOk(w, live) && IsBlock(block, round)
    ensures SizeOk(Extended(w, round, block), live)
  {
    var e := Extended(w, round, block);
    forall i | Base(w) <= i < |e.messages|
      ensures e.messages[i].WrapUp? || Covered(e.spans, i)
    {
      if i < |w.messages| {
        if Covered(w.spans, i) {
          var k :| 0 <= k < |w.spans| && w.spans[k].start <= i < w.spans[k].end;
          assert e.spans[k] == w.spans[k];
        }
      } else {
        assert e.spans[|w.spans|].start <= i < e.spans[|w.spans|].end;
      }
    }
    assert forall i :: |w.messages| <= i < |e.messages| ==> e.messages[i] in block && !e.messages[i].WrapUp?;
  }

  // Cutting the first span out and re-indexing keeps everything past `lo` covered.
  lemma CutCovered(ms: seq<Msg>, spans: seq<Span>, lo: int)
    requires 0 <= lo && |spans| > 0 && SpansOk(spans, 0, |ms|) && CoveredFrom(ms, spans, lo, |ms|)
    ensures var a, b := spans[0].start, spans[0].end;
            CoveredFrom(ms[..a] + ms[b..], ShiftSpans(spans[1..], b - a), lo, |ms| - (b - a))
  {
    var a, b := spans[0].start, spans[0].end;
    var cut, shifted := ms[..a] + ms[b..], ShiftSpans(spans[1..], b - a);
    forall i | lo <= i < |cut|
      ensures cut[i].WrapUp? || Covered(shifted, i)
    {
      var i0 := if i < a then i else i + b - a;
      assert cut[i] == ms[i0];
      if !ms[i0].WrapUp? {
        assert Covered(spans, i0);
        var k :| 0 <= k < |spans| && spans[k].start <= i0 < spans[k].end;
        assert k > 0 && b <= spans[k].start;
        assert shifted[k - 1] == Span(spans[k].start - (b - a), spans[k].end - (b - a));
      }
    }
  }

  lemma CutWrapUps(ms: seq<Msg>, a: nat, b: nat, lo: int)
    requires a < b <= |ms| && OneWrapUp(ms)
    ensures OneWrapUp(ms[..a] + ms[b..])
    ensures WrapUpIn(ms[..a] + ms[b..], lo, |ms| - (b - a)) ==> WrapUpIn(ms, lo, |ms|)
  {
    var cut := ms[..a] + ms[b..];
    assert forall i :: 0 <= i < |cut| ==> cut[i] == ms[if i < a then i else i + b - a];
    if WrapUpIn(cut, lo, |cut|) {
      var i :| 0 <= lo <= i < |cut| && cut[i].WrapUp?;
      assert ms[if i < a then i else i + b - a].WrapUp?;
    }
  }

  lemma EvictedSize(w: Window, live: int)
    requires |w.spans| > 0 && w.budgetIndex.Some? && SizeOk(w, live) && SpansOk(w.spans, 0, |w.messages|)
    ensures SizeOk(Evicted(w), live)
  {
    var a, b := w.spans[0].start, w.spans[0].end;
    assert Evicted(w).messages == w.messages[..a] + w.messages[b..];
    CutCovered(w.messages, w.spans, Base(w));
    CutWrapUps(w.messages, a, b, Base(w));
    CutWrapUps(w.messages, a, b, 0);
  }

  lemma AppendRoundSize(w: Window, stable: seq<string>, live: int, round: nat, block: seq<Msg>)
    requires FrameOk(w, stable) && SizeOk(w, live) && IsBlock(block, round)
    ensures SizeOk(AppendRound(w, round, block, live), live)
    ensures AppendRound(w, round, block, live).emitTail == w.emitTail
  {
    AppendRoundEvictsExactlyOldest(w, stable, live, round, block);
    ExtendedSize(w, stable, live, round, block);
    var e := Extended(w, round, block);
    if |e.spans| > live {
      ExtendedFrame(w, stable, round, block);
      EvictedSize(e, live);
    }
  }

  // The new tail is where the truncation stopped, so it never exceeds the old one.
  lemma RetailedSize(w: Window, stable: seq<string>, live: int)
    requires LayoutOk(w, stable) && SizeOk(w, live)
    requires |w.messages| <= Base(w) + 2 * live + One(WrapUpIn(w.messages, Base(w), |w.messages|))
    ensures SizeOk(Retailed(w), live)
    ensures w.emitTail.Some? ==> Retailed(w).emitTail.value <= w.emitTail.value
  {
    var v := Retailed(w);
    assert |v.messages| <= |w.messages| && v.messages == w.messages[..|v.messages|];
    assert Base(v) == |v.messages|;
    assert WrapUpIn(v.messages, 0, |v.messages|) ==> WrapUpIn(w.messages, 0, |w.messages|);
  }

  lemma AppendEmitRoundSize(w: Window, stable: seq<string>, calls: nat, live: int, round: nat, block: seq<Msg>)
    requires WindowOk(w, stable, calls, live) && SizeOk(w, live) && calls < round && IsBlock(block, round)
    ensures SizeOk(AppendEmitRound(w, round, block, live), live)
    ensures AppendEmitRound(w, round, block, live).emitTail.Some?
    ensures w.emitTail.Some? ==> AppendEmitRound(w, round, block, live).emitTail.value <= w.emitTail.value
  {
    RetailedOk(w, stable, calls, live);
    ContextBound(w, stable, calls, live);
    RetailedSize(w, stable, live);
    AppendRoundSize(Retailed(w), stable, live, round, block);
  }
}
