// The context window of the agent loop: one message list edited in place under
// three disciplines (a fixed budget slot, a sliding window of round spans, and
// a suffix truncation keyed by the tail of the last emit_value round).

module Window {
  import opened Json
  import opened Options

  datatype ReturnKind =
    | ProtocolFailure
    | ProgramFailure(errors: seq<string>)
    | MessageRejected
    | Values(values: seq<Json>)
    | SyscallTrace(premature: bool)

  // One entry of the conversation history. Messages appended by a round carry
  // the number of the model call that the round answered.
  datatype Msg =
    | Stable(text: string)
    | WrapUp
    | BudgetLine(remaining: real)
    | ToolCalls(round: nat, callIds: seq<string>)
    | ToolReturns(round: nat, callIds: seq<string>, kind: ReturnKind)
    | NoOutput(round: nat)

  datatype Span = Span(start: int, end: int)

  // The last two fields are history, which the loop never reads: `history` holds
  // the block every round appended, and `slipped` says that a round was evicted
  // while the emit tail was set.
  datatype Window = Window(
    messages: seq<Msg>,
    stableLen: nat,
    budgetIndex: Option<int>,
    wrapUpInjected: bool,
    spans: seq<Span>,
    emitTail: Option<int>,
    history: map<nat, seq<Msg>>,
    slipped: bool)

  // ---------------------------------------------------------------- operations

  // An index clamped the way a Python slice clamps it.
  function Clamp(i: int, n: nat): nat
  {
    if i < 0 then (if n + i < 0 then 0 else n + i) else if i > n then n else i
  }

  // `del xs[a:b]`
  function DeleteSlice<T>(xs: seq<T>, a: int, b: int): seq<T>
  {
    var lo, hi := Clamp(a, |xs|), Clamp(b, |xs|);
    if lo < hi then xs[..lo] + xs[hi..] else xs
  }

  function ShiftSpans(spans: seq<Span>, count: int): seq<Span>
  {
    seq(|spans|, i requires 0 <= i < |spans| => Span(spans[i].start - count, spans[i].end - count))
  }

  function SpansUpTo(spans: seq<Span>, tail: int): seq<Span>
  {
    if spans == [] then []
    else if spans[0].end <= tail then [spans[0]] + SpansUpTo(spans[1..], tail)
    else SpansUpTo(spans[1..], tail)
  }

  function NonEmptyIds(ids: seq<string>): seq<string>
  {
    if ids == [] then []
    else (if ids[0] == "" then [] else [ids[0]]) + NonEmptyIds(ids[1..])
  }

  function InitialWindow(stable: seq<string>): Window
  {
    var messages := seq(|stable|, i requires 0 <= i < |stable| => Stable(stable[i]));
    Window(messages, |stable|, None, false, [], None, map[], false)
  }

  // The head of an iteration: the one-shot wrap-up nudge, then the budget line.
  function OpenCall(w: Window, nudge: bool, remaining: real): Window
  {
    var w1 := if nudge then w.(messages := w.messages + [WrapUp], wrapUpInjected := true) else w;
    match w1.budgetIndex
    case None =>
      w1.(messages := w1.messages + [BudgetLine(remaining)], budgetIndex := Some(|w1.messages|))
    case Some(b) =>
      // Out of range would be an IndexError; WindowOk rules it out.
      if 0 <= b < |w1.messages| then w1.(messages := w1.messages[b := BudgetLine(remaining)]) else w1
  }

  // Record the round that started at `roundStart`; evict the oldest on overflow.
  function RecordRound(w: Window, roundStart: int, live: int): Window
  {
    var roundEnd := |w.messages|;
    if roundStart >= roundEnd then w
    else
      var spans := w.spans + [Span(roundStart, roundEnd)];
      if |spans| <= live then w.(spans := spans)
      else
        var oldest, rest := spans[0], spans[1..];
        if oldest.start < w.stableLen then w.(spans := rest)
        else if w.budgetIndex.Some? && oldest.start <= w.budgetIndex.value < oldest.end then w.(spans := rest)
        else w.(messages := DeleteSlice(w.messages, oldest.start, oldest.end),
                spans := ShiftSpans(rest, oldest.end - oldest.start),
                slipped := w.slipped || w.emitTail.Some?)
  }

  function AppendRound(w: Window, round: nat, block: seq<Msg>, live: int): Window
  {
    RecordRound(w.(messages := w.messages + block, history := w.history[round := block]), |w.messages|, live)
  }

  // Drop the messages of the previous emit_value round and all after it.
  function TruncateToTail(w: Window): Window
  {
    match w.emitTail
    case None => w
    case Some(tail) =>
      w.(messages := DeleteSlice(w.messages, tail, |w.messages|), spans := SpansUpTo(w.spans, tail))
  }

  function AppendEmitRound(w: Window, round: nat, block: seq<Msg>, live: int): Window
  {
    var w1 := TruncateToTail(w);
    AppendRound(w1.(emitTail := Some(|w1.messages|)), round, block, live)
  }

  // ---------------------------------------------------------------- invariants

  predicate IsBlock(block: seq<Msg>, round: nat)
  {
    || block == [NoOutput(round)]
    || (|block| == 2
        && block[0].ToolCalls? && block[0].round == round
        && block[1].ToolReturns? && block[1].round == round
        && block[1].callIds == NonEmptyIds(block[0].callIds))
  }

  predicate InRound(m: Msg)
  {
    m.ToolCalls? || m.ToolReturns? || m.NoOutput?
  }

  // Increasing, disjoint, non-empty spans inside [lo, hi).
  ghost predicate SpansOk(spans: seq<Span>, lo: int, hi: int)
  {
    && (forall i :: 0 <= i < |spans| ==> lo <= spans[i].start < spans[i].end <= hi)
    && (forall i, j :: 0 <= i < j < |spans| ==> spans[i].end <= spans[j].start)
  }

  // The slice of a span is exactly what its round appended.
  ghost predicate SliceOk(w: Window, sp: Span, calls: nat)
  {
    && 0 <= sp.start < sp.end <= |w.messages|
    && InRound(w.messages[sp.start])
    && var r := w.messages[sp.start].round;
       r <= calls && r in w.history
       && w.messages[sp.start..sp.end] == w.history[r]
       && IsBlock(w.history[r], r)
  }

  function RoundOf(w: Window, sp: Span): nat
  {
    if 0 <= sp.start < |w.messages| && InRound(w.messages[sp.start]) then w.messages[sp.start].round else 0
  }

  // Every tool return directly follows the tool calls of its own round.
  ghost predicate ReturnsPaired(ms: seq<Msg>)
  {
    forall i :: 0 <= i < |ms| && ms[i].ToolReturns? ==>
      0 < i && ms[i - 1].ToolCalls? && ms[i - 1].round == ms[i].round
      && ms[i].callIds == NonEmptyIds(ms[i - 1].callIds)
  }

  ghost predicate BudgetSlotOk(w: Window)
    requires w.budgetIndex.Some?
  {
    var b := w.budgetIndex.value;
    && w.stableLen <= b < |w.messages|
    && w.messages[b].BudgetLine?
    && (b == w.stableLen || (b == w.stableLen + 1 && w.messages[w.stableLen].WrapUp?))
  }

  ghost predicate LayoutOk(w: Window, stable: seq<string>)
  {
    && w.stableLen == |stable| <= |w.messages|
    && (forall i :: 0 <= i < |stable| ==> w.messages[i] == Stable(stable[i]))
    && w.budgetIndex.Some?
    && BudgetSlotOk(w)
    && (w.emitTail.Some? ==> w.budgetIndex.value < w.emitTail.value)
  }

  ghost predicate SlicesOk(w: Window, calls: nat)
  {
    && (forall i :: 0 <= i < |w.spans| ==> SliceOk(w, w.spans[i], calls))
    && (forall i, j :: 0 <= i < j < |w.spans| ==> RoundOf(w, w.spans[i]) < RoundOf(w, w.spans[j]))
  }

  ghost predicate FrameOk(w: Window, stable: seq<string>)
  {
    LayoutOk(w, stable) && SpansOk(w.spans, w.budgetIndex.value + 1, |w.messages|)
  }

  // What holds at every model call and at every loop head after the first.
  ghost predicate WindowOk(w: Window, stable: seq<string>, calls: nat, live: int)
  {
    && FrameOk(w, stable)
    && |w.spans| <= live
    && SlicesOk(w, calls)
    && ReturnsPaired(w.messages)
  }
}
