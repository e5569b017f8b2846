// The recent-events block: one JSON line an event, each under a byte cap, and
// as many of the newest lines as a byte budget allows.

module RecentEvents {
  import opened Options
  import opened Json
  import opened JsonText
  import opened Text
  import opened Compaction
  import opened EventLines

  // ------------------------------------------------------------- event lines

  // `{**walked, key: value}`
  function SetField(fields: seq<Field>, key: string, value: Json): seq<Field>
  {
    if fields == [] then [Field(key, value)]
    else if fields[0].key == key then [Field(key, value)] + fields[1..]
    else [fields[0]] + SetField(fields[1..], key, value)
  }

  // The size does not depend on the key order, so keys are not sorted here.
  function CompactPayload(payload: Json, cap: int): Json
    requires payload.JDict?
  {
    if Utf8Len(Dumps(payload)) <= cap then payload
    else JDict(SetField(WalkFields(payload.fields), "_truncated", JBool(true)))
  }

  function Row(e: Event, payload: Json): Json
  {
    JDict([Field("id", JStr(e.id)), Field("created_at", JStr(e.createdAt)), Field("turn_id", JStr(e.turnId)),
           Field("event_type", JStr(e.eventType)), Field("payload", payload)])
  }

  function Line(e: Event, cap: int): string
    requires e.payload.JDict?
  {
    var line := Dumps(Row(e, CompactPayload(e.payload, cap)));
    if Utf8Len(line) > cap then Dumps(Row(e, OVERSIZE)) else line
  }

  function Lines(events: seq<Event>, cap: int): seq<string>
    requires forall i :: 0 <= i < |events| ==> events[i].payload.JDict?
  {
    seq(|events|, i requires 0 <= i < |events| => Line(events[i], cap))
  }

  // ------------------------------------------------------------- the window

  function Reversed<T>(xs: seq<T>): seq<T>
  {
    seq(|xs|, i requires 0 <= i < |xs| => xs[|xs| - 1 - i])
  }

  function Join(separator: string, parts: seq<string>): string
  {
    if parts == [] then []
    else parts[0] + (if |parts| > 1 then separator else []) + Join(separator, parts[1..])
  }

  lemma {:induction false} CostSnoc(lines: seq<string>, line: string)
    ensures Cost(lines + [line]) == Cost(lines) + Utf8Len(line) + 1
  {
    if lines == [] {
      assert lines + [line] == [line];
    } else {
      assert (lines + [line])[1..] == lines[1..] + [line];
      CostSnoc(lines[1..], line);
    }
  }

  // `newestFirst` are the rows the query returns; the rendered lines run from the
  // oldest kept event to the newest.
  method BuildRecentEventsBlock(header: string, newestFirst: seq<Event>, tokenBudget: nat, cap: int)
    returns (block: Option<string>, ghost start: nat)
    requires forall i :: 0 <= i < |newestFirst| ==> newestFirst[i].payload.JDict?
    ensures block.None? <==> newestFirst == []
    ensures newestFirst != [] ==>
              var all := Lines(Reversed(newestFirst), cap);
              IsWindow(all, tokenBudget * 4, start) && block == Some(header + "\n" + Join("\n", all[start..]))
    ensures block.Some? && OneLine(header)
            && (forall i :: 0 <= i < |newestFirst| ==> Readable(newestFirst[i].payload)) ==>
              BlockShows(header, newestFirst, tokenBudget * 4, cap, block.value)
  {
    hide Dumps, CompactPayload, Row, Utf8Len, BlockShows, Readable, OneLine;
    start := 0;
    if newestFirst == [] {
      return None, 0;
    }
    var rows := Reversed(newestFirst);
    var budgetBytes := tokenBudget * 4;
    var lines: seq<string> := [];
    var totalBytes := 0;
    for i := 0 to |rows|
      invariant lines == Lines(rows[..i], cap) && totalBytes == Cost(lines)
    {
      var row := rows[i];
      var line := Dumps(Row(row, CompactPayload(row.payload, cap)));
      if Utf8Len(line) > cap {
        line := Dumps(Row(row, OVERSIZE));
      }
      CostSnoc(lines, line);
      assert Lines(rows[..i + 1], cap) == Lines(rows[..i], cap) + [Line(row, cap)];
      lines := lines + [line];
      totalBytes := totalBytes + Utf8Len(line) + 1;
    }
    assert rows[..|rows|] == rows;
    ghost var all := lines;
    while totalBytes > budgetBytes && |lines| > 1
      invariant start < |all| && lines == all[start..] && totalBytes == Cost(lines)
      invariant forall j :: 0 <= j < start ==> Cost(all[j..]) > budgetBytes
      decreases |lines|
    {
      var dropped := lines[0];
      assert all[start..][1..] == all[start + 1..];
      lines := lines[1..];
      totalBytes := totalBytes - (Utf8Len(dropped) + 1);
      start := start + 1;
    }
    block := Some(header + "\n" + Join("\n", lines));
    if OneLine(header) && forall i :: 0 <= i < |newestFirst| ==> Readable(newestFirst[i].payload) {
      BlockIsShown(header, newestFirst, tokenBudget * 4, cap, start);
    }
  }

  lemma {:induction false} CostMonotone(lines: seq<string>, j: nat, k: nat)
    requires j <= k <= |lines|
    ensures Cost(lines[k..]) <= Cost(lines[j..])
    decreases k - j
  {
    if j < k {
      CostMonotone(lines, j + 1, k);
      assert lines[j..][1..] == lines[j + 1..];
    }
  }

  // The window is the longest suffix that fits whenever any non-empty one does,
  // and there is only one.
  lemma WindowIsLongest(lines: seq<string>, budget: int, k: nat, j: nat)
    requires IsWindow(lines, budget, k) && j < |lines|
    ensures Cost(lines[j..]) <= budget ==> k <= j && Cost(lines[k..]) <= budget
    ensures IsWindow(lines, budget, j) ==> j == k
  {
    if Cost(lines[j..]) <= budget && k <= j {
      CostMonotone(lines, k, j);
    }
  }

  // ------------------------------------------------------ what a line reads back as

  lemma {:induction false} FieldSet(fields: seq<Field>, key: string, value: Json, other: string)
    ensures FindField(SetField(fields, key, value), other)
         == if other == key then Some(value) else FindField(fields, other)
  {
    if fields != [] && fields[0].key != key {
      FieldSet(fields[1..], key, value, other);
    }
  }

  lemma FieldIsLookup(v: Json, key: string)
    ensures Lookup(v, [Key(key)]) == if v.JDict? then FindField(v.fields, key) else None
  {
    assert [Key(key)][1..] == [];
  }

  lemma PayloadIsWanted(payload: Json, cap: int)
    requires payload.JDict?
    ensures IsWanted(payload, cap, CompactPayload(payload, cap))
  {
    hide Dumps, Utf8Len, Lookup;
    var want, walked := CompactPayload(payload, cap), WalkFields(payload.fields);
    if Size(payload) > cap {
      FieldSet(walked, "_truncated", JBool(true), "_truncated");
      FieldIsLookup(want, "_truncated");
      forall key | key != "_truncated"
        ensures Lookup(want, [Key(key)]) == Lookup(WalkCompact(payload), [Key(key)])
      {
        FieldSet(walked, "_truncated", JBool(true), key);
        FieldIsLookup(want, key);
        FieldIsLookup(WalkCompact(payload), key);
      }
    }
  }

  lemma RowIsRow(e: Event, payload: Json)
    ensures IsRowOf(Row(e, payload), e, payload)
  {
    var fields := Row(e, payload).fields;
    Found(fields, "id", 0);
    Found(fields, "created_at", 1);
    Found(fields, "turn_id", 2);
    Found(fields, "event_type", 3);
    Found(fields, "payload", 4);
  }

  lemma {:induction false} FieldSetReadable(fields: seq<Field>, key: string, value: Json)
    requires Readable(value) && forall i :: 0 <= i < |fields| ==> Readable(fields[i].value)
    ensures forall i :: 0 <= i < |SetField(fields, key, value)| ==> Readable(SetField(fields, key, value)[i].value)
  {
    if fields != [] && fields[0].key != key {
      FieldSetReadable(fields[1..], key, value);
    }
  }

  // Compaction writes numbers as number literals.
  lemma {:induction false} WalkedIsReadable(v: Json)
    requires Readable(v)
    ensures Readable(WalkCompact(v))
    decreases v
  {
    match v
    case JStr(text) =>
      if |text| > LONG_STRING_LIMIT {
        SizeIsNumber(Utf8Len(text));
        hide Utf8Len;
        assert forall i :: 0 <= i < 3 ==> Readable(Summary(text).fields[i].value);
      }
    case JList(items) =>
      forall i | 0 <= i < |items|
        ensures Readable(WalkItems(items)[i])
      {
        WalkItemsAt(items, i);
        WalkedIsReadable(items[i]);
      }
      SizeIsNumber(|items|);
      if |items| > LARGE_LIST_LIMIT {
        var fields := WalkCompact(v).fields;
        assert Readable(JList(WalkItems(items)[..LARGE_LIST_LIMIT]));
        assert forall i :: 0 <= i < 3 ==> Readable(fields[i].value);
      }
    case JDict(fields) =>
      forall i | 0 <= i < |fields|
        ensures Readable(WalkFields(fields)[i].value)
      {
        WalkFieldsAt(fields, i);
        WalkedIsReadable(fields[i].value);
      }
    case _ =>
  }

  lemma SizeIsNumber(n: nat)
    ensures Readable(JNum(Decimal(n)))
  {
    DecimalDenotes(n);
  }

  lemma RowReadsBack(e: Event, payload: Json)
    requires Readable(payload)
    ensures ReadJson(Dumps(Row(e, payload))) == Some(Row(e, payload)) && OneLine(Dumps(Row(e, payload)))
  {
    ReadBack(Row(e, payload));
    DumpsPrintable(Row(e, payload));
  }

  lemma PayloadIsReadable(payload: Json, cap: int)
    requires payload.JDict? && Readable(payload)
    ensures Readable(CompactPayload(payload, cap))
  {
    hide Dumps, Utf8Len;
    WalkedIsReadable(payload);
    FieldSetReadable(WalkFields(payload.fields), "_truncated", JBool(true));
  }

  // Every line shows its event.
  lemma LineIsShown(e: Event, cap: int)
    requires e.payload.JDict? && Readable(e.payload)
    ensures LineShows(e, cap, Line(e, cap)) && OneLine(Line(e, cap))
  {
    var want := CompactPayload(e.payload, cap);
    PayloadIsWanted(e.payload, cap);
    PayloadIsReadable(e.payload, cap);
    RowIsRow(e, want);
    RowIsRow(e, OVERSIZE);
    RowReadsBack(e, want);
    OversizeIsReadable();
    RowReadsBack(e, OVERSIZE);
    hide IsWanted, IsRowOf, ReadJson, Row, Dumps, Utf8Len, CompactPayload, OneLine;
    var row := Row(e, want);
    var shown := if Size(row) <= cap then row else Row(e, OVERSIZE);
    assert ReadJson(Line(e, cap)) == Some(shown);
  }

  lemma OversizeIsReadable()
    ensures Readable(OVERSIZE)
  {
  }

  // ------------------------------------------------------------ the whole block

  lemma {:induction false} SplitFront(line: string, rest: string)
    requires OneLine(line)
    ensures SplitLines(line + "\n" + rest) == [line] + SplitLines(rest)
  {
    var s := line + "\n" + rest;
    if line == [] {
      assert s[0] == '\n' && s[1..] == rest;
    } else {
      SplitFront(line[1..], rest);
      assert s[0] == line[0] && s[1..] == line[1..] + "\n" + rest;
      assert [line[0]] + line[1..] == line;
    }
  }

  lemma {:induction false} SplitLast(line: string)
    requires OneLine(line)
    ensures SplitLines(line) == [line]
  {
    if line != [] {
      SplitLast(line[1..]);
      assert [line[0]] + line[1..] == line;
    }
  }

  // Joined lines split again.
  lemma {:induction false} SplitJoined(lines: seq<string>)
    requires lines != [] && forall i :: 0 <= i < |lines| ==> OneLine(lines[i])
    ensures SplitLines(Join("\n", lines)) == lines
  {
    if |lines| == 1 {
      SplitLast(lines[0]);
      assert Join("\n", lines[1..]) == [] && Join("\n", lines) == lines[0] + [] + [] == lines[0];
    } else {
      SplitJoined(lines[1..]);
      SplitFront(lines[0], Join("\n", lines[1..]));
    }
  }

  // The cost of lines is the size of their text, with its last newline.
  lemma {:induction false} CostIsBytes(lines: seq<string>)
    requires lines != []
    ensures Cost(lines) == Utf8Len(Join("\n", lines)) + 1
  {
    hide Utf8Len;
    var rest := Join("\n", lines[1..]);
    assert Utf8Len("\n") == 1 by {
      NewlineLen();
    }
    if |lines| == 1 {
      assert rest == [] && Join("\n", lines) == lines[0] + [] + [] == lines[0];
      assert Cost(lines[1..]) == 0;
    } else {
      CostIsBytes(lines[1..]);
      Utf8LenAppend(lines[0] + "\n", rest);
      Utf8LenAppend(lines[0], "\n");
    }
  }

  lemma NewlineLen()
    ensures Utf8Len("\n") == 1
  {
  }

  // The rendered block shows its events.
  lemma BlockIsShown(header: string, newestFirst: seq<Event>, budget: int, cap: int, start: nat)
    requires newestFirst != [] && OneLine(header)
    requires forall i :: 0 <= i < |newestFirst| ==> newestFirst[i].payload.JDict? && Readable(newestFirst[i].payload)
    requires IsWindow(Lines(Reversed(newestFirst), cap), budget, start)
    ensures var lines := Lines(Reversed(newestFirst), cap);
            BlockShows(header, newestFirst, budget, cap, header + "\n" + Join("\n", lines[start..]))
  {
    hide LineShows, OneLine, SplitLines, Join, Line;
    var n, lines := |newestFirst|, Lines(Reversed(newestFirst), cap);
    forall i | 0 <= i < n
      ensures LineShows(newestFirst[n - 1 - i], cap, lines[i]) && OneLine(lines[i])
    {
      LineIsShown(newestFirst[n - 1 - i], cap);
    }
    SplitJoined(lines[start..]);
    SplitFront(header, Join("\n", lines[start..]));
  }

  // ---------------------------------------------------------------- the cap

  predicate Plain(s: string)
  {
    forall i :: 0 <= i < |s| ==> 0x20 <= s[i] as int < 0x7f && s[i] != '"' && s[i] != '\\'
  }

  lemma {:induction false} EscapePlain(s: string)
    requires Plain(s)
    ensures EscapeAll(s) == s
  {
    if s != [] {
      assert Plain(s[1..]);
      EscapePlain(s[1..]);
    }
  }

  lemma {:induction false} Utf8LenAppend(a: string, b: string)
    ensures Utf8Len(a + b) == Utf8Len(a) + Utf8Len(b)
  {
    if a == [] {
      assert a + b == b;
    } else {
      assert (a + b)[1..] == a[1..] + b;
      Utf8LenAppend(a[1..], b);
    }
  }

  lemma {:induction false} Utf8LenPlain(s: string)
    requires Plain(s)
    ensures Utf8Len(s) == |s|
  {
    if s != [] {
      assert Plain(s[1..]);
      Utf8LenPlain(s[1..]);
    }
  }

  // Identifiers, timestamps and event types as the tables hold them.
  predicate ColumnsOk(e: Event)
  {
    && e.payload.JDict?
    && Plain(e.id) && |e.id| <= 32 && Plain(e.turnId) && |e.turnId| <= 32
    && Plain(e.createdAt) && |e.createdAt| <= 32 && Plain(e.eventType) && |e.eventType| <= 64
  }

  lemma QuotedLen(s: string)
    requires Plain(s)
    ensures Utf8Len(Quoted(s)) == |s| + 2
  {
    EscapePlain(s);
    Utf8LenAppend("\"" + s, "\"");
    Utf8LenAppend("\"", s);
    Utf8LenPlain(s);
    assert Utf8Len("\"") == 1;
  }

  // What one field adds to the rendered object.
  lemma FieldLen(fields: seq<Field>)
    requires fields != [] && Plain(fields[0].key)
    ensures Utf8Len(DumpFields(fields)) <=
            |fields[0].key| + 4 + Utf8Len(Dumps(fields[0].value)) + Utf8Len(DumpFields(fields[1..]))
  {
    var key, value, rest := Quoted(fields[0].key), Dumps(fields[0].value), DumpFields(fields[1..]);
    var comma := if |fields| > 1 then "," else "";
    assert DumpFields(fields) == key + ":" + value + comma + rest;
    QuotedLen(fields[0].key);
    Utf8LenAppend(key + ":" + value + comma, rest);
    Utf8LenAppend(key + ":" + value, comma);
    Utf8LenAppend(key + ":", value);
    Utf8LenAppend(key, ":");
    assert Utf8Len(":") == 1 && Utf8Len(comma) <= 1;
  }

  lemma ObjectLen(fields: seq<Field>)
    ensures Utf8Len(Dumps(JDict(fields))) == 2 + Utf8Len(DumpFields(fields))
  {
    Utf8LenAppend("{" + DumpFields(fields), "}");
    Utf8LenAppend("{", DumpFields(fields));
    assert Utf8Len("{") == 1 && Utf8Len("}") == 1;
  }

  lemma BareLineLen(e: Event)
    requires ColumnsOk(e)
    ensures Utf8Len(Dumps(Row(e, OVERSIZE))) <= 512
  {
    hide Utf8Len, Plain, DumpFields;
    var fields := Row(e, OVERSIZE).fields;
    PlainKeys();
    ObjectLen(fields);
    FieldLen(fields);
    FieldLen(fields[1..]);
    FieldLen(fields[2..]);
    FieldLen(fields[3..]);
    FieldLen(fields[4..]);
    assert fields[1..][1..] == fields[2..] && fields[2..][1..] == fields[3..] && fields[3..][1..] == fields[4..];
    assert fields[4..][1..] == [];
    EmptyLen();
    QuotedLen(e.id);
    QuotedLen(e.createdAt);
    QuotedLen(e.turnId);
    QuotedLen(e.eventType);
    OversizeLen();
  }

  lemma EmptyLen()
    ensures Utf8Len(DumpFields([])) == 0
  {
  }

  lemma PlainKeys()
    ensures Plain("id") && Plain("created_at") && Plain("turn_id") && Plain("event_type")
    ensures Plain("payload") && Plain("_oversize")
  {
  }

  lemma OversizeLen()
    ensures Utf8Len(Dumps(OVERSIZE)) <= 32
  {
    PlainKeys();
    ObjectLen(OVERSIZE.fields);
    FieldLen(OVERSIZE.fields);
    assert Utf8Len("true") == 4 by {
      Utf8LenPlain("true");
    }
  }

  // Every line stays within the cap, whatever its payload.
  lemma LineWithinCap(e: Event, cap: int)
    requires ColumnsOk(e) && cap >= 512
    ensures Utf8Len(Line(e, cap)) <= cap
  {
    hide Row, OVERSIZE, Dumps;
    BareLineLen(e);
  }
}
