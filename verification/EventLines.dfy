// What a rendered line of the recent-events block must show of its event, said on
// the line as it reads back.

module EventLines {
  import opened Options
  import opened Json
  import opened JsonText
  import opened Text
  import opened Compaction

  datatype Event = Event(id: string, createdAt: string, turnId: string, eventType: string, payload: Json)

  // The size of a value in bytes, rendered.
  function Size(v: Json): nat
  {
    Utf8Len(Dumps(v))
  }

  // The row of an event with this payload: its five columns and nothing else.
  predicate IsRowOf(row: Json, e: Event, payload: Json)
  {
    && row.JDict? && |row.fields| == 5
    && Lookup(row, [Key("id")]) == Some(JStr(e.id))
    && Lookup(row, [Key("created_at")]) == Some(JStr(e.createdAt))
    && Lookup(row, [Key("turn_id")]) == Some(JStr(e.turnId))
    && Lookup(row, [Key("event_type")]) == Some(JStr(e.eventType))
    && Lookup(row, [Key("payload")]) == Some(payload)
  }

  // A payload within the cap is wanted as it is; a larger one compacted, and
  // marked as truncated.
  ghost predicate IsWanted(payload: Json, cap: int, want: Json)
  {
    if Size(payload) <= cap then want == payload
    else
      && want.JDict? && Lookup(want, [Key("_truncated")]) == Some(JBool(true))
      && forall key :: key != "_truncated" ==> Lookup(want, [Key(key)]) == Lookup(WalkCompact(payload), [Key(key)])
  }

  const OVERSIZE := JDict([Field("_oversize", JBool(true))])

  // The line reads back as the row of the event with the wanted payload, or, if
  // even that row is over the cap, with the mark for an oversize one.
  ghost predicate LineShows(e: Event, cap: int, line: string)
  {
    exists row, want, shown ::
      && IsWanted(e.payload, cap, want) && IsRowOf(row, e, want)
      && ReadJson(line) == Some(shown)
      && if Size(row) <= cap then shown == row else IsRowOf(shown, e, OVERSIZE)
  }

  // ------------------------------------------------- which canonical ids are shown

  // The place of an id in the wanted payload.
  function ShownPath(payload: Json, cap: int, path: seq<Step>): seq<Step>
  {
    if Size(payload) <= cap then path else Moved(payload, path)
  }

  lemma DescendSame(a: Json, b: Json, path: seq<Step>)
    requires path != [] && Lookup(a, [path[0]]) == Lookup(b, [path[0]])
    ensures Lookup(a, path) == Lookup(b, path)
  {
    assert [path[0]][1..] == [];
    assert Child(a, path[0]) == Child(b, path[0]);
  }

  // Every canonical id of a payload is shown, except one below a top-level key
  // `_truncated` of a payload over the cap, which the mark replaces.
  lemma IdShownExactly(payload: Json, cap: int, want: Json, path: seq<Step>)
    requires payload.JDict? && IsWanted(payload, cap, want)
    requires EndsAtId(path) && Sampled(payload, path) && Lookup(payload, path).Some?
    ensures Lookup(want, ShownPath(payload, cap, path)) == Lookup(payload, path)
            <==> Size(payload) <= cap || path[0] != Key("_truncated")
  {
    if Size(payload) > cap {
      var moved := Moved(payload, path);
      IdsSurvive(payload, path);
      assert Child(payload, path[0]).Some? && path[0].Key?;
      assert moved != [] && moved[0] == path[0];
      if path[0] == Key("_truncated") {
        assert |path| > 1 && |moved| > 1 by {
          UnderMark(payload, path);
        }
        assert [Key("_truncated")][1..] == [];
        assert Child(want, moved[0]) == Some(JBool(true));
        assert Child(JBool(true), moved[1..][0]) == None;
      } else {
        DescendSame(want, WalkCompact(payload), moved);
      }
    }
  }

  lemma UnderMark(payload: Json, path: seq<Step>)
    requires EndsAtId(path) && path[0] == Key("_truncated") && Lookup(payload, path).Some?
    requires payload.JDict?
    ensures |path| > 1 && |Moved(payload, path)| > 1
  {
    var child := Child(payload, path[0]).value;
    assert !IsIdKey("_truncated");
    assert path[1..] != [] && Child(child, path[1..][0]).Some?;
  }

  // The same of a line: a row that is not oversize shows every such id.
  lemma LineShowsId(e: Event, cap: int, line: string, path: seq<Step>)
    requires e.payload.JDict? && LineShows(e, cap, line)
    requires EndsAtId(path) && Sampled(e.payload, path) && Lookup(e.payload, path).Some?
    requires Size(e.payload) <= cap || path[0] != Key("_truncated")
    requires Lookup(ReadJson(line).value, [Key("payload")]) != Some(OVERSIZE)
    ensures ReadJson(line).Some?
    ensures Lookup(ReadJson(line).value, [Key("payload")] + ShownPath(e.payload, cap, path)) == Lookup(e.payload, path)
  {
    hide IsRowOf, IsWanted, Size, Sampled, EndsAtId, ReadJson;
    var row, want, shown :|
      && IsWanted(e.payload, cap, want) && IsRowOf(row, e, want) && ReadJson(line) == Some(shown)
      && if Size(row) <= cap then shown == row else IsRowOf(shown, e, OVERSIZE);
    if Size(row) > cap {
      PayloadOf(shown, e, OVERSIZE, []);
    }
    IdShownExactly(e.payload, cap, want, path);
    PayloadOf(row, e, want, ShownPath(e.payload, cap, path));
  }

  lemma PayloadOf(row: Json, e: Event, payload: Json, rest: seq<Step>)
    requires IsRowOf(row, e, payload)
    ensures Lookup(row, [Key("payload")]) == Some(payload)
    ensures Lookup(row, [Key("payload")] + rest) == Lookup(payload, rest)
  {
    assert ([Key("payload")] + rest)[1..] == rest && [Key("payload")][1..] == [];
    assert Child(row, Key("payload")) == Some(payload);
  }

  // ------------------------------------------------------------ the whole block

  // The lines of a text.
  function SplitLines(s: string): (r: seq<string>)
    ensures r != []
  {
    if s == [] then [[]]
    else if s[0] == '\n' then [[]] + SplitLines(s[1..])
    else
      var rest := SplitLines(s[1..]);
      [[s[0]] + rest[0]] + rest[1..]
  }

  predicate OneLine(s: string)
  {
    '\n' !in s
  }

  // Bytes of the lines, each with its newline.
  function Cost(lines: seq<string>): nat
  {
    if lines == [] then 0 else Utf8Len(lines[0]) + 1 + Cost(lines[1..])
  }

  // The window starts at `k`: what follows fits, or is the last line alone, and
  // no longer suffix fits.
  ghost predicate IsWindow(lines: seq<string>, budget: int, k: nat)
  {
    && k < |lines|
    && (Cost(lines[k..]) <= budget || k == |lines| - 1)
    && forall j :: 0 <= j < k ==> Cost(lines[j..]) > budget
  }

  // The block is the header and then, oldest first, the lines of as many of the
  // newest events as the budget allows.
  ghost predicate BlockShows(header: string, newestFirst: seq<Event>, budget: int, cap: int, block: string)
  {
    var n := |newestFirst|;
    exists lines, start ::
      && |lines| == n && (forall i :: 0 <= i < n ==> LineShows(newestFirst[n - 1 - i], cap, lines[i]))
      && IsWindow(lines, budget, start) && SplitLines(block) == [header] + lines[start..]
  }
}
