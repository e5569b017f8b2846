// The recursive compaction of event payloads.

module Compaction {
  import opened Options
  import opened Json
  import opened Text

  const LONG_STRING_LIMIT := 200
  const LONG_STRING_PREVIEW := 80
  const LARGE_LIST_LIMIT := 50

  predicate EndsWith(s: string, suffix: string)
  {
    |s| >= |suffix| && s[|s| - |suffix|..] == suffix
  }

  predicate IsIdKey(key: string)
  {
    key in {"id", "provider_object_ids", "provider_event_ref"} || EndsWith(key, "_id") || EndsWith(key, "_ids")
  }

  function Decimal(n: nat): string
  {
    (if n < 10 then [] else Decimal(n / 10)) + [('0' as int + n % 10) as char]
  }

  function Summary(text: string): Json
  {
    JDict([Field("_truncated_str", JBool(true)),
           Field("_byte_size", JNum(Decimal(Utf8Len(text)))),
           Field("_preview", JStr(if |text| <= LONG_STRING_PREVIEW then text else text[..LONG_STRING_PREVIEW]))])
  }

  function WalkCompact(v: Json): Json
    decreases v, 1
  {
    match v
    case JNull => v
    case JBool(_) => v
    case JNum(_) => v
    case JStr(text) => if |text| <= LONG_STRING_LIMIT then v else Summary(text)
    case JList(items) =>
      var walked := WalkItems(items);
      if |items| > LARGE_LIST_LIMIT then
        JDict([Field("_kind", JStr("list")),
               Field("_size", JNum(Decimal(|items|))),
               Field("_sampled", JList(walked[..LARGE_LIST_LIMIT]))])
      else JList(walked)
    case JDict(fields) => JDict(WalkFields(fields))
  }

  function WalkItems(items: seq<Json>): (r: seq<Json>)
    ensures |r| == |items|
    decreases items, 0
  {
    if items == [] then [] else [WalkCompact(items[0])] + WalkItems(items[1..])
  }

  function WalkFields(fields: seq<Field>): (r: seq<Field>)
    ensures |r| == |fields|
    decreases fields, 0
  {
    if fields == [] then []
    else
      var f := fields[0];
      [if IsIdKey(f.key) then f else Field(f.key, WalkCompact(f.value))] + WalkFields(fields[1..])
  }

  lemma {:induction false} WalkItemsAt(items: seq<Json>, i: nat)
    requires i < |items|
    ensures WalkItems(items)[i] == WalkCompact(items[i])
  {
    if i > 0 {
      WalkItemsAt(items[1..], i - 1);
    }
  }

  lemma {:induction false} WalkFieldsAt(fields: seq<Field>, i: nat)
    requires i < |fields|
    ensures WalkFields(fields)[i] ==
            if IsIdKey(fields[i].key) then fields[i] else Field(fields[i].key, WalkCompact(fields[i].value))
  {
    if i > 0 {
      WalkFieldsAt(fields[1..], i - 1);
    }
  }

  // ------------------------------------------------------- bounds, idempotence

  // Outside ID keys, no long string and no long list.
  ghost predicate Compact(v: Json)
    decreases v
  {
    match v
    case JStr(text) => |text| <= 200
    case JList(items) => |items| <= 50 && forall i :: 0 <= i < |items| ==> Compact(items[i])
    case JDict(fields) => forall i :: 0 <= i < |fields| && !IsIdKey(fields[i].key) ==> Compact(fields[i].value)
    case JNull => true
    case JBool(_) => true
    case JNum(_) => true
  }

  lemma {:induction false} WalkedIsCompact(v: Json)
    ensures Compact(WalkCompact(v))
    decreases v
  {
    match v
    case JList(items) =>
      forall i | 0 <= i < |items|
        ensures Compact(WalkItems(items)[i])
      {
        WalkItemsAt(items, i);
        WalkedIsCompact(items[i]);
      }
      if |items| > LARGE_LIST_LIMIT {
        assert forall i :: 0 <= i < LARGE_LIST_LIMIT ==> WalkItems(items)[..LARGE_LIST_LIMIT][i] == WalkItems(items)[i];
        assert Compact(JList(WalkItems(items)[..LARGE_LIST_LIMIT]));
      }
    case JDict(fields) =>
      forall i | 0 <= i < |fields|
        ensures WalkFields(fields)[i].key == fields[i].key
        ensures !IsIdKey(fields[i].key) ==> Compact(WalkFields(fields)[i].value)
      {
        WalkFieldsAt(fields, i);
        WalkedIsCompact(fields[i].value);
      }
    case JStr(_) =>
    case JNull =>
    case JBool(_) =>
    case JNum(_) =>
  }

  lemma {:induction false} CompactIsFixed(v: Json)
    requires Compact(v)
    ensures WalkCompact(v) == v
    decreases v
  {
    match v
    case JList(items) =>
      forall i | 0 <= i < |items|
        ensures WalkItems(items)[i] == items[i]
      {
        WalkItemsAt(items, i);
        CompactIsFixed(items[i]);
      }
      assert WalkItems(items) == items;
    case JDict(fields) =>
      forall i | 0 <= i < |fields|
        ensures WalkFields(fields)[i] == fields[i]
      {
        WalkFieldsAt(fields, i);
        if !IsIdKey(fields[i].key) {
          CompactIsFixed(fields[i].value);
        }
      }
      assert WalkFields(fields) == fields;
    case _ =>
  }

  // Compaction changes nothing exactly when there is nothing to compact, and
  // compacting twice is compacting once.
  lemma WalkFixpoint(v: Json)
    ensures WalkCompact(v) == v <==> Compact(v)
    ensures WalkCompact(WalkCompact(v)) == WalkCompact(v)
  {
    WalkedIsCompact(v);
    CompactIsFixed(WalkCompact(v));
    if Compact(v) {
      CompactIsFixed(v);
    }
  }

  // -------------------------------------------------- canonical ids survive

  datatype Step = Key(key: string) | Index(index: nat)

  function FindField(fields: seq<Field>, key: string): Option<Json>
  {
    if fields == [] then None
    else if fields[0].key == key then Some(fields[0].value)
    else FindField(fields[1..], key)
  }

  function Child(v: Json, step: Step): Option<Json>
  {
    match step
    case Key(key) => if v.JDict? then FindField(v.fields, key) else None
    case Index(i) => if v.JList? && i < |v.items| then Some(v.items[i]) else None
  }

  function Lookup(v: Json, path: seq<Step>): Option<Json>
    decreases |path|
  {
    if path == [] then Some(v)
    else
      match Child(v, path[0])
      case None => None
      case Some(child) => Lookup(child, path[1..])
  }

  // Non-ID keys and indices, and then an ID key.
  predicate EndsAtId(path: seq<Step>)
  {
    && path != [] && path[|path| - 1].Key? && IsIdKey(path[|path| - 1].key)
    && forall i :: 0 <= i < |path| - 1 ==> path[i].Key? ==> !IsIdKey(path[i].key)
  }

  // Every list on the way is short, or its sampled part is entered.
  predicate Sampled(v: Json, path: seq<Step>)
    decreases |path|
  {
    path != [] ==>
      && (v.JList? && |v.items| > LARGE_LIST_LIMIT ==> path[0].Index? && path[0].index < LARGE_LIST_LIMIT)
      && match Child(v, path[0])
         case None => true
         case Some(child) => Sampled(child, path[1..])
  }

  // The same place in the compacted value: a long list is entered by `_sampled`.
  function Moved(v: Json, path: seq<Step>): seq<Step>
    decreases |path|
  {
    if path == [] then []
    else
      match Child(v, path[0])
      case None => path
      case Some(child) =>
        (if v.JList? && |v.items| > LARGE_LIST_LIMIT then [Key("_sampled"), path[0]] else [path[0]])
        + if path[0].Key? && IsIdKey(path[0].key) then path[1..] else Moved(child, path[1..])
  }

  lemma {:induction false} FindWalkedField(fields: seq<Field>, key: string)
    ensures FindField(WalkFields(fields), key) ==
            match FindField(fields, key)
            case None => None
            case Some(x) => Some(if IsIdKey(key) then x else WalkCompact(x))
  {
    if fields != [] {
      FindWalkedField(fields[1..], key);
    }
  }

  lemma WalkedChild(v: Json, step: Step)
    requires !(v.JList? && |v.items| > LARGE_LIST_LIMIT) && !(v.JStr? && |v.text| > LONG_STRING_LIMIT)
    ensures Child(WalkCompact(v), step) ==
            match Child(v, step)
            case None => None
            case Some(x) => Some(if step.Key? && IsIdKey(step.key) then x else WalkCompact(x))
  {
    if v.JDict? && step.Key? {
      FindWalkedField(v.fields, step.key);
    } else if v.JList? && step.Index? && step.index < |v.items| {
      WalkItemsAt(v.items, step.index);
    }
  }

  // Every canonical id is still there after compaction, untouched, at the same
  // path or, past a long list, under `_sampled`.
  lemma {:induction false} IdsSurvive(v: Json, path: seq<Step>)
    requires EndsAtId(path) && Sampled(v, path)
    ensures Lookup(v, path).Some? ==> Lookup(WalkCompact(v), Moved(v, path)) == Lookup(v, path)
    decreases |path|
  {
    var child := Child(v, path[0]);
    if child.Some? {
      var rest := path[1..];
      var isId := path[0].Key? && IsIdKey(path[0].key);
      if v.JList? && |v.items| > LARGE_LIST_LIMIT {
        var i := path[0].index;
        IdsSurvive(child.value, rest);
        WalkItemsAt(v.items, i);
        SampledLookup(v, path[0], Moved(child.value, rest));
      } else {
        WalkedChild(v, path[0]);
        if isId {
          assert rest == [] && [path[0]] + rest == path;
        } else {
          IdsSurvive(child.value, rest);
          assert ([path[0]] + Moved(child.value, rest))[1..] == Moved(child.value, rest);
        }
      }
    }
  }

  lemma SampledLookup(v: Json, step: Step, rest: seq<Step>)
    requires v.JList? && |v.items| > LARGE_LIST_LIMIT && step.Index? && step.index < LARGE_LIST_LIMIT
    ensures Lookup(WalkCompact(v), [Key("_sampled"), step] + rest) == Lookup(WalkCompact(v.items[step.index]), rest)
  {
    var sampled := JList(WalkItems(v.items)[..LARGE_LIST_LIMIT]);
    var path := [Key("_sampled"), step] + rest;
    var fields := WalkCompact(v).fields;
    WalkItemsAt(v.items, step.index);
    assert fields[1..][1..][0] == Field("_sampled", sampled);
    assert FindField(fields, "_sampled") == FindField(fields[1..], "_sampled");
    assert FindField(fields[1..], "_sampled") == FindField(fields[1..][1..], "_sampled");
    assert path[1..] == [step] + rest && path[1..][1..] == rest;
  }

  // Where every list is short, lookups agree whether or not the id is there.
  predicate ShortLists(v: Json, path: seq<Step>)
    decreases |path|
  {
    && (v.JList? ==> |v.items| <= LARGE_LIST_LIMIT)
    && (path != [] ==>
          match Child(v, path[0])
          case None => true
          case Some(child) => ShortLists(child, path[1..]))
  }

  lemma {:induction false} IdLookupsAgree(v: Json, path: seq<Step>)
    requires EndsAtId(path) && ShortLists(v, path)
    ensures Lookup(WalkCompact(v), path) == Lookup(v, path)
    decreases |path|
  {
    if v.JStr? && |v.text| > LONG_STRING_LIMIT {
      SummaryHasNoId(v.text, path);
    } else {
      WalkedChild(v, path[0]);
      if Child(v, path[0]).Some? && |path| > 1 {
        IdLookupsAgree(Child(v, path[0]).value, path[1..]);
      }
    }
  }

  lemma {:induction false} FoundIsAField(fields: seq<Field>, key: string)
    ensures FindField(fields, key).Some? ==> Field(key, FindField(fields, key).value) in fields
  {
    if fields != [] && fields[0].key != key {
      FoundIsAField(fields[1..], key);
    }
  }

  // The summary of a long string holds scalars only, none under an ID key.
  lemma SummaryHasNoId(text: string, path: seq<Step>)
    requires EndsAtId(path)
    ensures Lookup(Summary(text), path) == None
  {
    hide IsIdKey, Utf8Len;
    if path[0].Key? {
      FoundIsAField(Summary(text).fields, path[0].key);
      SummaryKeys(text);
      if Child(Summary(text), path[0]).Some? && |path| > 1 {
        assert Child(Child(Summary(text), path[0]).value, path[1..][0]) == None;
      }
    }
  }

  lemma SummaryKeys(text: string)
    ensures forall f :: f in Summary(text).fields ==> !IsIdKey(f.key) && !f.value.JDict? && !f.value.JList?
  {
  }

  // ------------------------------------------------------ what compaction shows

  // The number that decimal digits denote.
  function Denoted(digits: string): int
  {
    if digits == [] then 0
    else Denoted(digits[..|digits| - 1]) * 10 + (digits[|digits| - 1] as int - '0' as int)
  }

  lemma {:induction false} DecimalDenotes(n: nat)
    ensures Denoted(Decimal(n)) == n && Decimal(n) != []
    ensures forall i :: 0 <= i < |Decimal(n)| ==> '0' <= Decimal(n)[i] <= '9'
  {
    var digits := Decimal(n);
    if n >= 10 {
      DecimalDenotes(n / 10);
      assert digits[..|digits| - 1] == Decimal(n / 10);
    } else {
      assert digits == [('0' as int + n) as char] && digits[..0] == [];
    }
  }

  // A long string is shown by its start and its size in bytes.
  lemma LongStringShown(text: string)
    requires |text| > 200
    ensures var shown := WalkCompact(JStr(text));
            && shown.JDict? && |shown.fields| == 3
            && Lookup(shown, [Key("_truncated_str")]) == Some(JBool(true))
            && Lookup(shown, [Key("_preview")]) == Some(JStr(text[..80]))
            && (match Lookup(shown, [Key("_byte_size")])
                case Some(JNum(size)) => Denoted(size) == Utf8Len(text)
                case _ => false)
  {
    hide Utf8Len, Decimal;
    DecimalDenotes(Utf8Len(text));
    var fields := Summary(text).fields;
    assert fields[1..][0] == fields[1] && fields[1..][1..][0] == fields[2];
    Found(fields, "_truncated_str", 0);
    Found(fields, "_byte_size", 1);
    Found(fields, "_preview", 2);
  }

  // A long list is shown by its size and its first fifty items, each compacted.
  lemma LongListShown(items: seq<Json>)
    requires |items| > 50
    ensures var shown := WalkCompact(JList(items));
            && shown.JDict? && |shown.fields| == 3
            && Lookup(shown, [Key("_kind")]) == Some(JStr("list"))
            && (match Lookup(shown, [Key("_size")])
                case Some(JNum(size)) => Denoted(size) == |items|
                case _ => false)
            && (match Lookup(shown, [Key("_sampled")])
                case Some(JList(sampled)) =>
                  |sampled| == 50 && forall i :: 0 <= i < 50 ==> sampled[i] == WalkCompact(items[i])
                case _ => false)
  {
    hide Decimal;
    DecimalDenotes(|items|);
    var fields := WalkCompact(JList(items)).fields;
    Found(fields, "_kind", 0);
    Found(fields, "_size", 1);
    Found(fields, "_sampled", 2);
    forall i | 0 <= i < 50
      ensures WalkItems(items)[..LARGE_LIST_LIMIT][i] == WalkCompact(items[i])
    {
      WalkItemsAt(items, i);
    }
  }

  lemma {:induction false} Found(fields: seq<Field>, key: string, i: nat)
    requires i < |fields| && fields[i].key == key && forall j :: 0 <= j < i ==> fields[j].key != key
    ensures FindField(fields, key) == Some(fields[i].value)
    ensures Lookup(JDict(fields), [Key(key)]) == Some(fields[i].value)
  {
    if i > 0 {
      Found(fields[1..], key, i - 1);
    }
    assert [Key(key)][1..] == [];
  }

  // Everything else stays in its place: what stands at a path of non-ID keys and
  // indices stands there compacted, below a long list under `_sampled`.
  lemma {:induction false} PlacesSurvive(v: Json, path: seq<Step>)
    requires Sampled(v, path) && forall i :: 0 <= i < |path| && path[i].Key? ==> !IsIdKey(path[i].key)
    ensures Lookup(v, path).Some? ==>
              Lookup(WalkCompact(v), Moved(v, path)) == Some(WalkCompact(Lookup(v, path).value))
    decreases |path|
  {
    if path != [] && Child(v, path[0]).Some? {
      var child, rest := Child(v, path[0]).value, path[1..];
      PlacesSurvive(child, rest);
      if v.JList? && |v.items| > LARGE_LIST_LIMIT {
        WalkItemsAt(v.items, path[0].index);
        SampledLookup(v, path[0], Moved(child, rest));
      } else {
        WalkedChild(v, path[0]);
        assert ([path[0]] + Moved(child, rest))[1..] == Moved(child, rest);
      }
    }
  }

  // An object keeps its keys, in order, and a list that is not long its length.
  lemma KeysSurvive(v: Json)
    ensures v.JDict? ==>
              var w := WalkCompact(v);
              && w.JDict? && |w.fields| == |v.fields|
              && forall i :: 0 <= i < |v.fields| ==> w.fields[i].key == v.fields[i].key
    ensures v.JList? && |v.items| <= LARGE_LIST_LIMIT ==>
              WalkCompact(v).JList? && |WalkCompact(v).items| == |v.items|
  {
    if v.JDict? {
      forall i | 0 <= i < |v.fields|
        ensures WalkFields(v.fields)[i].key == v.fields[i].key
      {
        WalkFieldsAt(v.fields, i);
      }
    }
  }
}
