// JSON text: the compact rendering of a value, and reading it back.

module JsonText {
  import opened Options
  import opened Json

  // ----------------------------------------------------------- JSON rendering

  function HexDigit(n: nat): char
    requires n < 16
  {
    if n < 10 then ('0' as int + n) as char else ('a' as int + (n - 10)) as char
  }

  function Hex4(n: nat): string
    requires n < 0x1_0000
  {
    [HexDigit(n / 0x1000), HexDigit(n / 0x100 % 16), HexDigit(n / 0x10 % 16), HexDigit(n % 16)]
  }

  // One character of a string literal, escaped to ASCII.
  function Escape(c: char): string
  {
    var n := c as int;
    if c == '"' then "\\\""
    else if c == '\\' then "\\\\"
    else if n == 0x0a then "\\n"
    else if n == 0x0d then "\\r"
    else if n == 0x09 then "\\t"
    else if n == 0x0c then "\\f"
    else if n == 0x08 then "\\b"
    else if 0x20 <= n < 0x7f then [c]
    else if n < 0x1_0000 then "\\u" + Hex4(n)
    else
      var v := n - 0x1_0000;
      "\\u" + Hex4(0xd800 + v / 0x400) + "\\u" + Hex4(0xdc00 + v % 0x400)
  }

  function EscapeAll(s: string): string
  {
    if s == [] then [] else Escape(s[0]) + EscapeAll(s[1..])
  }

  function Quoted(s: string): string
  {
    "\"" + EscapeAll(s) + "\""
  }

  // `json.dumps` with the compact separators; number literals are kept as given.
  function Dumps(v: Json): string
    decreases v, 1
  {
    match v
    case JNull => "null"
    case JBool(flag) => if flag then "true" else "false"
    case JNum(literal) => literal
    case JStr(text) => Quoted(text)
    case JList(items) => "[" + DumpItems(items) + "]"
    case JDict(fields) => "{" + DumpFields(fields) + "}"
  }

  function DumpItems(items: seq<Json>): string
    decreases items, 0
  {
    if items == [] then []
    else Dumps(items[0]) + (if |items| > 1 then "," else "") + DumpItems(items[1..])
  }

  function DumpFields(fields: seq<Field>): string
    decreases fields, 0
  {
    if fields == [] then []
    else
      Quoted(fields[0].key) + ":" + Dumps(fields[0].value) + (if |fields| > 1 then "," else "")
      + DumpFields(fields[1..])
  }

  // ------------------------------------------------------------------- reading
  // A reader of compact JSON by the grammar of RFC 8259, sections 3 to 7.

  function HexValue(c: char): (r: Option<nat>)
    ensures r.Some? ==> r.value < 16
  {
    if '0' <= c <= '9' then Some(c as int - '0' as int)
    else if 'a' <= c <= 'f' then Some(c as int - 'a' as int + 10)
    else if 'A' <= c <= 'F' then Some(c as int - 'A' as int + 10)
    else None
  }

  // The value of the first four characters as hexadecimal digits.
  function HexUnit(s: string): (r: Option<nat>)
    ensures r.Some? ==> r.value < 0x1_0000 && |s| >= 4
  {
    if |s| < 4 then None
    else
      var a, b, c, d := HexValue(s[0]), HexValue(s[1]), HexValue(s[2]), HexValue(s[3]);
      if a.Some? && b.Some? && c.Some? && d.Some? then
        Some(a.value * 0x1000 + b.value * 0x100 + c.value * 0x10 + d.value)
      else None
  }

  // What follows `\u`: one code unit, or a surrogate pair.
  function ReadUnicode(s: string): (r: Option<(char, string)>)
    ensures r.Some? ==> |r.value.1| < |s|
  {
    match HexUnit(s)
    case None => None
    case Some(hi) =>
      if hi < 0xd800 || 0xe000 <= hi then Some((hi as char, s[4..]))
      else if hi >= 0xdc00 || |s| < 6 || s[4] != '\\' || s[5] != 'u' then None
      else
        match HexUnit(s[6..])
        case None => None
        case Some(lo) =>
          if lo < 0xdc00 || 0xe000 <= lo then None
          else Some(((0x1_0000 + (hi - 0xd800) * 0x400 + (lo - 0xdc00)) as char, s[10..]))
  }

  // One character of a string literal.
  function ReadChar(s: string): (r: Option<(char, string)>)
    ensures r.Some? ==> |r.value.1| < |s|
  {
    if s == [] || s[0] as int < 0x20 || s[0] == '"' then None
    else if s[0] != '\\' then Some((s[0], s[1..]))
    else if |s| < 2 then None
    else
      match s[1]
      case '"' => Some(('"', s[2..]))
      case '\\' => Some(('\\', s[2..]))
      case '/' => Some(('/', s[2..]))
      case 'b' => Some((8 as char, s[2..]))
      case 'f' => Some((12 as char, s[2..]))
      case 'n' => Some(('\n', s[2..]))
      case 'r' => Some(('\r', s[2..]))
      case 't' => Some(('\t', s[2..]))
      case 'u' => ReadUnicode(s[2..])
      case _ => None
  }

  // A string literal, behind its opening quote.
  function ReadString(s: string): (r: Option<(string, string)>)
    ensures r.Some? ==> |r.value.1| < |s|
    decreases |s|
  {
    if s == [] then None
    else if s[0] == '"' then Some(([], s[1..]))
    else
      match ReadChar(s)
      case None => None
      case Some((c, rest)) =>
        match ReadString(rest)
        case None => None
        case Some((text, end)) => Some(([c] + text, end))
  }

  predicate InNumber(c: char)
  {
    '0' <= c <= '9' || c in {'-', '+', '.', 'e', 'E'}
  }

  function NumberLen(s: string): (n: nat)
    ensures n <= |s|
  {
    if s == [] || !InNumber(s[0]) then 0 else 1 + NumberLen(s[1..])
  }

  function ReadValue(s: string): (r: Option<(Json, string)>)
    ensures r.Some? ==> |r.value.1| < |s|
    decreases |s|, 0
  {
    if "null" <= s then Some((JNull, s[4..]))
    else if "true" <= s then Some((JBool(true), s[4..]))
    else if "false" <= s then Some((JBool(false), s[5..]))
    else if "\"" <= s then
      match ReadString(s[1..])
      case None => None
      case Some((text, rest)) => Some((JStr(text), rest))
    else if "[]" <= s then Some((JList([]), s[2..]))
    else if "[" <= s then
      match ReadItems(s[1..])
      case None => None
      case Some((items, rest)) => Some((JList(items), rest))
    else if "{}" <= s then Some((JDict([]), s[2..]))
    else if "{" <= s then
      match ReadFields(s[1..])
      case None => None
      case Some((fields, rest)) => Some((JDict(fields), rest))
    else if NumberLen(s) > 0 then Some((JNum(s[..NumberLen(s)]), s[NumberLen(s)..]))
    else None
  }

  // One or more values up to the closing bracket.
  function ReadItems(s: string): (r: Option<(seq<Json>, string)>)
    ensures r.Some? ==> |r.value.1| < |s|
    decreases |s|, 1
  {
    match ReadValue(s)
    case None => None
    case Some((first, rest)) =>
      if "]" <= rest then Some(([first], rest[1..]))
      else if "," <= rest then
        match ReadItems(rest[1..])
        case None => None
        case Some((more, end)) => Some(([first] + more, end))
      else None
  }

  // One or more named values up to the closing brace.
  function ReadFields(s: string): (r: Option<(seq<Field>, string)>)
    ensures r.Some? ==> |r.value.1| < |s|
    decreases |s|, 1
  {
    if !("\"" <= s) then None
    else
      match ReadString(s[1..])
      case None => None
      case Some((key, named)) =>
        if !(":" <= named) then None
        else
          match ReadValue(named[1..])
          case None => None
          case Some((value, rest)) =>
            if "}" <= rest then Some(([Field(key, value)], rest[1..]))
            else if "," <= rest then
              match ReadFields(rest[1..])
              case None => None
              case Some((more, end)) => Some(([Field(key, value)] + more, end))
            else None
  }

  // The value that a whole text denotes.
  function ReadJson(s: string): Option<Json>
  {
    match ReadValue(s)
    case None => None
    case Some((v, rest)) => if rest == [] then Some(v) else None
  }

  // ---------------------------------------------------------------- round trip

  predicate IsNumber(literal: string)
  {
    literal != [] && forall i :: 0 <= i < |literal| ==> InNumber(literal[i])
  }

  // Every number is carried as a number literal.
  predicate Readable(v: Json)
    decreases v
  {
    match v
    case JNum(literal) => IsNumber(literal)
    case JList(items) => forall i :: 0 <= i < |items| ==> Readable(items[i])
    case JDict(fields) => forall i :: 0 <= i < |fields| ==> Readable(fields[i].value)
    case _ => true
  }

  lemma HexDigitRead(n: nat)
    requires n < 16
    ensures HexValue(HexDigit(n)) == Some(n)
  {
  }

  lemma Hex4Read(n: nat, rest: string)
    requires n < 0x1_0000
    ensures HexUnit(Hex4(n) + rest) == Some(n) && (Hex4(n) + rest)[4..] == rest
  {
    HexDigitRead(n / 0x1000);
    HexDigitRead(n / 0x100 % 16);
    HexDigitRead(n / 0x10 % 16);
    HexDigitRead(n % 16);
    var s := Hex4(n) + rest;
    assert s[0] == Hex4(n)[0] && s[1] == Hex4(n)[1] && s[2] == Hex4(n)[2] && s[3] == Hex4(n)[3];
    Digits(n);
  }

  lemma Digits(n: nat)
    requires n < 0x1_0000
    ensures n / 0x1000 < 16 && n / 0x1000 * 0x1000 + n / 0x100 % 16 * 0x100 + n / 0x10 % 16 * 0x10 + n % 16 == n
  {
  }

  lemma Cat3(a: string, b: string, c: string)
    ensures (a + b) + c == a + (b + c)
  {
  }

  lemma PairRead(c: char, rest: string)
    requires c as int >= 0x1_0000
    ensures var v := c as int - 0x1_0000;
            ReadUnicode(Hex4(0xd800 + v / 0x400) + ("\\u" + (Hex4(0xdc00 + v % 0x400) + rest))) == Some((c, rest))
  {
    var v := c as int - 0x1_0000;
    var low := Hex4(0xdc00 + v % 0x400) + rest;
    var s := Hex4(0xd800 + v / 0x400) + ("\\u" + low);
    Hex4Read(0xd800 + v / 0x400, "\\u" + low);
    Hex4Read(0xdc00 + v % 0x400, rest);
    hide Hex4, HexUnit;
    assert s[4] == s[4..][0] && s[5] == s[4..][1];
    assert s[6..] == s[4..][2..] == low;
    assert s[10..] == low[4..];
  }

  lemma UnitRead(c: char, rest: string)
    requires c as int < 0x1_0000
    ensures ReadUnicode(Hex4(c as int) + rest) == Some((c, rest))
  {
    Hex4Read(c as int, rest);
  }

  lemma CharRead(c: char, rest: string)
    ensures Escape(c) != [] && Escape(c)[0] != '"'
    ensures ReadChar(Escape(c) + rest) == Some((c, rest))
  {
    var n := c as int;
    if n >= 0x1_0000 {
      var hi, lo := Hex4(0xd800 + (n - 0x1_0000) / 0x400), Hex4(0xdc00 + (n - 0x1_0000) % 0x400);
      PairRead(c, rest);
      assert Escape(c) == "\\u" + hi + ("\\u" + lo);
      hide Hex4, ReadUnicode, Escape;
      Cat4("\\u", hi, "\\u" + lo, rest);
      Cat3("\\u", lo, rest);
      UnicodeStep(hi + ("\\u" + (lo + rest)));
    } else if |Escape(c)| == 6 {
      UnitRead(c, rest);
      assert Escape(c) == "\\u" + Hex4(n);
      hide Hex4, ReadUnicode, Escape;
      Cat3("\\u", Hex4(n), rest);
      UnicodeStep(Hex4(n) + rest);
    } else {
      hide ReadUnicode;
      var s := Escape(c) + rest;
      assert s[|Escape(c)|..] == rest && s[0] == Escape(c)[0];
    }
  }

  lemma UnicodeStep(body: string)
    ensures ReadChar("\\u" + body) == ReadUnicode(body)
  {
    hide ReadUnicode;
    var s := "\\u" + body;
    assert s[0] == '\\' && s[1] == 'u' && s[2..] == body;
  }

  lemma {:induction false} StringRead(text: string, rest: string)
    ensures ReadString(EscapeAll(text) + ("\"" + rest)) == Some((text, rest))
  {
    if text == [] {
      var s := "\"" + rest;
      assert EscapeAll(text) + s == s && s[0] == '"' && s[1..] == rest;
    } else {
      var tail := EscapeAll(text[1..]) + ("\"" + rest);
      StringRead(text[1..], rest);
      CharRead(text[0], tail);
      assert EscapeAll(text) == Escape(text[0]) + EscapeAll(text[1..]);
      hide ReadChar, Escape, EscapeAll, ReadString;
      CharStep(Escape(text[0]), text[0], tail, text[1..], rest);
      Cat3(Escape(text[0]), EscapeAll(text[1..]), "\"" + rest);
      assert text == [text[0]] + text[1..];
    }
  }

  lemma CharStep(head: string, c: char, tail: string, text: string, rest: string)
    requires head != [] && head[0] != '"'
    requires ReadChar(head + tail) == Some((c, tail)) && ReadString(tail) == Some((text, rest))
    ensures ReadString(head + tail) == Some(([c] + text, rest))
  {
    hide ReadChar;
    assert (head + tail)[0] == head[0];
  }

  // Nothing of a number can follow.
  predicate Ends(rest: string)
  {
    rest == [] || rest[0] in {',', ']', '}'}
  }

  lemma {:induction false} NumberRead(literal: string, rest: string)
    requires (forall i :: 0 <= i < |literal| ==> InNumber(literal[i])) && Ends(rest)
    ensures NumberLen(literal + rest) == |literal|
  {
    if literal == [] {
      assert literal + rest == rest;
    } else {
      assert (literal + rest)[1..] == literal[1..] + rest;
      NumberRead(literal[1..], rest);
    }
  }

  lemma NumberValueRead(literal: string, rest: string)
    requires IsNumber(literal) && Ends(rest)
    ensures ReadValue(literal + rest) == Some((JNum(literal), rest))
  {
    var s := literal + rest;
    NumberRead(literal, rest);
    assert s[0] == literal[0] && s[..|literal|] == literal && s[|literal|..] == rest;
  }

  lemma StringValueRead(text: string, rest: string)
    ensures ReadValue(Quoted(text) + rest) == Some((JStr(text), rest))
  {
    var s := Quoted(text) + rest;
    StringRead(text, rest);
    hide EscapeAll, ReadString;
    assert s == "\"" + (EscapeAll(text) + ("\"" + rest));
    assert s[0] == '"' && s[1..] == EscapeAll(text) + ("\"" + rest);
  }

  lemma WordRead(rest: string)
    ensures ReadValue("null" + rest) == Some((JNull, rest))
    ensures ReadValue("true" + rest) == Some((JBool(true), rest))
    ensures ReadValue("false" + rest) == Some((JBool(false), rest))
  {
    var n, t, f := "null" + rest, "true" + rest, "false" + rest;
    assert n[..4] == "null" && t[..4] == "true" && f[..5] == "false" && n[4..] == t[4..] == f[5..] == rest;
    assert t[0] == 't' && f[0] == 'f';
  }

  lemma EmptyRead(rest: string)
    ensures ReadValue("[]" + rest) == Some((JList([]), rest))
    ensures ReadValue("{}" + rest) == Some((JDict([]), rest))
  {
    var l, d := "[]" + rest, "{}" + rest;
    assert l[..2] == "[]" && d[..2] == "{}" && l[2..] == d[2..] == rest && l[0] == '[' && d[0] == '{';
  }

  // What a rendered value starts with.
  lemma DumpsStart(v: Json)
    requires Readable(v)
    ensures Dumps(v) != [] && Dumps(v)[0] !in {']', '}', ','}
  {
  }

  lemma {:induction false} ValueRead(v: Json, rest: string)
    requires Readable(v) && Ends(rest)
    ensures ReadValue(Dumps(v) + rest) == Some((v, rest))
    decreases v, 1
  {
    hide ReadValue;
    WordRead(rest);
    EmptyRead(rest);
    match v
    case JNull =>
    case JBool(_) =>
    case JNum(literal) => NumberValueRead(literal, rest);
    case JStr(text) => StringValueRead(text, rest);
    case JList(items) =>
      if items == [] {
        assert Dumps(v) == "[]";
      } else {
        ItemsRead(items, rest);
        ListRead(items, rest);
      }
    case JDict(fields) =>
      if fields == [] {
        assert Dumps(v) == "{}";
      } else {
        FieldsRead(fields, rest);
        DictRead(fields, rest);
      }
  }

  lemma Cat4(a: string, b: string, c: string, d: string)
    ensures (a + b + c) + d == a + (b + (c + d))
  {
  }

  lemma ListRead(items: seq<Json>, rest: string)
    requires items != [] && Readable(items[0]) && ReadItems(DumpItems(items) + ("]" + rest)) == Some((items, rest))
    ensures ReadValue(Dumps(JList(items)) + rest) == Some((JList(items), rest))
  {
    DumpsStart(items[0]);
    assert DumpItems(items)[0] == Dumps(items[0])[0];
    assert Dumps(JList(items)) == "[" + DumpItems(items) + "]";
    hide ReadItems, DumpItems, Dumps;
    Cat4("[", DumpItems(items), "]", rest);
    ListStep(DumpItems(items) + ("]" + rest));
  }

  lemma ListStep(body: string)
    requires body != [] && body[0] != ']' && ReadItems(body).Some?
    ensures ReadValue("[" + body) == Some((JList(ReadItems(body).value.0), ReadItems(body).value.1))
  {
    hide ReadItems;
    var s := "[" + body;
    assert s[0] == '[' && s[1] == body[0] && s[1..] == body;
  }

  lemma DictRead(fields: seq<Field>, rest: string)
    requires fields != [] && ReadFields(DumpFields(fields) + ("}" + rest)) == Some((fields, rest))
    ensures ReadValue(Dumps(JDict(fields)) + rest) == Some((JDict(fields), rest))
  {
    FieldsStart(fields);
    assert Dumps(JDict(fields)) == "{" + DumpFields(fields) + "}";
    hide ReadFields, DumpFields, Dumps;
    Cat4("{", DumpFields(fields), "}", rest);
    DictStep(DumpFields(fields) + ("}" + rest));
  }

  lemma FieldsStart(fields: seq<Field>)
    requires fields != []
    ensures DumpFields(fields) != [] && DumpFields(fields)[0] == '"'
  {
    hide EscapeAll, Dumps;
    assert Quoted(fields[0].key)[0] == '"';
  }

  lemma DictStep(body: string)
    requires body != [] && body[0] == '"' && ReadFields(body).Some?
    ensures ReadValue("{" + body) == Some((JDict(ReadFields(body).value.0), ReadFields(body).value.1))
  {
    hide ReadFields;
    var s := "{" + body;
    assert s[0] == '{' && s[1] == body[0] && s[1..] == body;
  }

  lemma {:induction false} ItemsRead(items: seq<Json>, rest: string)
    requires items != [] && forall i :: 0 <= i < |items| ==> Readable(items[i])
    ensures ReadItems(DumpItems(items) + ("]" + rest)) == Some((items, rest))
    decreases items, 0
  {
    var first, later := Dumps(items[0]), DumpItems(items[1..]);
    if |items| == 1 {
      ValueRead(items[0], "]" + rest);
      LastItem(items[0]);
      hide Dumps, Readable, ReadValue, DumpItems;
      assert items == [items[0]];
      LastStep(first + ("]" + rest), items[0], rest);
    } else {
      var tail := later + ("]" + rest);
      ItemsRead(items[1..], rest);
      ValueRead(items[0], "," + tail);
      assert DumpItems(items) == first + "," + later;
      hide Dumps, Readable, ReadValue, DumpItems, ReadItems;
      Cat4(first, ",", later, "]" + rest);
      MoreStep(first + ("," + tail), items[0], tail, items[1..], rest);
      assert items == [items[0]] + items[1..];
    }
  }

  lemma LastItem(item: Json)
    ensures DumpItems([item]) == Dumps(item)
  {
    assert DumpItems([item][1..]) == [];
    assert Dumps(item) + "" + [] == Dumps(item);
  }

  lemma LastStep(s: string, first: Json, rest: string)
    requires ReadValue(s) == Some((first, "]" + rest))
    ensures ReadItems(s) == Some(([first], rest))
  {
    assert ("]" + rest)[0] == ']' && ("]" + rest)[1..] == rest;
  }

  lemma MoreStep(s: string, first: Json, tail: string, more: seq<Json>, rest: string)
    requires ReadValue(s) == Some((first, "," + tail)) && ReadItems(tail) == Some((more, rest))
    ensures ReadItems(s) == Some(([first] + more, rest))
  {
    var behind := "," + tail;
    assert behind[0] == ',' && behind[1..] == tail;
  }

  lemma {:induction false} FieldsRead(fields: seq<Field>, rest: string)
    requires fields != [] && forall i :: 0 <= i < |fields| ==> Readable(fields[i].value)
    ensures ReadFields(DumpFields(fields) + ("}" + rest)) == Some((fields, rest))
    decreases fields, 0
  {
    var key, value, later := fields[0].key, fields[0].value, DumpFields(fields[1..]);
    hide Dumps, ReadValue, DumpFields, ReadFields;
    if |fields| == 1 {
      ValueRead(value, "}" + rest);
      assert fields == [fields[0]];
      LastFieldRead(fields[0], rest);
    } else {
      FieldsRead(fields[1..], rest);
      ValueRead(value, "," + (later + ("}" + rest)));
      MoreFieldsRead(fields, rest);
    }
  }

  lemma LastFieldRead(field: Field, rest: string)
    requires ReadValue(Dumps(field.value) + ("}" + rest)) == Some((field.value, "}" + rest))
    ensures ReadFields(DumpFields([field]) + ("}" + rest)) == Some(([field], rest))
  {
    hide Dumps, ReadValue, DumpFields, ReadFields;
    LastField(field);
    NamedSplit(field.key, Dumps(field.value), "}" + rest);
    LastFieldStep(field.key, Dumps(field.value), field.value, rest);
  }

  lemma MoreFieldsRead(fields: seq<Field>, rest: string)
    requires |fields| > 1
    requires var tail := DumpFields(fields[1..]) + ("}" + rest);
             && ReadFields(tail) == Some((fields[1..], rest))
             && ReadValue(Dumps(fields[0].value) + ("," + tail)) == Some((fields[0].value, "," + tail))
    ensures ReadFields(DumpFields(fields) + ("}" + rest)) == Some((fields, rest))
  {
    var key, value, later := fields[0].key, fields[0].value, DumpFields(fields[1..]);
    assert DumpFields(fields) == Quoted(key) + ":" + Dumps(value) + "," + later;
    hide Dumps, ReadValue, DumpFields, ReadFields, Quoted;
    Cat4(Quoted(key) + ":" + Dumps(value), ",", later, "}" + rest);
    NamedSplit(key, Dumps(value), "," + (later + ("}" + rest)));
    MoreFieldsStep(key, Dumps(value), value, later + ("}" + rest), fields[1..], rest);
    assert fields == [fields[0]] + fields[1..];
  }

  lemma LastField(field: Field)
    ensures DumpFields([field]) == Quoted(field.key) + ":" + Dumps(field.value)
  {
    hide Quoted, Dumps;
    assert DumpFields([field][1..]) == [];
    var s := Quoted(field.key) + ":" + Dumps(field.value);
    assert s + "" + [] == s;
  }

  // A name and its value, with what follows.
  function Named(key: string, value: string, tail: string): string
  {
    "\"" + (EscapeAll(key) + ("\"" + (":" + (value + tail))))
  }

  lemma NamedSplit(key: string, value: string, tail: string)
    ensures (Quoted(key) + ":" + value) + tail == Named(key, value, tail)
  {
    hide EscapeAll;
    Cat4(Quoted(key), ":", value, tail);
    Cat4("\"", EscapeAll(key), "\"", ":" + (value + tail));
  }

  lemma NamedRead(key: string, value: string, tail: string)
    ensures ReadString(Named(key, value, tail)[1..]) == Some((key, ":" + (value + tail)))
    ensures "\"" <= Named(key, value, tail)
    ensures ":" <= ":" + (value + tail) && (":" + (value + tail))[1..] == value + tail
  {
    hide EscapeAll, ReadString;
    StringRead(key, ":" + (value + tail));
    assert Named(key, value, tail)[1..] == EscapeAll(key) + ("\"" + (":" + (value + tail)));
  }

  lemma LastFieldStep(key: string, text: string, value: Json, rest: string)
    requires ReadValue(text + ("}" + rest)) == Some((value, "}" + rest))
    ensures ReadFields(Named(key, text, "}" + rest)) == Some(([Field(key, value)], rest))
  {
    NamedRead(key, text, "}" + rest);
    hide ReadString, ReadValue, Named;
    assert ("}" + rest)[0] == '}' && ("}" + rest)[1..] == rest;
  }

  lemma MoreFieldsStep(key: string, text: string, value: Json, tail: string, more: seq<Field>, rest: string)
    requires ReadValue(text + ("," + tail)) == Some((value, "," + tail)) && ReadFields(tail) == Some((more, rest))
    ensures ReadFields(Named(key, text, "," + tail)) == Some(([Field(key, value)] + more, rest))
  {
    NamedRead(key, text, "," + tail);
    hide ReadString, ReadValue, Named;
    var behind := "," + tail;
    assert behind[0] == ',' && behind[1..] == tail;
  }

  // Every rendered value reads back as itself.
  lemma ReadBack(v: Json)
    requires Readable(v)
    ensures ReadJson(Dumps(v)) == Some(v)
  {
    ValueRead(v, []);
    assert Dumps(v) + [] == Dumps(v);
  }

  // ------------------------------------------------------------ one line of text

  predicate Printable(s: string)
  {
    forall i :: 0 <= i < |s| ==> 0x20 <= s[i] as int < 0x7f
  }

  lemma PrintableAppend(a: string, b: string)
    requires Printable(a) && Printable(b)
    ensures Printable(a + b)
  {
  }

  lemma EscapePrintable(c: char)
    ensures Printable(Escape(c))
  {
  }

  lemma {:induction false} QuotedPrintable(text: string)
    ensures Printable(EscapeAll(text)) && Printable(Quoted(text))
  {
    if text != [] {
      QuotedPrintable(text[1..]);
      EscapePrintable(text[0]);
      PrintableAppend(Escape(text[0]), EscapeAll(text[1..]));
    }
    PrintableAppend("\"", EscapeAll(text));
    PrintableAppend("\"" + EscapeAll(text), "\"");
  }

  // A rendered value is one line of printable ASCII.
  lemma {:induction false} DumpsPrintable(v: Json)
    requires Readable(v)
    ensures Printable(Dumps(v))
    decreases v, 1
  {
    hide Printable;
    PrintableWords();
    match v
    case JNum(literal) => NumberPrintable(literal);
    case JStr(text) => QuotedPrintable(text);
    case JList(items) =>
      ItemsPrintable(items);
      PrintableAppend("[", DumpItems(items));
      PrintableAppend("[" + DumpItems(items), "]");
    case JDict(fields) =>
      FieldsPrintable(fields);
      PrintableAppend("{", DumpFields(fields));
      PrintableAppend("{" + DumpFields(fields), "}");
    case _ =>
  }

  lemma PrintableWords()
    ensures Printable("null") && Printable("true") && Printable("false") && Printable([])
    ensures Printable("[") && Printable("]") && Printable("{") && Printable("}") && Printable(",") && Printable(":")
  {
  }

  lemma NumberPrintable(literal: string)
    requires IsNumber(literal)
    ensures Printable(literal)
  {
  }

  lemma {:induction false} ItemsPrintable(items: seq<Json>)
    requires forall i :: 0 <= i < |items| ==> Readable(items[i])
    ensures Printable(DumpItems(items))
    decreases items, 0
  {
    hide Printable;
    PrintableWords();
    if items != [] {
      var comma := if |items| > 1 then "," else "";
      DumpsPrintable(items[0]);
      ItemsPrintable(items[1..]);
      PrintableAppend(Dumps(items[0]), comma);
      PrintableAppend(Dumps(items[0]) + comma, DumpItems(items[1..]));
    }
  }

  lemma {:induction false} FieldsPrintable(fields: seq<Field>)
    requires forall i :: 0 <= i < |fields| ==> Readable(fields[i].value)
    ensures Printable(DumpFields(fields))
    decreases fields, 0
  {
    hide Printable;
    PrintableWords();
    if fields != [] {
      var key, value := Quoted(fields[0].key), Dumps(fields[0].value);
      var comma := if |fields| > 1 then "," else "";
      QuotedPrintable(fields[0].key);
      DumpsPrintable(fields[0].value);
      FieldsPrintable(fields[1..]);
      PrintableAppend(key, ":");
      PrintableAppend(key + ":", value);
      PrintableAppend(key + ":" + value, comma);
      PrintableAppend(key + ":" + value + comma, DumpFields(fields[1..]));
    }
  }
}
