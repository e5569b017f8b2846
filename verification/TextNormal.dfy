// The normal form of extracted text and its paragraphs.

module TextNormal {
  import opened Text
  import opened TextLayout

  function DropBlanks(s: string): (r: string)
    ensures |r| <= |s|
  {
    if s != [] && IsBlank(s[0]) then DropBlanks(s[1..]) else s
  }

  // Every run of blanks becomes one space.
  function CollapseBlanks(s: string): string
    decreases |s|
  {
    if s == [] then []
    else if IsBlank(s[0]) then " " + CollapseBlanks(DropBlanks(s[1..]))
    else [s[0]] + CollapseBlanks(s[1..])
  }

  function DropNewlines(s: string): (r: string)
    ensures |r| <= |s|
  {
    if s != [] && s[0] == '\n' then DropNewlines(s[1..]) else s
  }

  // Every run of three or more newlines becomes two.
  function CollapseNewlines(s: string): string
    decreases |s|
  {
    if s == [] then []
    else if "\n\n\n" <= s then "\n\n" + CollapseNewlines(DropNewlines(s[3..]))
    else [s[0]] + CollapseNewlines(s[1..])
  }

  // `s.split("\n\n")`
  function SplitParagraphs(s: string): (r: seq<string>)
    ensures r != []
    decreases |s|
  {
    if s == [] then [[]]
    else if "\n\n" <= s then [[]] + SplitParagraphs(s[2..])
    else
      var rest := SplitParagraphs(s[1..]);
      [[s[0]] + rest[0]] + rest[1..]
  }

  function Normalize(text: string): string
  {
    Strip(CollapseNewlines(CollapseBlanks(text)))
  }

  // ------------------------------------------- normalisation keeps all the ink

  lemma {:induction false} DropBlanksInk(s: string)
    ensures Ink(DropBlanks(s)) == Ink(s)
  {
    if s != [] && IsBlank(s[0]) {
      DropBlanksInk(s[1..]);
    }
  }

  lemma {:induction false} CollapseBlanksInk(s: string)
    ensures Ink(CollapseBlanks(s)) == Ink(s)
    decreases |s|
  {
    if s != [] {
      if IsBlank(s[0]) {
        CollapseBlanksInk(DropBlanks(s[1..]));
        DropBlanksInk(s[1..]);
        InkAppend(" ", CollapseBlanks(DropBlanks(s[1..])));
        assert Ink(" ") == [];
      } else {
        CollapseBlanksInk(s[1..]);
        InkAppend([s[0]], CollapseBlanks(s[1..]));
      }
    }
  }

  lemma {:induction false} DropNewlinesInk(s: string)
    ensures Ink(DropNewlines(s)) == Ink(s)
  {
    if s != [] && s[0] == '\n' {
      DropNewlinesInk(s[1..]);
    }
  }

  lemma {:induction false} CollapseNewlinesInk(s: string)
    ensures Ink(CollapseNewlines(s)) == Ink(s)
    decreases |s|
  {
    if s != [] {
      if "\n\n\n" <= s {
        var rest := s[3..];
        CollapseNewlinesInk(DropNewlines(rest));
        DropNewlinesInk(rest);
        InkAppend("\n\n", CollapseNewlines(DropNewlines(rest)));
        InkOfSpace("\n\n");
        InkOfSpace("\n\n\n");
        assert s == "\n\n\n" + rest;
        InkAppend("\n\n\n", rest);
      } else {
        CollapseNewlinesInk(s[1..]);
        InkAppend([s[0]], CollapseNewlines(s[1..]));
      }
    }
  }

  lemma ConcatCons(part: string, rest: seq<string>)
    ensures Concat([part] + rest) == part + Concat(rest)
  {
    assert ([part] + rest)[1..] == rest;
  }

  lemma ConcatPrepend(c: char, rest: seq<string>)
    requires rest != []
    ensures Concat([[c] + rest[0]] + rest[1..]) == [c] + Concat(rest)
  {
    hide Concat;
    ConcatCons([c] + rest[0], rest[1..]);
    ConcatCons(rest[0], rest[1..]);
    assert [rest[0]] + rest[1..] == rest;
    assert ([c] + rest[0]) + Concat(rest[1..]) == [c] + (rest[0] + Concat(rest[1..]));
  }

  lemma {:induction false} SplitInk(s: string)
    ensures Ink(Concat(SplitParagraphs(s))) == Ink(s)
    decreases |s|
  {
    if s != [] {
      if "\n\n" <= s {
        SplitInk(s[2..]);
        var rest := SplitParagraphs(s[2..]);
        assert SplitParagraphs(s) == [[]] + rest && ([[]] + rest)[1..] == rest;
        assert Concat(SplitParagraphs(s)) == [] + Concat(rest) == Concat(rest);
        assert s == "\n\n" + s[2..];
        InkAppend("\n\n", s[2..]);
        InkOfSpace("\n\n");
      } else {
        var rest := SplitParagraphs(s[1..]);
        SplitInk(s[1..]);
        ConcatPrepend(s[0], rest);
        InkAppend([s[0]], Concat(rest));
      }
    }
  }

  lemma NormalizedInk(text: string)
    ensures Ink(Concat(SplitParagraphs(Normalize(text)))) == Ink(text)
  {
    CollapseBlanksInk(text);
    CollapseNewlinesInk(CollapseBlanks(text));
    InkStrip(CollapseNewlines(CollapseBlanks(text)));
    SplitInk(Normalize(text));
  }

  // -------------------------------------------- how the normal form lies in the text

  lemma {:induction false} CollapsedFollows(text: string) returns (at: seq<nat>)
    ensures Follows(text, CollapseBlanks(text), at)
  {
    if text == [] {
      at := [];
    } else {
      var rest := CollapsedFollows(text[1..]);
      var together := IsBlank(text[0]) && |text| > 1 && IsBlank(text[1]);
      var plain, tail := CollapseBlanks(text), CollapseBlanks(text[1..]);
      if together {
        assert DropBlanks(text[1..]) == DropBlanks(text[1..][1..]);
        assert plain == tail;
        at := [0] + rest;
      } else {
        assert IsBlank(text[0]) ==> DropBlanks(text[1..]) == text[1..];
        assert plain == [if IsBlank(text[0]) then ' ' else text[0]] + tail;
        at := [0] + seq(|rest|, k requires 0 <= k < |rest| => rest[k] + 1);
      }
      FollowsCons(text, plain, tail, rest, at, together);
    }
  }

  lemma FollowsCons(text: string, plain: string, tail: string, rest: seq<nat>, at: seq<nat>, together: bool)
    requires text != [] && Follows(text[1..], tail, rest) && |at| == |text| && at[0] == 0
    requires together <==> IsBlank(text[0]) && |text| > 1 && IsBlank(text[1])
    requires together ==> plain == tail && forall k :: 0 <= k < |rest| ==> at[k + 1] == rest[k]
    requires !together ==> plain == [if IsBlank(text[0]) then ' ' else text[0]] + tail
    requires !together ==> forall k :: 0 <= k < |rest| ==> at[k + 1] == rest[k] + 1
    ensures Follows(text, plain, at)
  {
    forall i | 0 <= i < |text|
      ensures at[i] < |plain| && plain[at[i]] == if IsBlank(text[i]) then ' ' else text[i]
    {
      if i > 0 {
        assert at[i - 1 + 1] == rest[i - 1] + if together then 0 else 1;
        assert text[i] == text[1..][i - 1];
      } else if together {
        assert text[1..][0] == text[1] && rest[0] == 0;
      }
    }
    forall i, j | 0 <= i && j == i + 1 < |text|
      ensures at[j] == at[i] + if IsBlank(text[i]) && IsBlank(text[j]) then 0 else 1
    {
      assert at[i + 1] == rest[i] + if together then 0 else 1;
      assert text[j] == text[1..][i];
      if i > 0 {
        assert at[i - 1 + 1] == rest[i - 1] + if together then 0 else 1;
        assert text[i] == text[1..][i - 1];
      }
    }
    if |text| > 1 {
      assert at[|rest| - 1 + 1] == rest[|rest| - 1] + if together then 0 else 1;
    }
  }

  // Paragraphs, each behind a break.
  predicate BehindBreaks(gaps: seq<string>, parts: seq<string>)
  {
    && |gaps| == |parts|
    && forall k :: 0 <= k < |parts| ==> !HasBreak(parts[k]) && AllSpace(gaps[k]) && HasBreak(gaps[k])
  }

  // Paragraphs with the newlines between them; nothing stands before the first.
  predicate Parted(gaps: seq<string>, parts: seq<string>)
  {
    && |gaps| == |parts| && parts != [] && gaps[0] == [] && !HasBreak(parts[0])
    && BehindBreaks(gaps[1..], parts[1..])
  }

  lemma DropNewlinesSpec(s: string) returns (n: nat)
    ensures n <= |s| && DropNewlines(s) == s[n..] && forall i :: 0 <= i < n ==> s[i] == '\n'
    ensures n < |s| ==> s[n] != '\n'
  {
    if s != [] && s[0] == '\n' {
      var m := DropNewlinesSpec(s[1..]);
      n := m + 1;
      assert s[1..][m..] == s[n..];
      assert forall i :: 1 <= i < n ==> s[i] == s[1..][i - 1];
    } else {
      n := 0;
    }
  }

  lemma BehindOneMore(gap: string, part: string, gaps: seq<string>, parts: seq<string>)
    requires BehindBreaks(gaps, parts) && !HasBreak(part) && AllSpace(gap) && HasBreak(gap)
    ensures BehindBreaks([gap] + gaps, [part] + parts)
  {
    hide HasBreak, AllSpace;
  }

  lemma WeaveCons(gap: string, part: string, gaps: seq<string>, parts: seq<string>)
    requires |gaps| == |parts|
    ensures Weave([gap] + gaps, [part] + parts) == gap + part + Weave(gaps, parts)
  {
    assert ([gap] + gaps)[1..] == gaps && ([part] + parts)[1..] == parts;
  }

  // A run of newlines ends an empty paragraph.
  lemma PartedAfterRun(run: string, gaps: seq<string>, parts: seq<string>) returns (gaps': seq<string>)
    requires Parted(gaps, parts) && |run| >= 2 && forall i :: 0 <= i < |run| ==> run[i] == '\n'
    ensures Parted(gaps', [[]] + parts) && Weave(gaps', [[]] + parts) == run + Weave(gaps, parts)
  {
    assert run[0] == '\n' && run[1] == '\n' && HasBreak(run) && AllSpace(run) && !HasBreak([]);
    hide HasBreak, AllSpace, BehindBreaks, Weave;
    var later, first, rest := gaps[1..], parts[0], parts[1..];
    assert [[]] + later == gaps && [first] + rest == parts;
    gaps' := [[]] + ([run] + later);
    BehindOneMore(run, first, later, rest);
    assert gaps'[1..] == [run] + later && ([[]] + parts)[1..] == parts;
    WeaveCons([], [], [run] + later, parts);
    WeaveCons(run, first, later, rest);
    WeaveCons([], first, later, rest);
    assert [] + [] + Weave([run] + later, parts) == run + first + Weave(later, rest);
    assert run + ([] + first + Weave(later, rest)) == run + first + Weave(later, rest);
  }

  lemma CharBreaksNothing(c: char, part: string)
    requires !HasBreak(part) && !(c == '\n' && part != [] && part[0] == '\n')
    ensures !HasBreak([c] + part)
  {
    forall i, j | 0 <= i && j == i + 1 < |part| + 1
      ensures !(([c] + part)[i] == '\n' && ([c] + part)[j] == '\n')
    {
      if i > 0 {
        assert !(part[i - 1] == '\n' && part[j - 1] == '\n');
      }
    }
  }

  // One more character in front of the first paragraph.
  lemma PartedAfterChar(c: char, gaps: seq<string>, parts: seq<string>)
    requires Parted(gaps, parts) && !(c == '\n' && parts[0] != [] && parts[0][0] == '\n')
    ensures var parts' := [[c] + parts[0]] + parts[1..];
            Parted(gaps, parts') && Weave(gaps, parts') == [c] + Weave(gaps, parts)
  {
    CharBreaksNothing(c, parts[0]);
    hide HasBreak, BehindBreaks, Weave;
    var later, first, rest := gaps[1..], parts[0], parts[1..];
    assert [[]] + later == gaps && [first] + rest == parts;
    assert ([[c] + first] + rest)[1..] == rest;
    WeaveCons([], [c] + first, later, rest);
    WeaveCons([], first, later, rest);
    assert [] + ([c] + first) + Weave(later, rest) == [c] + ([] + first + Weave(later, rest));
  }

  lemma Regroup(a: string, b: string, c: string)
    ensures a + (b + c) == (a + b) + c
  {
  }

  lemma CollapseStep(s: string)
    requires s != []
    ensures CollapseNewlines(s) ==
            if "\n\n\n" <= s then "\n\n" + CollapseNewlines(DropNewlines(s[3..])) else [s[0]] + CollapseNewlines(s[1..])
  {
  }

  // The paragraphs of collapsed text.
  function Paragraphs(s: string): (r: seq<string>)
    ensures r != []
  {
    SplitParagraphs(CollapseNewlines(s))
  }

  // The paragraphs of collapsed text lie in the text itself, parted by its breaks.
  lemma {:induction false} ParagraphsParted(s: string) returns (gaps: seq<string>)
    ensures Parted(gaps, Paragraphs(s)) && s == Weave(gaps, Paragraphs(s))
    decreases |s|
  {
    hide Parted, Weave, Paragraphs;
    if s == [] {
      gaps := [[]];
      NothingParted();
    } else if "\n\n" <= s {
      var n := AfterBreak(s);
      var tail := ParagraphsParted(s[n..]);
      gaps := PartedAfterRun(s[..n], tail, Paragraphs(s[n..]));
      assert s == s[..n] + s[n..];
    } else {
      gaps := ParagraphsParted(s[1..]);
      FirstIsFirst(gaps, Paragraphs(s[1..]), s[1..]);
      CollapsedHead(s);
      assert |s| > 1 ==> s[..2] == [s[0], s[1]] && s[1..][0] == s[1];
      PartedAfterChar(s[0], gaps, Paragraphs(s[1..]));
      assert s == [s[0]] + s[1..];
    }
  }

  // A break at the start is a run of newlines, and an empty paragraph is before it.
  lemma AfterBreak(s: string) returns (n: nat)
    requires "\n\n" <= s
    ensures 2 <= n <= |s| && (forall i :: 0 <= i < n ==> s[i] == '\n')
    ensures Paragraphs(s) == [[]] + Paragraphs(s[n..])
  {
    n := 2;
    if "\n\n\n" <= s {
      var m := DropNewlinesSpec(s[3..]);
      n := 3 + m;
      assert s[3..][m..] == s[n..];
      assert forall i :: 3 <= i < n ==> s[i] == s[3..][i - 3];
      CollapseStep(s);
    } else {
      TwoNewlines(s);
    }
    hide CollapseNewlines;
    assert CollapseNewlines(s) == "\n\n" + CollapseNewlines(s[n..]);
    assert ("\n\n" + CollapseNewlines(s[n..]))[2..] == CollapseNewlines(s[n..]);
  }

  lemma NothingParted()
    ensures Paragraphs([]) == [[]] && Parted([[]], [[]]) && Weave([[]], [[]]) == []
  {
  }

  lemma TwoNewlines(s: string)
    requires "\n\n" <= s && !("\n\n\n" <= s)
    ensures CollapseNewlines(s) == "\n\n" + CollapseNewlines(s[2..])
  {
    assert s[1..][0] == '\n' && s[1..][1..] == s[2..];
    assert |s| > 2 ==> s[2] == s[1..][1] && s[..3] == "\n\n" + [s[2]];
  }

  // Where no break starts, the paragraphs grow by a character.
  lemma CollapsedHead(s: string)
    requires s != [] && !("\n\n" <= s)
    ensures var parts := Paragraphs(s[1..]); Paragraphs(s) == [[s[0]] + parts[0]] + parts[1..]
  {
    var tail := CollapseNewlines(s[1..]);
    var collapsed := CollapseNewlines(s);
    CollapseStep(s);
    CollapsedFirst(s[1..]);
    hide CollapseNewlines;
    assert |s| >= 3 ==> s[..2] == s[..3][..2];
    assert collapsed == [s[0]] + tail && collapsed[1..] == tail;
    assert |s| > 1 ==> s[..2] == [s[0], s[1]] && tail[0] == s[1];
    assert |collapsed| > 1 ==> collapsed[..2] == [s[0], tail[0]];
  }

  lemma CollapsedFirst(s: string)
    ensures s == [] <==> CollapseNewlines(s) == []
    ensures s != [] ==> CollapseNewlines(s)[0] == s[0]
  {
  }

  lemma FirstIsFirst(gaps: seq<string>, parts: seq<string>, s: string)
    requires Parted(gaps, parts) && s == Weave(gaps, parts)
    ensures parts[0] != [] ==> s != [] && s[0] == parts[0][0]
  {
  }

  // ------------------------------------------------ stripping before or after

  lemma {:induction false} DropAppend(a: string, b: string)
    requires b != [] && (a == [] || a[|a| - 1] != '\n' || b[0] != '\n')
    requires a == [] ==> b[0] != '\n'
    ensures DropNewlines(a + b) == DropNewlines(a) + b
  {
    if a == [] {
      assert a + b == b;
    } else {
      assert (a + b)[1..] == a[1..] + b;
      if a[0] == '\n' {
        assert |a| > 1 ==> a[1..][|a| - 2] == a[|a| - 1];
        DropAppend(a[1..], b);
      }
    }
  }

  // No run of newlines crosses the seam.
  predicate Seam(a: string, b: string)
  {
    a == [] || b == [] || a[|a| - 1] != '\n' || b[0] != '\n'
  }

  lemma NoRunAcross(a: string, b: string)
    requires Seam(a, b) && a != [] && b != []
    ensures "\n\n\n" <= a + b <==> "\n\n\n" <= a
  {
    assert (a + b)[|a|] == b[0] && (a + b)[|a| - 1] == a[|a| - 1];
    assert |a| >= 3 ==> (a + b)[..3] == a[..3];
  }

  lemma SeamAfter(a: string, b: string, n: nat)
    requires Seam(a, b) && n <= |a|
    ensures Seam(a[n..], b)
  {
    assert n < |a| ==> a[n..][|a| - n - 1] == a[|a| - 1];
  }

  // What is left behind a run at the start.
  lemma RunDropped(a: string, b: string) returns (rest: string)
    requires Seam(a, b) && "\n\n\n" <= a && b != []
    ensures rest == DropNewlines(a[3..]) && rest + b == DropNewlines((a + b)[3..])
    ensures Seam(rest, b) && |rest| < |a|
  {
    var n := DropNewlinesSpec(a[3..]);
    rest := a[3..][n..];
    assert rest == a[3 + n..] && (a + b)[3..] == a[3..] + b;
    SeamAfter(a, b, 3);
    SeamAfter(a, b, 3 + n);
    assert a[2] == '\n';
    DropAppend(a[3..], b);
  }

  lemma AppendAfterRun(a: string, b: string, rest: string)
    requires "\n\n\n" <= a && "\n\n\n" <= a + b
    requires rest == DropNewlines(a[3..]) && rest + b == DropNewlines((a + b)[3..])
    requires CollapseNewlines(rest + b) == CollapseNewlines(rest) + CollapseNewlines(b)
    ensures CollapseNewlines(a + b) == CollapseNewlines(a) + CollapseNewlines(b)
  {
    CollapseStep(a);
    CollapseStep(a + b);
    hide CollapseNewlines, DropNewlines;
    Regroup("\n\n", CollapseNewlines(rest), CollapseNewlines(b));
  }

  lemma AppendAfterChar(a: string, b: string)
    requires a != [] && !("\n\n\n" <= a) && !("\n\n\n" <= a + b)
    requires CollapseNewlines(a[1..] + b) == CollapseNewlines(a[1..]) + CollapseNewlines(b)
    ensures CollapseNewlines(a + b) == CollapseNewlines(a) + CollapseNewlines(b)
  {
    CollapseStep(a);
    CollapseStep(a + b);
    hide CollapseNewlines;
    assert (a + b)[1..] == a[1..] + b && (a + b)[0] == a[0];
    Regroup([a[0]], CollapseNewlines(a[1..]), CollapseNewlines(b));
  }

  lemma {:induction false} CollapseAppend(a: string, b: string)
    requires Seam(a, b)
    ensures CollapseNewlines(a + b) == CollapseNewlines(a) + CollapseNewlines(b)
    decreases |a|
  {
    hide CollapseNewlines, DropNewlines;
    if a == [] || b == [] {
      EmptyAppend(a, b);
    } else {
      NoRunAcross(a, b);
      if "\n\n\n" <= a {
        var rest := RunDropped(a, b);
        CollapseAppend(rest, b);
        AppendAfterRun(a, b, rest);
      } else {
        SeamAfter(a, b, 1);
        CollapseAppend(a[1..], b);
        AppendAfterChar(a, b);
      }
    }
  }

  lemma EmptyAppend(a: string, b: string)
    requires a == [] || b == []
    ensures CollapseNewlines(a + b) == CollapseNewlines(a) + CollapseNewlines(b)
  {
    assert a + b == if a == [] then b else a;
  }

  lemma {:induction false} CollapsedSpace(s: string)
    requires AllSpace(s)
    ensures AllSpace(CollapseNewlines(s))
    decreases |s|
  {
    if s != [] {
      if "\n\n\n" <= s {
        var n := DropNewlinesSpec(s[3..]);
        assert AllSpace(s[3..][n..]);
        CollapsedSpace(s[3..][n..]);
      } else {
        CollapsedSpace(s[1..]);
      }
    }
  }

  lemma {:induction false} CollapsedLast(s: string)
    requires s != [] && s[|s| - 1] != '\n'
    ensures var c := CollapseNewlines(s); c != [] && c[|c| - 1] == s[|s| - 1]
    decreases |s|
  {
    if "\n\n\n" <= s {
      var n := DropNewlinesSpec(s[3..]);
      var rest := s[3..][n..];
      assert s[2] == '\n' && forall i :: 3 <= i < 3 + n ==> s[i] == s[3..][i - 3];
      assert rest[|rest| - 1] == s[|s| - 1];
      CollapsedLast(rest);
    } else if |s| > 1 {
      assert s[1..][|s| - 2] == s[|s| - 1];
      CollapsedLast(s[1..]);
    } else {
      assert s == [s[0]];
    }
  }

  lemma StripAround(a: string, t: string, b: string)
    requires AllSpace(a) && AllSpace(b) && Trimmed(t) && t != []
    ensures Strip(a + t + b) == t
  {
    var s := a + t + b;
    var i, j := StripSpec(s);
    assert s[|a|] == t[0] && s[|a| + |t| - 1] == t[|t| - 1];
    assert forall k :: 0 <= k < |a| ==> s[k] == a[k];
    assert forall k :: |a| + |t| <= k < |s| ==> s[k] == b[k - |a| - |t|];
    assert i <= |a| && |a| + |t| <= j;
    assert s[i..j] != [] && s[i..j][0] == s[i] && s[i..j][j - i - 1] == s[j - 1];
    assert i == |a| && j == |a| + |t|;
  }

  lemma StripSpace(s: string)
    requires AllSpace(s)
    ensures Strip(s) == []
  {
    var i, j := StripSpec(s);
    assert i < |s| ==> s[i..][0] == s[i];
  }

  // The normal form is that of the stripped plain text.
  lemma StripCollapsed(s: string)
    ensures Strip(CollapseNewlines(s)) == CollapseNewlines(Strip(s))
  {
    var i, j := StripSpec(s);
    var pre, core, post := s[..i], s[i..j], s[j..];
    CollapsedSpace(pre);
    CollapsedSpace(post);
    if core == [] {
      assert AllSpace(s);
      CollapsedSpace(s);
      StripSpace(CollapseNewlines(s));
    } else {
      assert s == pre + (core + post);
      assert core[0] != '\n' && core[|core| - 1] != '\n';
      CollapseAppend(core, post);
      CollapseAppend(pre, core + post);
      CollapsedFirst(core);
      CollapsedLast(core);
      StripAround(CollapseNewlines(pre), CollapseNewlines(core), CollapseNewlines(post));
      assert CollapseNewlines(s) == CollapseNewlines(pre) + CollapseNewlines(core) + CollapseNewlines(post);
    }
  }

  lemma StripSplits(s: string) returns (pre: string, post: string)
    ensures AllSpace(pre) && AllSpace(post) && s == pre + Strip(s) + post
  {
    var i, j := StripSpec(s);
    pre, post := s[..i], s[j..];
  }

  // The plain text is white space around the paragraphs of the normal form, which
  // its breaks part.
  lemma NormalFormLies(text: string) returns (plain: string, pre: string, gaps: seq<string>, post: string)
    ensures Squeezed(text, plain) && AllSpace(pre) && AllSpace(post)
    ensures |gaps| == |SplitParagraphs(Normalize(text))| && Parted(gaps, SplitParagraphs(Normalize(text)))
    ensures plain == pre + Weave(gaps, SplitParagraphs(Normalize(text))) + post
  {
    plain := CollapseBlanks(text);
    var at := CollapsedFollows(text);
    hide Follows, AllSpace, Weave, Strip, CollapseNewlines, CollapseBlanks, SplitParagraphs;
    pre, post := StripSplits(plain);
    StripCollapsed(plain);
    gaps := ParagraphsParted(Strip(plain));
  }
}
