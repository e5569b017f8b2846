// Cutting extracted text into a few bounded blocks.

module TextBlocks {
  import opened Text
  import opened TextLayout
  import opened TextNormal

  const MAX_BLOCKS := 4
  const MAX_BLOCK_CHARS := 2000
  const MAX_TOTAL_CHARS := 6000

  // -------------------------------------------------------------- one chunk

  // The stripped front of a trimmed paragraph is a non-empty prefix of it, and
  // what it leaves, stripped, holds the rest of the ink.
  lemma ChunkSpec(paragraph: string, limit: nat)
    requires paragraph != [] && Trimmed(paragraph) && 1 <= limit
    ensures var front := if limit <= |paragraph| then paragraph[..limit] else paragraph;
            var chunk := Strip(front);
            && 1 <= |chunk| <= limit && chunk <= paragraph && Trimmed(chunk)
            && Ink(paragraph) == Ink(chunk) + Ink(Strip(paragraph[|chunk|..]))
            && Trimmed(Strip(paragraph[|chunk|..]))
  {
    var front := if limit <= |paragraph| then paragraph[..limit] else paragraph;
    var i, j := StripSpec(front);
    assert front[0] == paragraph[0] && i == 0;
    var rest := paragraph[j..];
    assert paragraph == paragraph[..j] + rest && Strip(front) == paragraph[..j];
    InkAppend(paragraph[..j], rest);
    InkStrip(rest);
    StripIdempotent(rest);
  }

  lemma {:induction false} ConcatSnoc(parts: seq<string>, part: string)
    ensures Concat(parts + [part]) == Concat(parts) + part
  {
    if parts == [] {
      assert parts + [part] == [part];
    } else {
      assert (parts + [part])[1..] == parts[1..] + [part];
      ConcatSnoc(parts[1..], part);
    }
  }

  // Cutting a trimmed text leaves white space and then trimmed text.
  lemma TailGap(paragraph: string, n: nat) returns (m: nat)
    requires Trimmed(paragraph) && n <= |paragraph|
    ensures n <= m <= |paragraph| && Strip(paragraph[n..]) == paragraph[m..]
    ensures forall k :: n <= k < m ==> IsSpace(paragraph[k])
    ensures m < |paragraph| ==> !IsSpace(paragraph[m])
  {
    var tail := paragraph[n..];
    var a, b := StripSpec(tail);
    m := n + a;
    assert tail != [] ==> tail[|tail| - 1] == paragraph[|paragraph| - 1];
    assert b == |tail| && tail[a..b] == paragraph[m..];
    assert forall k :: n <= k < m ==> paragraph[k] == tail[k - n];
    assert a < b ==> tail[a..b][0] == paragraph[m];
  }

  // Behind the chunk comes white space, and more only where the limit is reached.
  lemma ChunkCut(paragraph: string, limit: nat, chunk: string) returns (gap: string)
    requires paragraph != [] && Trimmed(paragraph) && 1 <= limit && !HasBreak(paragraph)
    requires chunk == Strip(if limit <= |paragraph| then paragraph[..limit] else paragraph) && chunk <= paragraph
    ensures var left := Strip(paragraph[|chunk|..]);
            && paragraph == chunk + gap + left && AllSpace(gap) && !HasBreak(chunk) && !HasBreak(left)
            && (left != [] ==> |chunk| + |gap| >= limit)
  {
    var n := |chunk|;
    var m := TailGap(paragraph, n);
    gap := paragraph[n..m];
    assert paragraph == chunk + gap + paragraph[m..];
    SliceHasNoBreak(paragraph, 0, n);
    SliceHasNoBreak(paragraph, m, |paragraph|);
    hide HasBreak;
    var front := if limit <= |paragraph| then paragraph[..limit] else paragraph;
    assert forall k :: 0 <= k < |front| ==> front[k] == paragraph[k];
    var i, j := StripSpec(front);
    assert front[0] == paragraph[0] && i == 0 && n == j;
  }

  lemma SliceHasNoBreak(s: string, i: nat, j: nat)
    requires i <= j <= |s| && !HasBreak(s)
    ensures !HasBreak(s[i..j])
  {
    forall x, y | 0 <= x && y == x + 1 < j - i
      ensures !(s[i..j][x] == '\n' && s[i..j][y] == '\n')
    {
      assert !(s[i + x] == '\n' && s[i + y] == '\n');
    }
  }

  // ------------------------------------------------------------ laying the blocks

  // What is laid so far: the blocks with their gaps, the white space behind them,
  // and what is still to come.
  predicate Open(plain: string, gaps: seq<string>, blocks: seq<string>, gap: string, rest: string)
  {
    |gaps| == |blocks| && Placed(gaps, blocks) && plain == Weave(gaps, blocks) + gap + rest && AllSpace(gap)
  }

  // There is no room for what comes next.
  ghost predicate Stopped(plain: string, gaps: seq<string>, blocks: seq<string>)
  {
    Full(blocks) && exists gap, tail :: tail != [] && Laid(plain, gaps, blocks, gap, tail)
  }

  ghost predicate Laying(plain: string, gaps: seq<string>, blocks: seq<string>, gap: string, rest: string)
  {
    Open(plain, gaps, blocks, gap, rest) || Stopped(plain, gaps, blocks)
  }

  lemma SpaceAppend(a: string, b: string)
    requires AllSpace(a) && AllSpace(b)
    ensures AllSpace(a + b)
  {
  }

  // White space at the front of the rest joins the gap.
  lemma LayGap(plain: string, gaps: seq<string>, blocks: seq<string>, gap: string, more: string, rest: string)
    requires Laying(plain, gaps, blocks, gap, more + rest) && AllSpace(more)
    ensures Laying(plain, gaps, blocks, gap + more, rest)
  {
    hide Placed, Stopped, Weave;
    if Open(plain, gaps, blocks, gap, more + rest) {
      SpaceAppend(gap, more);
      assert Weave(gaps, blocks) + gap + (more + rest) == Weave(gaps, blocks) + (gap + more) + rest;
    }
  }

  lemma BreakAppend(a: string, b: string, c: string)
    requires HasBreak(b)
    ensures HasBreak(a + b + c)
  {
    var i, j :| 0 <= i && j == i + 1 < |b| && b[i] == '\n' && b[j] == '\n';
    assert (a + b + c)[|a| + i] == '\n' && (a + b + c)[|a| + j] == '\n';
  }

  lemma {:induction false} WeaveSnoc(gaps: seq<string>, blocks: seq<string>, gap: string, block: string)
    requires |gaps| == |blocks|
    ensures Weave(gaps + [gap], blocks + [block]) == Weave(gaps, blocks) + gap + block
  {
    if blocks == [] {
      assert gaps + [gap] == [gap] && blocks + [block] == [block];
      assert Weave([gap], [block]) == gap + block + Weave([], []);
    } else {
      assert (gaps + [gap])[1..] == gaps[1..] + [gap] && (blocks + [block])[1..] == blocks[1..] + [block];
      WeaveSnoc(gaps[1..], blocks[1..], gap, block);
      assert gaps[0] + blocks[0] + (Weave(gaps[1..], blocks[1..]) + gap + block)
          == gaps[0] + blocks[0] + Weave(gaps[1..], blocks[1..]) + gap + block;
    }
  }

  lemma PlacedSnoc(gaps: seq<string>, blocks: seq<string>, gap: string, block: string)
    requires Placed(gaps, blocks) && AllSpace(gap) && !HasBreak(block) && 0 < |block| <= Room(blocks)
    requires Trimmed(block) && MayStart(blocks, gap) && !Full(blocks)
    ensures Placed(gaps + [gap], blocks + [block])
  {
    hide AllSpace, HasBreak, Room, Trimmed, MayStart, Full;
    var blocks' := blocks + [block];
    forall k | 0 <= k < |blocks'|
      ensures blocks'[..k] == blocks[..k]
    {
    }
    assert blocks[..|blocks|] == blocks;
  }

  // One chunk moved from the paragraph to the blocks.
  lemma LayChunk(
    plain: string, gaps: seq<string>, blocks: seq<string>, gap: string,
    chunk: string, more: string, left: string, later: string)
    requires !Full(blocks) && Laying(plain, gaps, blocks, gap, chunk + more + left + later)
    requires !HasBreak(chunk) && 0 < |chunk| <= Room(blocks) && Trimmed(chunk) && MayStart(blocks, gap)
    requires AllSpace(more) && (left != [] ==> |chunk| + |more| >= Room(blocks))
    ensures Open(plain, gaps + [gap], blocks + [chunk], more, left + later)
    ensures left != [] ==> MayStart(blocks + [chunk], more)
  {
    hide HasBreak, AllSpace, Room, Trimmed, Full;
    assert (blocks + [chunk])[..|blocks|] == blocks;
    PlacedSnoc(gaps, blocks, gap, chunk);
    hide Placed, MayStart, Weave;
    WeaveSnoc(gaps, blocks, gap, chunk);
    var w := Weave(gaps, blocks);
    assert w + gap + (chunk + more + left + later) == (w + gap + chunk) + more + (left + later);
  }

  lemma LaidAtEnd(text: string, plain: string, gaps: seq<string>, blocks: seq<string>, gap: string, post: string)
    requires Squeezed(text, plain) && Laying(plain, gaps, blocks, gap, post) && AllSpace(post)
    ensures LaidFrom(text, blocks)
  {
    hide Squeezed, Placed, Weave, MayStart, Full;
    if Open(plain, gaps, blocks, gap, post) {
      SpaceAppend(gap, post);
      assert plain == Weave(gaps, blocks) + (gap + post) + [];
      assert Laid(plain, gaps, blocks, gap + post, []);
    }
  }

  predicate BlocksOk(blocks: seq<string>)
  {
    && |blocks| <= MAX_BLOCKS && |Concat(blocks)| <= MAX_TOTAL_CHARS
    && forall i :: 0 <= i < |blocks| ==> 1 <= |blocks[i]| <= MAX_BLOCK_CHARS && Trimmed(blocks[i])
  }

  // The blocks so far and the text still to come: a prefix, and all of the ink
  // as long as no limit was reached.
  ghost predicate Faithful(blocks: seq<string>, rest: string, text: string)
  {
    && Ink(Concat(blocks)) <= Ink(text)
    && (!Full(blocks) ==> Ink(text) == Ink(Concat(blocks)) + Ink(rest))
  }

  // One chunk moved from the paragraph to the blocks.
  lemma ChunkKeepsFaith(
    blocks: seq<string>, paragraph: string, chunk: string, left: string, later: string, text: string)
    requires !Full(blocks) && Faithful(blocks, paragraph + later, text)
    requires Ink(paragraph) == Ink(chunk) + Ink(left)
    ensures Faithful(blocks + [chunk], left + later, text)
  {
    hide Ink, Concat;
    ConcatSnoc(blocks, chunk);
    InkAppend(Concat(blocks), chunk);
    InkAppend(paragraph, later);
    InkAppend(left, later);
    RegroupInk(Ink(Concat(blocks)), Ink(chunk), Ink(left), Ink(later));
  }

  lemma RegroupInk(a: string, b: string, c: string, d: string)
    ensures a + ((b + c) + d) == (a + b) + (c + d) && (a + b) <= a + ((b + c) + d)
  {
  }

  // At most four trimmed blocks of at most 2000 characters and 6000 in all. The
  // characters that are not white space are, in order, a prefix of those of the
  // text, and all of them unless a limit was reached; only a text without any
  // gives no block.
  method BoundedTextBlocks(text: string) returns (blocks: seq<string>)
    ensures BlocksOk(blocks) && LaidFrom(text, blocks)
    ensures Ink(Concat(blocks)) <= Ink(text)
    ensures !Full(blocks) ==> Ink(Concat(blocks)) == Ink(text)
    ensures blocks == [] <==> Ink(text) == []
  {
    hide Strip, Ink, Trimmed, Normalize, Laying, Open, LaidFrom, Squeezed, AllSpace, HasBreak, MayStart, Weave, Parted;
    var normalized := Normalize(text);
    NormalizedInk(text);
    EmptyInk();
    blocks := [];
    ghost var plain, gap, pieces, post := NormalFormLies(text);
    ghost var gaps: seq<string> := [];
    if normalized == [] {
      EmptySplit();
      LaidEmpty(text, plain, gap, pieces, post);
      return [];
    }
    var totalChars := 0;
    var parts := SplitParagraphs(normalized);
    StartLaying(plain, gap, Weave(pieces, parts), post);
    IsLaying(plain, gaps, blocks, gap, Weave(pieces, parts) + post);
    assert parts[0..] == parts && pieces[0..] == pieces;
    for i := 0 to |parts|
      invariant BlocksOk(blocks) && totalChars == |Concat(blocks)|
      invariant Faithful(blocks, Concat(parts[i..]), text)
      invariant Laying(plain, gaps, blocks, gap, Weave(pieces[i..], parts[i..]) + post) && (i == 0 ==> blocks == [])
    {
      var later := Concat(parts[i + 1..]);
      assert parts[i..][1..] == parts[i + 1..];
      ghost var behind := Weave(pieces[i + 1..], parts[i + 1..]) + post;
      var paragraph := Strip(parts[i]);
      ghost var after;
      gap, after := EnterParagraph(plain, gaps, blocks, gap, pieces, parts, i, post);
      StripIdempotent(parts[i]);
      InkStrip(parts[i]);
      InkAppend(parts[i], later);
      InkAppend(paragraph, later);
      while paragraph != [] && |blocks| < MAX_BLOCKS && totalChars < MAX_TOTAL_CHARS
        invariant BlocksOk(blocks) && totalChars == |Concat(blocks)|
        invariant Trimmed(paragraph) && Faithful(blocks, paragraph + later, text)
        invariant !HasBreak(paragraph) && Laying(plain, gaps, blocks, gap, paragraph + (after + behind))
        invariant paragraph != [] ==> MayStart(blocks, gap)
        decreases |paragraph|
      {
        var remainingTotal := MAX_TOTAL_CHARS - totalChars;
        var limit := if MAX_BLOCK_CHARS <= remainingTotal then MAX_BLOCK_CHARS else remainingTotal;
        var chunk := Strip(if limit <= |paragraph| then paragraph[..limit] else paragraph);
        ChunkSpec(paragraph, limit);
        ghost var more := ChunkCut(paragraph, limit, chunk);
        // The source breaks here on an empty chunk; there is none.
        assert chunk != [];
        var left := Strip(paragraph[|chunk|..]);
        ChunkKeepsFaith(blocks, paragraph, chunk, left, later, text);
        LayChunk(plain, gaps, blocks, gap, chunk, more, left, after + behind);
        IsLaying(plain, gaps + [gap], blocks + [chunk], more, left + (after + behind));
        gaps, gap := gaps + [gap], more;
        ConcatSnoc(blocks, chunk);
        StripShorter(paragraph[|chunk|..]);
        blocks := blocks + [chunk];
        totalChars := totalChars + |chunk|;
        paragraph := left;
      }
      FaithOfRest(blocks, paragraph, later, text);
      gap := LeaveParagraph(plain, gaps, blocks, gap, paragraph, after, behind);
    }
    assert parts[|parts|..] == [];
    FaithAtEnd(blocks, text);
    LaidLast(text, plain, gaps, blocks, gap, pieces[|parts|..], post);
  }

  lemma StartLaying(plain: string, gap: string, woven: string, post: string)
    requires plain == gap + woven + post && AllSpace(gap)
    ensures Open(plain, [], [], gap, woven + post)
  {
    assert plain == [] + gap + (woven + post);
  }

  lemma IsLaying(plain: string, gaps: seq<string>, blocks: seq<string>, gap: string, rest: string)
    requires Open(plain, gaps, blocks, gap, rest)
    ensures Laying(plain, gaps, blocks, gap, rest)
  {
  }

  lemma LaidEmpty(text: string, plain: string, gap: string, pieces: seq<string>, post: string)
    requires Squeezed(text, plain) && AllSpace(gap) && AllSpace(post) && Normalize(text) == []
    requires Parted(pieces, SplitParagraphs(Normalize(text)))
    requires plain == gap + Weave(pieces, SplitParagraphs(Normalize(text))) + post
    ensures LaidFrom(text, [])
  {
    hide Squeezed, AllSpace, Laying, Normalize;
    assert SplitParagraphs([]) == [[]] && Weave(pieces, [[]]) == [];
    hide Weave, Parted;
    StartLaying(plain, gap, [], post);
    assert [] + post == post;
    IsLaying(plain, [], [], gap, post);
    LaidAtEnd(text, plain, [], [], gap, post);
  }

  // The gap before a paragraph, and the white space it starts with, are passed.
  lemma EnterParagraph(
    plain: string, gaps: seq<string>, blocks: seq<string>, gap: string,
    pieces: seq<string>, parts: seq<string>, i: nat, post: string)
    returns (gap': string, after: string)
    requires |pieces| == |parts| && Parted(pieces, parts) && i < |parts| && (i == 0 ==> blocks == [])
    requires Laying(plain, gaps, blocks, gap, Weave(pieces[i..], parts[i..]) + post)
    ensures var behind := Weave(pieces[i + 1..], parts[i + 1..]) + post;
            Laying(plain, gaps, blocks, gap', Strip(parts[i]) + (after + behind))
    ensures !HasBreak(Strip(parts[i])) && AllSpace(after) && MayStart(blocks, gap')
  {
    var before;
    before, after := StripSplits(parts[i]);
    hide Strip, Laying, HasBreak, AllSpace, MayStart;
    PieceOf(pieces, parts, i);
    StrippedHasNoBreak(parts[i]);
    hide Parted;
    var behind, later := Weave(pieces[i + 1..], parts[i + 1..]), Strip(parts[i]);
    assert pieces[i..][1..] == pieces[i + 1..] && parts[i..][1..] == parts[i + 1..];
    assert Weave(pieces[i..], parts[i..]) == pieces[i] + parts[i] + behind;
    hide Weave;
    SpaceAppend(pieces[i], before);
    RegroupParts(pieces[i], before, later, after, behind, post);
    LayGap(plain, gaps, blocks, gap, pieces[i] + before, later + (after + (behind + post)));
    gap' := gap + (pieces[i] + before);
    if i > 0 {
      BreakAppend(gap, pieces[i], before);
      assert gap' == gap + pieces[i] + before;
    }
    MayStartAfter(blocks, gap', i > 0);
  }

  lemma MayStartAfter(blocks: seq<string>, gap: string, broken: bool)
    requires if broken then HasBreak(gap) else blocks == []
    ensures MayStart(blocks, gap)
  {
  }

  lemma RegroupParts(a: string, b: string, c: string, d: string, e: string, f: string)
    ensures a + (b + c + d) + e + f == (a + b) + (c + (d + (e + f)))
  {
  }

  lemma StrippedHasNoBreak(s: string)
    requires !HasBreak(s)
    ensures !HasBreak(Strip(s))
  {
    var a, b := StripSpec(s);
    SliceHasNoBreak(s, a, b);
  }

  lemma PieceOf(pieces: seq<string>, parts: seq<string>, i: nat)
    requires Parted(pieces, parts) && i < |parts|
    ensures !HasBreak(parts[i]) && AllSpace(pieces[i]) && (i > 0 ==> HasBreak(pieces[i]))
  {
    hide HasBreak;
    if i > 0 {
      assert parts[1..][i - 1] == parts[i] && pieces[1..][i - 1] == pieces[i];
    }
  }

  lemma LeaveParagraph(
    plain: string, gaps: seq<string>, blocks: seq<string>, gap: string,
    paragraph: string, after: string, behind: string)
    returns (gap': string)
    requires Laying(plain, gaps, blocks, gap, paragraph + (after + behind)) && AllSpace(after)
    requires paragraph == [] || (Full(blocks) && Trimmed(paragraph) && MayStart(blocks, gap))
    ensures Laying(plain, gaps, blocks, gap', behind)
  {
    gap' := gap + after;
    if paragraph != [] {
      if Open(plain, gaps, blocks, gap, paragraph + (after + behind)) {
        assert Laid(plain, gaps, blocks, gap, paragraph + (after + behind));
      }
    } else {
      assert paragraph + (after + behind) == after + behind;
      LayGap(plain, gaps, blocks, gap, after, behind);
    }
  }

  lemma LaidLast(
    text: string, plain: string, gaps: seq<string>, blocks: seq<string>, gap: string, pieces: seq<string>, post: string)
    requires Squeezed(text, plain) && AllSpace(post) && pieces == []
    requires Laying(plain, gaps, blocks, gap, Weave(pieces, []) + post)
    ensures LaidFrom(text, blocks)
  {
    assert Weave(pieces, []) + post == post;
    LaidAtEnd(text, plain, gaps, blocks, gap, post);
  }

  lemma EmptyInk()
    ensures Ink([]) == []
  {
  }

  lemma EmptySplit()
    ensures Concat(SplitParagraphs([])) == []
  {
  }

  lemma StripShorter(s: string)
    ensures |Strip(s)| <= |s|
  {
    var i, j := StripSpec(s);
  }

  lemma FaithOfRest(blocks: seq<string>, paragraph: string, later: string, text: string)
    requires Faithful(blocks, paragraph + later, text) && (paragraph == [] || Full(blocks))
    ensures Faithful(blocks, later, text)
  {
    if paragraph == [] {
      assert paragraph + later == later;
    }
  }

  lemma FaithAtEnd(blocks: seq<string>, text: string)
    requires Faithful(blocks, [], text) && BlocksOk(blocks)
    ensures !Full(blocks) ==> Ink(Concat(blocks)) == Ink(text)
    ensures blocks == [] <==> Ink(text) == []
  {
    if blocks != [] {
      assert blocks[0] != [] && !IsSpace(blocks[0][0]);
      assert Concat(blocks)[0] == blocks[0][0];
      assert Ink(Concat(blocks)) != [];
    }
  }
}
