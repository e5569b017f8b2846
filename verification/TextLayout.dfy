// How text lies in a few blocks, said without saying how the blocks are made: what
// white space stands between their characters, and where one block ends.

module TextLayout {
  import opened Text

  predicate IsBlank(c: char)
  {
    c == ' ' || c == '\t' || c == '\r' || c as int == 0x0c || c as int == 0x0b
  }

  predicate AllSpace(s: string)
  {
    forall i :: 0 <= i < |s| ==> IsSpace(s[i])
  }

  // ------------------------------------------------------ blanks become one space

  // `at` maps the characters of the text to those of the plain text: one by one,
  // except that the blanks of a run share one space.
  ghost predicate Follows(text: string, plain: string, at: seq<nat>)
  {
    && |at| == |text|
    && (forall i :: 0 <= i < |text| ==>
          at[i] < |plain| && plain[at[i]] == if IsBlank(text[i]) then ' ' else text[i])
    && (forall i, j :: 0 <= i && j == i + 1 < |text| ==>
          at[j] == at[i] + if IsBlank(text[i]) && IsBlank(text[j]) then 0 else 1)
    && if text == [] then plain == [] else at[0] == 0 && at[|text| - 1] == |plain| - 1
  }

  ghost predicate Squeezed(text: string, plain: string)
  {
    exists at :: Follows(text, plain, at)
  }

  // ------------------------------------------------------------------ the layout

  // A paragraph break: two newlines in a row.
  predicate HasBreak(s: string)
  {
    exists i, j :: 0 <= i && j == i + 1 < |s| && s[i] == '\n' && s[j] == '\n'
  }

  function Concat(parts: seq<string>): string
  {
    if parts == [] then [] else parts[0] + Concat(parts[1..])
  }

  // Each gap and the block behind it, in order.
  function Weave(gaps: seq<string>, blocks: seq<string>): string
    requires |gaps| == |blocks|
  {
    if blocks == [] then [] else gaps[0] + blocks[0] + Weave(gaps[1..], blocks[1..])
  }

  // The most characters that a block behind these may take.
  function Room(blocks: seq<string>): int
  {
    var left := 6000 - |Concat(blocks)|;
    if 2000 <= left then 2000 else left
  }

  predicate Full(blocks: seq<string>)
  {
    |blocks| >= 4 || |Concat(blocks)| >= 6000
  }

  // A new block starts behind this gap only at the start, after a paragraph break,
  // or where the block before it had no room for more.
  predicate MayStart(blocks: seq<string>, gap: string)
  {
    || blocks == [] || HasBreak(gap)
    || |blocks[|blocks| - 1]| + |gap| >= Room(blocks[..|blocks| - 1])
  }

  // The gaps are white space, a block holds no paragraph break and keeps to its
  // room, and every block starts where one may, while there is room for another.
  predicate Placed(gaps: seq<string>, blocks: seq<string>)
  {
    && |gaps| == |blocks|
    && forall k :: 0 <= k < |blocks| ==>
         && AllSpace(gaps[k]) && !HasBreak(blocks[k]) && 0 < |blocks[k]| <= Room(blocks[..k])
         && Trimmed(blocks[k]) && MayStart(blocks[..k], gaps[k]) && !Full(blocks[..k])
  }

  // The plain text is the blocks with their gaps, then white space, and then
  // nothing, or text that there was no room for: it could have started a block.
  predicate Laid(plain: string, gaps: seq<string>, blocks: seq<string>, gap: string, tail: string)
  {
    && Placed(gaps, blocks) && plain == Weave(gaps, blocks) + gap + tail && AllSpace(gap)
    && (tail != [] ==> Full(blocks) && !IsSpace(tail[0]) && MayStart(blocks, gap))
  }

  ghost predicate LaidFrom(text: string, blocks: seq<string>)
  {
    exists plain, gaps, gap, tail :: Squeezed(text, plain) && Laid(plain, gaps, blocks, gap, tail)
  }

  // -------------------------------------------- what stands between two characters

  // Two characters with only white space between them.
  predicate Neighbours(s: string, i: int, j: int)
  {
    && 0 <= i < j < |s| && !IsSpace(s[i]) && !IsSpace(s[j])
    && forall x :: i < x < j ==> IsSpace(s[x])
  }

  // A later character lies further on, past any that is no blank.
  lemma {:induction false} Advances(text: string, plain: string, at: seq<nat>, i: nat, j: nat)
    requires Follows(text, plain, at) && i < j < |text| && !IsBlank(text[i])
    ensures at[i] < at[j] && (j > i + 1 && !IsBlank(text[j]) ==> at[i] + 1 < at[j])
    ensures at[j - 1] <= at[j]
    decreases j
  {
    if j > i + 1 {
      Advances(text, plain, at, i, j - 1);
    }
  }

  lemma {:induction false} Reaches(text: string, plain: string, at: seq<nat>, n: nat, p: nat) returns (i: nat)
    requires Follows(text, plain, at) && n < |text| && p <= at[n]
    ensures i <= n && at[i] == p
    decreases n
  {
    if at[n] == p {
      i := n;
    } else {
      i := Reaches(text, plain, at, n - 1, p);
    }
  }

  // Neighbours of the plain text are neighbours of the text, and touch in the one
  // exactly when they touch in the other.
  lemma NeighboursKept(text: string, plain: string, a: nat, b: nat) returns (i: nat, j: nat)
    requires Squeezed(text, plain) && Neighbours(plain, a, b)
    ensures Neighbours(text, i, j) && text[i] == plain[a] && text[j] == plain[b]
    ensures j == i + 1 <==> b == a + 1
  {
    var at :| Follows(text, plain, at);
    i := Reaches(text, plain, at, |text| - 1, a);
    j := Reaches(text, plain, at, |text| - 1, b);
    if j <= i {
      NeverBack(text, plain, at, j, i);
    }
    Advances(text, plain, at, i, j);
    forall x | i < x < j
      ensures IsSpace(text[x])
    {
      if !IsSpace(text[x]) {
        Advances(text, plain, at, i, x);
        Advances(text, plain, at, x, j);
      }
    }
  }

  lemma {:induction false} NeverBack(text: string, plain: string, at: seq<nat>, i: nat, j: nat)
    requires Follows(text, plain, at) && i <= j < |text|
    ensures at[i] <= at[j]
    decreases j
  {
    if i < j {
      NeverBack(text, plain, at, i, j - 1);
    }
  }

  lemma {:induction false} BlockOffset(gaps: seq<string>, blocks: seq<string>, rest: string, k: nat) returns (o: nat)
    requires |gaps| == |blocks| && k < |blocks|
    ensures o + |blocks[k]| <= |Weave(gaps, blocks) + rest|
    ensures (Weave(gaps, blocks) + rest)[o..o + |blocks[k]|] == blocks[k]
    decreases k
  {
    var head, tail := gaps[0] + blocks[0], Weave(gaps[1..], blocks[1..]);
    if k == 0 {
      o := |gaps[0]|;
    } else {
      var m := BlockOffset(gaps[1..], blocks[1..], rest, k - 1);
      o := |head| + m;
      assert Weave(gaps, blocks) + rest == head + (tail + rest);
      assert (head + (tail + rest))[o..o + |blocks[k]|] == (tail + rest)[m..m + |blocks[k]|];
    }
  }

  lemma SliceNeighbours(s: string, o: nat, slice: string, a: nat, b: nat)
    requires o + |slice| <= |s| && s[o..o + |slice|] == slice && Neighbours(slice, a, b)
    ensures Neighbours(s, o + a, o + b) && s[o + a] == slice[a] && s[o + b] == slice[b]
  {
    forall x | o <= x < o + |slice|
      ensures s[x] == slice[x - o]
    {
      assert s[o..o + |slice|][x - o] == s[x];
    }
  }

  lemma LaidHolds(plain: string, gaps: seq<string>, blocks: seq<string>, gap: string, tail: string, k: nat)
    returns (o: nat)
    requires Laid(plain, gaps, blocks, gap, tail) && k < |blocks|
    ensures o + |blocks[k]| <= |plain| && plain[o..o + |blocks[k]|] == blocks[k]
  {
    hide Weave;
    assert plain == Weave(gaps, blocks) + (gap + tail);
    o := BlockOffset(gaps, blocks, gap + tail, k);
  }

  // Two neighbouring characters of a block are neighbours of the text, and have
  // white space between them in the block exactly when they have some in the text.
  lemma SpacingKept(text: string, blocks: seq<string>, k: nat, a: nat, b: nat) returns (i: nat, j: nat)
    requires LaidFrom(text, blocks) && k < |blocks| && Neighbours(blocks[k], a, b)
    ensures Neighbours(text, i, j) && text[i] == blocks[k][a] && text[j] == blocks[k][b]
    ensures j == i + 1 <==> b == a + 1
  {
    hide Squeezed, Laid;
    var plain, gaps, gap, tail :| Squeezed(text, plain) && Laid(plain, gaps, blocks, gap, tail);
    var o := LaidHolds(plain, gaps, blocks, gap, tail, k);
    SliceNeighbours(plain, o, blocks[k], a, b);
    i, j := NeighboursKept(text, plain, o + a, o + b);
  }

  // ---------------------------------------------------- there is one layout only

  // The plain text of a text is determined, character by character.
  lemma {:induction false} FollowsOnce(text: string, p: string, q: string, at: seq<nat>, to: seq<nat>, n: nat)
    requires Follows(text, p, at) && Follows(text, q, to) && n <= |text|
    ensures at[..n] == to[..n]
  {
    if n > 0 {
      FollowsOnce(text, p, q, at, to, n - 1);
      assert at[..n] == at[..n - 1] + [at[n - 1]] && to[..n] == to[..n - 1] + [to[n - 1]];
      if n > 1 {
        assert at[n - 2] == at[..n - 1][n - 2] && to[n - 2] == to[..n - 1][n - 2];
      }
    }
  }

  lemma SqueezedOnce(text: string, p: string, q: string)
    requires Squeezed(text, p) && Squeezed(text, q)
    ensures p == q
  {
    var at :| Follows(text, p, at);
    var to :| Follows(text, q, to);
    FollowsOnce(text, p, q, at, to, |text|);
    assert at == at[..|text|] && to == to[..|text|];
    forall x | 0 <= x < |p|
      ensures p[x] == q[x]
    {
      var i := Reaches(text, p, at, |text| - 1, x);
    }
  }

  // What comes behind the first `k` blocks: a gap, and then a block, or the tail.
  function Behind(gaps: seq<string>, blocks: seq<string>, gap: string, tail: string, k: nat): (string, string)
    requires |gaps| == |blocks| && k <= |blocks|
  {
    if k == |blocks| then (gap, tail)
    else (gaps[k], blocks[k] + Weave(gaps[k + 1..], blocks[k + 1..]) + gap + tail)
  }

  lemma {:induction false} WeaveSplit(gaps: seq<string>, blocks: seq<string>, k: nat)
    requires |gaps| == |blocks| && k <= |blocks|
    ensures Weave(gaps, blocks) == Weave(gaps[..k], blocks[..k]) + Weave(gaps[k..], blocks[k..])
  {
    if k == 0 {
      assert gaps[0..] == gaps && blocks[0..] == blocks;
    } else {
      WeaveSplit(gaps[1..], blocks[1..], k - 1);
      assert gaps[1..][..k - 1] == gaps[..k][1..] && blocks[1..][..k - 1] == blocks[..k][1..];
      assert gaps[1..][k - 1..] == gaps[k..] && blocks[1..][k - 1..] == blocks[k..];
      var head, a, b := gaps[0] + blocks[0], Weave(gaps[..k][1..], blocks[..k][1..]), Weave(gaps[k..], blocks[k..]);
      assert head + (a + b) == (head + a) + b;
    }
  }

  lemma RegroupBehind(front: string, gap: string, block: string, more: string, end: string, tail: string)
    ensures front + (gap + block + more) + end + tail == front + (gap + (block + more + end + tail))
  {
  }

  lemma WeaveAt(gaps: seq<string>, blocks: seq<string>, k: nat)
    requires |gaps| == |blocks| && k < |blocks|
    ensures Weave(gaps[k..], blocks[k..]) == gaps[k] + blocks[k] + Weave(gaps[k + 1..], blocks[k + 1..])
  {
    assert gaps[k..][1..] == gaps[k + 1..] && blocks[k..][1..] == blocks[k + 1..];
  }

  lemma BehindLies(gaps: seq<string>, blocks: seq<string>, gap: string, tail: string, k: nat)
    requires |gaps| == |blocks| && k <= |blocks|
    ensures var (h, y) := Behind(gaps, blocks, gap, tail, k);
            Weave(gaps, blocks) + gap + tail == Weave(gaps[..k], blocks[..k]) + (h + y)
  {
    hide Weave;
    if k == |blocks| {
      assert blocks[..k] == blocks && gaps[..k] == gaps;
      assert Weave(gaps, blocks) + gap + tail == Weave(gaps, blocks) + (gap + tail);
    } else {
      WeaveSplit(gaps, blocks, k);
      WeaveAt(gaps, blocks, k);
      var front, more := Weave(gaps[..k], blocks[..k]), Weave(gaps[k + 1..], blocks[k + 1..]);
      RegroupBehind(front, gaps[k], blocks[k], more, gap, tail);
    }
  }

  lemma BehindSpec(plain: string, gaps: seq<string>, blocks: seq<string>, gap: string, tail: string, k: nat)
    requires Laid(plain, gaps, blocks, gap, tail) && k <= |blocks|
    ensures var (h, y) := Behind(gaps, blocks, gap, tail, k);
            && plain == Weave(gaps[..k], blocks[..k]) + (h + y) && AllSpace(h)
            && (y != [] ==> !IsSpace(y[0]) && MayStart(blocks[..k], h))
  {
    BehindLies(gaps, blocks, gap, tail, k);
    hide Weave, MayStart, AllSpace, HasBreak, Room, Full;
    assert k == |blocks| ==> blocks[..k] == blocks;
  }

  lemma SameBehind(front: string, a: string, b: string)
    requires front + a == front + b
    ensures a == b
  {
    assert (front + a)[|front|..] == a && (front + b)[|front|..] == b;
  }

  // White space and then ink splits in one way.
  lemma LeadOnce(h: string, y: string, g: string, z: string)
    requires h + y == g + z && AllSpace(h) && AllSpace(g)
    requires (y != [] ==> !IsSpace(y[0])) && (z != [] ==> !IsSpace(z[0]))
    ensures h == g && y == z
  {
    var s := h + y;
    assert y != [] ==> s[|h|] == y[0];
    assert z != [] ==> s[|g|] == z[0];
    assert forall x :: 0 <= x < |h| ==> s[x] == h[x];
    assert forall x :: 0 <= x < |g| ==> s[x] == g[x];
    assert |h| == |g|;
    assert h == s[..|h|] && g == s[..|g|] && y == s[|h|..] && z == s[|g|..];
  }

  lemma BreakInside(s: string, a: nat, h: string)
    requires a + |h| <= |s| && s[a..a + |h|] == h
    ensures HasBreak(h) ==> HasBreak(s)
  {
    if HasBreak(h) {
      var i, j :| 0 <= i && j == i + 1 < |h| && h[i] == '\n' && h[j] == '\n';
      assert s[a + i] == s[a..a + |h|][i] && s[a + j] == s[a..a + |h|][j];
    }
  }

  // A longer block that ends in ink covers the white space behind a shorter one.
  lemma CoversGap(b: string, h: string, y: string, c: string, z: string)
    requires b + (h + y) == c + z && AllSpace(h) && c != [] && Trimmed(c) && |c| > |b|
    ensures |c| > |b| + |h| && y != [] && c[|b|..|b| + |h|] == h
  {
    var s := b + (h + y);
    assert c == s[..|c|] && c[|c| - 1] == s[|c| - 1];
    assert forall x :: |b| <= x < |b| + |h| ==> s[x] == h[x - |b|];
    assert s[|b|..|b| + |h|] == h;
  }

  lemma StartMeans(before: seq<string>, b: string, h: string)
    requires MayStart(before + [b], h)
    ensures HasBreak(h) || |b| + |h| >= Room(before)
  {
    assert (before + [b])[..|before|] == before;
  }

  // A block is not the longer one of two that start together: what follows the
  // shorter could start a block.
  lemma NotLonger(before: seq<string>, b: string, h: string, y: string, c: string, z: string)
    requires b + (h + y) == c + z && AllSpace(h)
    requires y != [] ==> MayStart(before + [b], h)
    requires c != [] && Trimmed(c) && !HasBreak(c) && |c| <= Room(before)
    ensures |c| <= |b|
  {
    hide MayStart, HasBreak, Room, AllSpace, Trimmed;
    if |c| > |b| {
      CoversGap(b, h, y, c, z);
      BreakInside(c, |b|, h);
      StartMeans(before, b, h);
    }
  }

  lemma PrefixSnoc<T>(xs: seq<T>, ys: seq<T>, k: nat)
    requires k < |xs| && k < |ys| && xs[..k] == ys[..k] && xs[k] == ys[k]
    ensures xs[..k + 1] == ys[..k + 1]
  {
    assert xs[..k + 1] == xs[..k] + [xs[k]] && ys[..k + 1] == ys[..k] + [ys[k]];
  }

  // The first blocks of two layouts of one text are the same.
  lemma {:induction false} SameBlocks(
    plain: string, gaps: seq<string>, blocks: seq<string>, gap: string, tail: string,
    gaps': seq<string>, blocks': seq<string>, gap': string, tail': string, k: nat)
    requires Laid(plain, gaps, blocks, gap, tail) && Laid(plain, gaps', blocks', gap', tail')
    requires k <= |blocks| && k <= |blocks'|
    ensures gaps[..k] == gaps'[..k] && blocks[..k] == blocks'[..k]
  {
    assert |gaps| == |blocks| && |gaps'| == |blocks'|;
    hide Laid;
    if k > 0 {
      SameBlocks(plain, gaps, blocks, gap, tail, gaps', blocks', gap', tail', k - 1);
      SameNext(plain, gaps, blocks, gap, tail, gaps', blocks', gap', tail', k - 1);
      PrefixSnoc(gaps, gaps', k - 1);
      PrefixSnoc(blocks, blocks', k - 1);
    }
  }

  // The `k`-th block in its place, and what comes behind it.
  lemma BlockLies(plain: string, gaps: seq<string>, blocks: seq<string>, gap: string, tail: string, k: nat)
    returns (h: string, y: string)
    requires Laid(plain, gaps, blocks, gap, tail) && k < |blocks|
    ensures plain == Weave(gaps[..k], blocks[..k]) + (gaps[k] + (blocks[k] + (h + y)))
    ensures AllSpace(gaps[k]) && AllSpace(h) && (y != [] ==> MayStart(blocks[..k] + [blocks[k]], h))
    ensures blocks[k] != [] && !IsSpace(blocks[k][0])
    ensures Trimmed(blocks[k]) && !HasBreak(blocks[k]) && |blocks[k]| <= Room(blocks[..k])
  {
    assert Placed(gaps, blocks);
    hide Weave, HasBreak, Room, AllSpace, MayStart, Full;
    BehindSpec(plain, gaps, blocks, gap, tail, k);
    BehindSpec(plain, gaps, blocks, gap, tail, k + 1);
    BehindNext(gaps, blocks, gap, tail, k);
    assert blocks[..k + 1] == blocks[..k] + [blocks[k]];
    var rest := Behind(gaps, blocks, gap, tail, k + 1);
    h, y := rest.0, rest.1;
  }

  lemma SameNext(
    plain: string, gaps: seq<string>, blocks: seq<string>, gap: string, tail: string,
    gaps': seq<string>, blocks': seq<string>, gap': string, tail': string, k: nat)
    requires Laid(plain, gaps, blocks, gap, tail) && Laid(plain, gaps', blocks', gap', tail')
    requires k < |blocks| && k < |blocks'| && gaps[..k] == gaps'[..k] && blocks[..k] == blocks'[..k]
    ensures gaps[k] == gaps'[k] && blocks[k] == blocks'[k]
  {
    assert |gaps| == |blocks| && |gaps'| == |blocks'|;
    hide Laid, MayStart, HasBreak, Room, AllSpace, Trimmed;
    var h, y := BlockLies(plain, gaps, blocks, gap, tail, k);
    var g, z := BlockLies(plain, gaps', blocks', gap', tail', k);
    var b, c, before := blocks[k], blocks'[k], blocks[..k];
    SameBehind(Weave(gaps[..k], before), gaps[k] + (b + (h + y)), gaps'[k] + (c + (g + z)));
    hide Weave;
    LeadOnce(gaps[k], b + (h + y), gaps'[k], c + (g + z));
    NotLonger(before, b, h, y, c, g + z);
    NotLonger(before, c, g, z, b, h + y);
    SameFront(b, h + y, c, g + z);
  }

  lemma SameFront(a: string, x: string, b: string, y: string)
    requires a + x == b + y && |a| == |b|
    ensures a == b
  {
    assert (a + x)[..|a|] == a && (b + y)[..|b|] == b;
  }

  lemma BehindNext(gaps: seq<string>, blocks: seq<string>, gap: string, tail: string, k: nat)
    requires |gaps| == |blocks| && k < |blocks|
    ensures var (h, y) := Behind(gaps, blocks, gap, tail, k); var (h1, y1) := Behind(gaps, blocks, gap, tail, k + 1);
            h == gaps[k] && y == blocks[k] + (h1 + y1)
  {
    if k + 1 == |blocks| {
      assert Weave(gaps[k + 1..], blocks[k + 1..]) == [];
    } else {
      assert gaps[k + 1..][1..] == gaps[k + 2..] && blocks[k + 1..][1..] == blocks[k + 2..];
    }
  }

  // A text lies in blocks in one way only.
  lemma LayoutOnce(text: string, blocks: seq<string>, blocks': seq<string>)
    requires LaidFrom(text, blocks) && LaidFrom(text, blocks')
    ensures blocks == blocks'
  {
    hide Squeezed, Laid;
    var p, gaps, gap, tail :| Squeezed(text, p) && Laid(p, gaps, blocks, gap, tail);
    var q, gaps', gap', tail' :| Squeezed(text, q) && Laid(q, gaps', blocks', gap', tail');
    SqueezedOnce(text, p, q);
    if |blocks| <= |blocks'| {
      NoMore(p, gaps, blocks, gap, tail, gaps', blocks', gap', tail');
    } else {
      NoMore(p, gaps', blocks', gap', tail', gaps, blocks, gap, tail);
    }
  }

  lemma NoMore(
    plain: string, gaps: seq<string>, blocks: seq<string>, gap: string, tail: string,
    gaps': seq<string>, blocks': seq<string>, gap': string, tail': string)
    requires Laid(plain, gaps, blocks, gap, tail) && Laid(plain, gaps', blocks', gap', tail')
    requires |blocks| <= |blocks'|
    ensures blocks == blocks'
  {
    var k := |blocks|;
    SameBlocks(plain, gaps, blocks, gap, tail, gaps', blocks', gap', tail', k);
    assert blocks[..k] == blocks && gaps[..k] == gaps;
    if |blocks'| > k {
      BehindSpec(plain, gaps, blocks, gap, tail, k);
      BehindSpec(plain, gaps', blocks', gap', tail', k);
      var (g, z) := Behind(gaps', blocks', gap', tail', k);
      assert Placed(gaps', blocks') && !Full(blocks'[..k]);
      assert z[0] == blocks'[k][0];
      SameBehind(Weave(gaps, blocks), gap + tail, g + z);
      LeadOnce(gap, tail, g, z);
      assert false;
    }
    assert blocks'[..k] == blocks';
  }
}
