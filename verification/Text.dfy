// Python string operations the models share. A `char` is one code point.

module Text {
  // `str.isspace`, which is also what `strip` removes and what `\s` matches.
  predicate IsSpace(c: char)
  {
    var n := c as int;
    || 0x09 <= n <= 0x0d || 0x1c <= n <= 0x20 || n == 0x85 || n == 0xa0 || n == 0x1680
    || 0x2000 <= n <= 0x200a || n == 0x2028 || n == 0x2029 || n == 0x202f || n == 0x205f || n == 0x3000
  }

  function LStrip(s: string): string
  {
    if s != [] && IsSpace(s[0]) then LStrip(s[1..]) else s
  }

  function RStrip(s: string): string
  {
    if s != [] && IsSpace(s[|s| - 1]) then RStrip(s[..|s| - 1]) else s
  }

  function Strip(s: string): string
  {
    RStrip(LStrip(s))
  }

  // No white space at either end.
  predicate Trimmed(s: string)
  {
    s != [] ==> !IsSpace(s[0]) && !IsSpace(s[|s| - 1])
  }

  lemma LStripSpec(s: string) returns (k: nat)
    ensures k <= |s| && LStrip(s) == s[k..] && forall i :: 0 <= i < k ==> IsSpace(s[i])
    ensures k < |s| ==> !IsSpace(s[k])
  {
    if s != [] && IsSpace(s[0]) {
      var m := LStripSpec(s[1..]);
      k := m + 1;
      assert s[1..][m..] == s[k..];
    } else {
      k := 0;
    }
  }

  lemma RStripSpec(s: string) returns (k: nat)
    ensures k <= |s| && RStrip(s) == s[..k] && forall i :: k <= i < |s| ==> IsSpace(s[i])
    ensures k > 0 ==> !IsSpace(s[k - 1])
  {
    if s != [] && IsSpace(s[|s| - 1]) {
      k := RStripSpec(s[..|s| - 1]);
    } else {
      k := |s|;
    }
  }

  // Strip cuts off white space at both ends and nothing else.
  lemma StripSpec(s: string) returns (i: nat, j: nat)
    ensures i <= j <= |s| && Strip(s) == s[i..j] && Trimmed(Strip(s))
    ensures forall k :: 0 <= k < |s| && !(i <= k < j) ==> IsSpace(s[k])
  {
    i := LStripSpec(s);
    var k := RStripSpec(s[i..]);
    j := i + k;
    assert s[i..][..k] == s[i..j];
    forall m | 0 <= m < |s| && !(i <= m < j)
      ensures IsSpace(s[m])
    {
      if m >= i {
        assert s[m] == s[i..][m - i];
      }
    }
  }

  lemma StripTrimmed(s: string)
    requires Trimmed(s)
    ensures Strip(s) == s
  {
  }

  lemma StripIdempotent(s: string)
    ensures Strip(Strip(s)) == Strip(s) && Trimmed(Strip(s))
  {
    var i, j := StripSpec(s);
    StripTrimmed(Strip(s));
  }

  // The characters that are not white space, in order.
  function Ink(s: string): string
  {
    if s == [] then [] else (if IsSpace(s[0]) then [] else [s[0]]) + Ink(s[1..])
  }

  lemma {:induction false} InkAppend(a: string, b: string)
    ensures Ink(a + b) == Ink(a) + Ink(b)
  {
    if a == [] {
      assert a + b == b;
    } else {
      assert (a + b)[1..] == a[1..] + b;
      InkAppend(a[1..], b);
    }
  }

  lemma {:induction false} InkOfSpace(s: string)
    requires forall i :: 0 <= i < |s| ==> IsSpace(s[i])
    ensures Ink(s) == []
  {
    if s != [] {
      InkOfSpace(s[1..]);
    }
  }

  lemma InkStrip(s: string)
    ensures Ink(Strip(s)) == Ink(s)
  {
    var i, j := StripSpec(s);
    assert s == s[..i] + s[i..j] + s[j..];
    InkAppend(s[..i] + s[i..j], s[j..]);
    InkAppend(s[..i], s[i..j]);
    InkOfSpace(s[..i]);
    InkOfSpace(s[j..]);
  }

  // The UTF-8 length of a string.
  function Utf8Len(s: string): nat
  {
    if s == [] then 0
    else
      var n := s[0] as int;
      (if n < 0x80 then 1 else if n < 0x800 then 2 else if n < 0x1_0000 then 3 else 4) + Utf8Len(s[1..])
  }

  lemma Utf8LenExactly(c: char, rest: string)
    ensures Utf8Len([c] + rest) == Utf8Len(rest) +
            if c as int < 0x80 then 1 else if c as int < 0x800 then 2 else if c as int < 0x10000 then 3 else 4
  {
    assert ([c] + rest)[1..] == rest;
  }
}
