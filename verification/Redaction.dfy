// Redaction of secret-like text: a leftmost substitution over a pattern of six
// alternatives, and what it leaves behind.

module Redaction {
  import opened Json
  import opened Text

  // ------------------------------------------------------- the secret language

  // Case folding as the case-insensitive matcher applies it to the letters of
  // the pattern: ASCII letters and the four code points that fold to i, s and k.
  function Fold(c: char): char
  {
    if 'A' <= c <= 'Z' then (c as int + 32) as char
    else if c as int == 0x130 || c as int == 0x131 then 'i'
    else if c as int == 0x17f then 's'
    else if c as int == 0x212a then 'k'
    else c
  }

  // Upper and lower case of a letter fold alike, and lower case to itself.
  lemma FoldExactly(c: char)
    ensures 'a' <= c <= 'z' || '0' <= c <= '9' || c in {'-', '_', '.', ':', '=', ' ', '[', ']'} ==> Fold(c) == c
    ensures 'A' <= c <= 'Z' ==> Fold(c) == (c as int - 'A' as int + 'a' as int) as char
  {
  }

  predicate IsKeyChar(c: char)
  {
    'a' <= Fold(c) <= 'z' || '0' <= c <= '9' || c == '_' || c == '-'
  }

  predicate IsTokenChar(c: char)
  {
    IsKeyChar(c) || c == '.'
  }

  predicate Reads(w: string, literal: string)
  {
    |w| == |literal| && forall i :: 0 <= i < |w| ==> Fold(w[i]) == literal[i]
  }

  predicate Starts(w: string, literal: string)
  {
    |w| >= |literal| && Reads(w[..|literal|], literal)
  }

  predicate AllOf(p: char -> bool, w: string, lo: nat, hi: nat)
    requires lo <= hi <= |w|
  {
    forall i :: lo <= i < hi ==> p(w[i])
  }

  predicate IsApiKey(w: string)
  {
    Reads(w, "apikey") || Reads(w, "api_key") || Reads(w, "api-key")
  }

  predicate IsSecretWord(w: string)
  {
    || Reads(w, "secret")
    || Reads(w, "secretkey") || Reads(w, "secret_key") || Reads(w, "secret-key")
    || Reads(w, "secretvalue") || Reads(w, "secret_value") || Reads(w, "secret-value")
  }

  predicate IsKey(w: string)
  {
    |w| >= 11 && Starts(w, "sk-") && AllOf(IsKeyChar, w, 3, |w|)
  }

  predicate IsBearerAt(w: string, k: nat)
  {
    6 < k < |w| && Starts(w, "bearer") && AllOf(IsSpace, w, 6, k) && AllOf(IsTokenChar, w, k, |w|)
  }

  predicate IsTokenAt(w: string, i: nat, j: nat)
  {
    5 <= i < j < |w| && Starts(w, "token") && AllOf(IsSpace, w, 5, i) && (w[i] == ':' || w[i] == '=')
    && AllOf(IsSpace, w, i + 1, j) && AllOf(IsTokenChar, w, j, |w|)
  }

  // The words the pattern matches in full.
  ghost predicate IsSecret(w: string)
  {
    || IsKey(w) || IsApiKey(w) || IsSecretWord(w) || Reads(w, "authorization")
    || (exists k: nat :: IsBearerAt(w, k))
    || (exists i: nat, j: nat :: IsTokenAt(w, i, j))
  }

  ghost predicate SecretFree(s: string)
  {
    forall i, j :: 0 <= i <= j <= |s| ==> !IsSecret(s[i..j])
  }

  // --------------------------------------------------------------- the matcher

  // The length of the longest prefix of characters in a class.
  function RunLen(p: char -> bool, s: string): nat
  {
    if s != [] && p(s[0]) then 1 + RunLen(p, s[1..]) else 0
  }

  function MatchKey(s: string): nat
  {
    if Starts(s, "sk-") && RunLen(IsKeyChar, s[3..]) >= 8 then 3 + RunLen(IsKeyChar, s[3..]) else 0
  }

  predicate Separator(s: string, i: nat)
  {
    i < |s| && (s[i] == '_' || s[i] == '-')
  }

  function MatchApiKey(s: string): nat
  {
    if !Starts(s, "api") then 0
    else if Separator(s, 3) && Starts(s[4..], "key") then 7
    else if Starts(s[3..], "key") then 6
    else 0
  }

  function MatchSecretWord(s: string): nat
  {
    if !Starts(s, "secret") then 0
    else if Separator(s, 6) && Starts(s[7..], "key") then 10
    else if Separator(s, 6) && Starts(s[7..], "value") then 12
    else if Starts(s[6..], "key") then 9
    else if Starts(s[6..], "value") then 11
    else 6
  }

  function MatchAuthorization(s: string): nat
  {
    if Starts(s, "authorization") then 13 else 0
  }

  function MatchBearer(s: string): nat
  {
    if !Starts(s, "bearer") then 0
    else
      var gap := RunLen(IsSpace, s[6..]);
      if gap == 0 || 6 + gap > |s| then 0
      else
        var word := RunLen(IsTokenChar, s[6 + gap..]);
        if word == 0 then 0 else 6 + gap + word
  }

  function MatchToken(s: string): nat
  {
    if !Starts(s, "token") then 0
    else
      var i := 5 + RunLen(IsSpace, s[5..]);
      if i >= |s| || (s[i] != ':' && s[i] != '=') then 0
      else
        var j := i + 1 + RunLen(IsSpace, s[i + 1..]);
        if j > |s| then 0
        else
          var word := RunLen(IsTokenChar, s[j..]);
          if word == 0 then 0 else j + word
  }

  // The length of the match at the start of `s`, 0 if there is none: the first
  // alternative that matches.
  function MatchLen(s: string): nat
  {
    if MatchKey(s) > 0 then MatchKey(s)
    else if MatchApiKey(s) > 0 then MatchApiKey(s)
    else if MatchSecretWord(s) > 0 then MatchSecretWord(s)
    else if MatchAuthorization(s) > 0 then MatchAuthorization(s)
    else if MatchBearer(s) > 0 then MatchBearer(s)
    else MatchToken(s)
  }

  // --------------------------------------------- the matcher finds the longest

  lemma {:induction false} RunLenSpec(p: char -> bool, s: string)
    ensures RunLen(p, s) <= |s| && AllOf(p, s, 0, RunLen(p, s))
    ensures RunLen(p, s) < |s| ==> !p(s[RunLen(p, s)])
  {
    if s != [] && p(s[0]) {
      RunLenSpec(p, s[1..]);
      assert forall i :: 1 <= i < |s| ==> s[i] == s[1..][i - 1];
    }
  }

  lemma RunLenFrom(p: char -> bool, s: string, k: nat) returns (n: nat)
    requires k <= |s|
    ensures n == RunLen(p, s[k..]) && k + n <= |s| && AllOf(p, s, k, k + n)
    ensures k + n < |s| ==> !p(s[k + n])
  {
    n := RunLen(p, s[k..]);
    RunLenSpec(p, s[k..]);
    assert forall i :: k <= i < |s| ==> s[i] == s[k..][i - k];
  }

  lemma StartsPrefix(s: string, m: nat, literal: string)
    requires m <= |s|
    ensures Starts(s[..m], literal) <==> m >= |literal| && Starts(s, literal)
  {
    if m >= |literal| {
      assert s[..m][..|literal|] == s[..|literal|];
    }
  }

  lemma KeyLongest(s: string, m: nat)
    requires m <= |s|
    ensures var n := MatchKey(s); n <= |s| && (n > 0 ==> IsKey(s[..n])) && (IsKey(s[..m]) ==> m <= n)
  {
    if Starts(s, "sk-") {
      var n := RunLenFrom(IsKeyChar, s, 3);
      StartsPrefix(s, 3 + n, "sk-");
      if IsKey(s[..m]) && m > 3 + n {
        assert IsKeyChar(s[..m][3 + n]);
      }
    } else {
      StartsPrefix(s, m, "sk-");
    }
  }

  // Reading a literal in two pieces.
  lemma ReadsSplit(w: string, a: string, b: string)
    ensures Reads(w, a + b) <==> |w| == |a| + |b| && Reads(w[..|a|], a) && Reads(w[|a|..], b)
  {
    if |w| == |a| + |b| {
      assert forall i :: |a| <= i < |w| ==> w[i] == w[|a|..][i - |a|] && (a + b)[i] == b[i - |a|];
    }
  }

  lemma ApiKeyLongest(s: string, m: nat)
    requires m <= |s|
    ensures var n := MatchApiKey(s); n <= |s| && (n > 0 ==> IsApiKey(s[..n])) && (IsApiKey(s[..m]) ==> m <= n)
  {
    forall k: nat | k <= |s|
      ensures IsApiKey(s[..k]) <==>
                && Starts(s, "api")
                && ((k == 6 && Starts(s[3..], "key")) || (k == 7 && Separator(s, 3) && Starts(s[4..], "key")))
    {
      ApiKeyParts(s, k);
    }
  }

  lemma ApiKeyParts(s: string, k: nat)
    requires k <= |s|
    ensures IsApiKey(s[..k]) <==>
                && Starts(s, "api")
                && ((k == 6 && Starts(s[3..], "key")) || (k == 7 && Separator(s, 3) && Starts(s[4..], "key")))
  {
    if k == 6 {
      assert s[3..][..3] == s[3..6];
    } else if k == 7 {
      assert s[4..][..3] == s[4..7];
    }
  }

  // `secret` with an optional separator and an optional tail.
  lemma SecretWordParts(s: string, k: nat)
    requires k <= |s|
    ensures IsSecretWord(s[..k]) <==>
              && Starts(s, "secret")
              && (|| k == 6
                  || (k == 9 && Starts(s[6..], "key")) || (k == 10 && Separator(s, 6) && Starts(s[7..], "key"))
                  || (k == 11 && Starts(s[6..], "value")) || (k == 12 && Separator(s, 6) && Starts(s[7..], "value")))
  {
    var w := s[..k];
    ReadsSplit(w, "secret", "key");
    ReadsSplit(w, "secret", "_key");
    ReadsSplit(w, "secret", "-key");
    ReadsSplit(w, "secret", "value");
    ReadsSplit(w, "secret", "_value");
    ReadsSplit(w, "secret", "-value");
    assert "secret" + "key" == "secretkey" && "secret" + "_key" == "secret_key" && "secret" + "-key" == "secret-key";
    assert "secret" + "value" == "secretvalue";
    assert "secret" + "_value" == "secret_value" && "secret" + "-value" == "secret-value";
    if k >= 6 {
      assert w[..6] == s[..6] && w[6..] == s[6..k];
      if k > 6 {
        TailParts(s, k, "key");
        TailParts(s, k, "value");
      }
    }
  }

  lemma TailParts(s: string, k: nat, tail: string)
    requires 6 < k <= |s|
    ensures Reads(s[6..k], tail) <==> k == 6 + |tail| && Starts(s[6..], tail)
    ensures (Reads(s[6..k], "_" + tail) || Reads(s[6..k], "-" + tail))
            <==> k == 7 + |tail| && Separator(s, 6) && Starts(s[7..], tail)
  {
    ReadsSplit(s[6..k], "_", tail);
    ReadsSplit(s[6..k], "-", tail);
    if k == 6 + |tail| {
      assert s[6..][..|tail|] == s[6..k];
    }
    if k == 7 + |tail| {
      assert s[6..k][1..] == s[7..k] == s[7..][..|tail|];
      assert s[6..k][..1] == [s[6]];
      assert Reads([s[6]], "_") <==> s[6] == '_';
      assert Reads([s[6]], "-") <==> s[6] == '-';
    }
  }

  lemma SecretWordLongest(s: string, m: nat)
    requires m <= |s|
    ensures var n := MatchSecretWord(s);
            n <= |s| && (n > 0 ==> IsSecretWord(s[..n])) && (IsSecretWord(s[..m]) ==> m <= n)
  {
    SecretWordParts(s, m);
    if MatchSecretWord(s) <= |s| {
      SecretWordParts(s, MatchSecretWord(s));
    }
    if |s| > 6 {
      TailsDiffer(s[6..]);
      TailsDiffer(s[7..]);
    }
  }

  lemma TailsDiffer(t: string)
    ensures Starts(t, "key") ==> !Starts(t, "value") && !Separator(t, 0)
    ensures Starts(t, "value") ==> !Separator(t, 0)
  {
    if t != [] {
      assert forall k :: 1 <= k <= |t| ==> t[..k][0] == t[0];
    }
  }

  lemma AuthorizationLongest(s: string, m: nat)
    requires m <= |s|
    ensures var n := MatchAuthorization(s);
            n <= |s| && (n > 0 ==> Reads(s[..n], "authorization")) && (Reads(s[..m], "authorization") ==> m <= n)
  {
  }

  lemma SpaceIsNoTokenChar(s: string)
    ensures forall i :: 0 <= i < |s| && IsSpace(s[i]) ==> !IsTokenChar(s[i]) && s[i] != ':' && s[i] != '='
  {
  }

  // A run of white space followed by a run of token characters splits one way.
  lemma SameSplit(s: string, from: nat, k: nat, m: nat, gap: nat, word: nat)
    requires from <= k < m <= |s| && AllOf(IsSpace, s, from, k) && AllOf(IsTokenChar, s, k, m)
    requires from + gap + word <= |s| && AllOf(IsSpace, s, from, from + gap)
    requires from + gap < |s| ==> !IsSpace(s[from + gap])
    requires AllOf(IsTokenChar, s, from + gap, from + gap + word)
    requires from + gap + word < |s| ==> !IsTokenChar(s[from + gap + word])
    ensures k == from + gap && m <= k + word
  {
    SpaceIsNoTokenChar(s);
    assert IsTokenChar(s[k]);
  }

  lemma BearerParts(s: string, m: nat, k: nat)
    requires m <= |s|
    ensures IsBearerAt(s[..m], k) <==>
              6 < k < m && Starts(s, "bearer") && AllOf(IsSpace, s, 6, k) && AllOf(IsTokenChar, s, k, m)
  {
    StartsPrefix(s, m, "bearer");
    assert forall i :: 0 <= i < m ==> s[..m][i] == s[i];
    if 6 < k < m && AllOf(IsSpace, s, 6, k) && AllOf(IsTokenChar, s, k, m) {
      assert AllOf(IsSpace, s[..m], 6, k) && AllOf(IsTokenChar, s[..m], k, m);
    }
  }

  lemma BearerLongest(s: string, m: nat)
    requires m <= |s|
    ensures var n := MatchBearer(s);
            && n <= |s| && (n > 0 ==> exists k: nat :: IsBearerAt(s[..n], k))
            && forall k: nat :: IsBearerAt(s[..m], k) ==> m <= n
  {
    hide Starts, IsSpace, IsTokenChar, IsBearerAt;
    if |s| < 6 || !Starts(s, "bearer") {
      ShortStarts(s, "bearer");
      forall k: nat ensures !IsBearerAt(s[..m], k) {
        BearerParts(s, m, k);
      }
    } else {
      var gap := RunLenFrom(IsSpace, s, 6);
      var word := RunLenFrom(IsTokenChar, s, 6 + gap);
      BearerParts(s, 6 + gap + word, 6 + gap);
      forall k: nat | IsBearerAt(s[..m], k)
        ensures m <= MatchBearer(s)
      {
        BearerParts(s, m, k);
        SameSplit(s, 6, k, m, gap, word);
      }
    }
  }

  lemma ShortStarts(s: string, literal: string)
    ensures |s| < |literal| ==> !Starts(s, literal)
  {
  }

  lemma TokenParts(s: string, m: nat, i: nat, j: nat)
    requires m <= |s|
    ensures IsTokenAt(s[..m], i, j) <==>
              5 <= i < j < m && Starts(s, "token") && AllOf(IsSpace, s, 5, i) && (s[i] == ':' || s[i] == '=')
              && AllOf(IsSpace, s, i + 1, j) && AllOf(IsTokenChar, s, j, m)
  {
    StartsPrefix(s, m, "token");
    assert forall k :: 0 <= k < m ==> s[..m][k] == s[k];
    if 5 <= i < j < m && AllOf(IsSpace, s, 5, i) && AllOf(IsSpace, s, i + 1, j) && AllOf(IsTokenChar, s, j, m) {
      assert AllOf(IsSpace, s[..m], 5, i) && AllOf(IsSpace, s[..m], i + 1, j) && AllOf(IsTokenChar, s[..m], j, m);
    }
  }

  lemma SameSign(s: string, i: nat, i0: nat)
    requires 5 <= i < |s| && AllOf(IsSpace, s, 5, i) && (s[i] == ':' || s[i] == '=')
    requires 5 <= i0 <= |s| && AllOf(IsSpace, s, 5, i0) && (i0 < |s| ==> !IsSpace(s[i0]))
    ensures i == i0
  {
    SpaceIsNoTokenChar(s);
  }

  lemma SpaceRun(s: string, k: nat) returns (n: nat)
    requires k <= |s|
    ensures n == RunLen(IsSpace, s[k..]) && k + n <= |s| && AllOf(IsSpace, s, k, k + n)
    ensures k + n < |s| ==> !IsSpace(s[k + n])
  {
    hide IsSpace;
    n := RunLenFrom(IsSpace, s, k);
  }

  lemma TokenRun(s: string, k: nat) returns (n: nat)
    requires k <= |s|
    ensures n == RunLen(IsTokenChar, s[k..]) && k + n <= |s| && AllOf(IsTokenChar, s, k, k + n)
    ensures k + n < |s| ==> !IsTokenChar(s[k + n])
  {
    hide IsTokenChar;
    n := RunLenFrom(IsTokenChar, s, k);
  }

  // The match, from the lengths of its three runs.
  lemma TokenSum(s: string, i: nat, after: nat, word: nat)
    requires Starts(s, "token") && 5 <= i < |s| && i == 5 + RunLen(IsSpace, s[5..]) && (s[i] == ':' || s[i] == '=')
    requires i + 1 + after <= |s| && after == RunLen(IsSpace, s[i + 1..])
    requires word == RunLen(IsTokenChar, s[i + 1 + after..])
    ensures MatchToken(s) == if word == 0 then 0 else i + 1 + after + word
  {
    hide Starts, IsSpace, IsTokenChar, RunLen;
  }

  lemma SignAt(s: string, i: nat)
    requires 5 <= i < |s| && AllOf(IsSpace, s, 5, i) && (s[i] == ':' || s[i] == '=')
    ensures i == 5 + RunLen(IsSpace, s[5..])
  {
    hide IsSpace, AllOf, RunLen;
    var before := SpaceRun(s, 5);
    SameSign(s, i, 5 + before);
  }

  lemma WordEnd(s: string, from: nat, j: nat, m: nat) returns (after: nat, word: nat)
    requires from <= j < m <= |s| && AllOf(IsSpace, s, from, j) && AllOf(IsTokenChar, s, j, m)
    ensures from + after <= |s| && after == RunLen(IsSpace, s[from..]) && word == RunLen(IsTokenChar, s[from + after..])
    ensures word > 0 && m <= from + after + word
  {
    hide IsSpace, IsTokenChar, AllOf, RunLen;
    after := SpaceRun(s, from);
    word := TokenRun(s, from + after);
    SameSplit(s, from, j, m, after, word);
  }

  lemma TokenMaximal(s: string, m: nat, i: nat, j: nat)
    requires m <= |s| && IsTokenAt(s[..m], i, j)
    ensures m <= MatchToken(s)
  {
    hide Starts, IsTokenAt, AllOf, RunLen, MatchToken;
    TokenParts(s, m, i, j);
    SignAt(s, i);
    var after, word := WordEnd(s, i + 1, j, m);
    TokenSum(s, i, after, word);
  }

  lemma TokenMatches(s: string)
    ensures var n := MatchToken(s); n <= |s| && (n > 0 ==> exists i: nat, j: nat :: IsTokenAt(s[..n], i, j))
  {
    hide Starts, IsSpace, IsTokenChar, IsTokenAt, AllOf, RunLen;
    ShortStarts(s, "token");
    if MatchToken(s) > 0 {
      var before := SpaceRun(s, 5);
      var i := 5 + before;
      var after := SpaceRun(s, i + 1);
      var j := i + 1 + after;
      var word := TokenRun(s, j);
      TokenSum(s, i, after, word);
      TokenParts(s, j + word, i, j);
    }
  }

  // The first two characters decide which alternative can match.
  lemma OneAlternative(s: string)
    ensures MatchKey(s) > 0 ==> Starts(s, "sk-")
    ensures MatchApiKey(s) > 0 ==> Starts(s, "api")
    ensures Starts(s, "sk-") ==>
              && !Starts(s, "api") && !Starts(s, "secret") && !Starts(s, "authorization")
              && !Starts(s, "bearer") && !Starts(s, "token")
    ensures Starts(s, "api") ==>
              !Starts(s, "secret") && !Starts(s, "authorization") && !Starts(s, "bearer") && !Starts(s, "token")
    ensures Starts(s, "secret") ==> !Starts(s, "authorization") && !Starts(s, "bearer") && !Starts(s, "token")
    ensures Starts(s, "authorization") ==> !Starts(s, "bearer") && !Starts(s, "token")
    ensures Starts(s, "bearer") ==> !Starts(s, "token")
  {
    if |s| >= 2 {
      assert forall k :: 2 <= k <= |s| ==> s[..k][0] == s[0] && s[..k][1] == s[1];
    }
  }

  lemma SecretStarts(s: string, m: nat)
    requires m <= |s|
    ensures IsKey(s[..m]) ==> Starts(s, "sk-")
    ensures IsApiKey(s[..m]) ==> Starts(s, "api")
    ensures IsSecretWord(s[..m]) ==> Starts(s, "secret")
    ensures Reads(s[..m], "authorization") ==> Starts(s, "authorization")
    ensures forall k: nat :: IsBearerAt(s[..m], k) ==> Starts(s, "bearer")
    ensures forall i: nat, j: nat :: IsTokenAt(s[..m], i, j) ==> Starts(s, "token")
  {
    StartsPrefix(s, m, "sk-");
    StartsPrefix(s, m, "bearer");
    StartsPrefix(s, m, "token");
    ApiKeyParts(s, m);
    SecretWordParts(s, m);
  }

  // A match is the longest prefix that is a secret word, and there is no match
  // exactly when no prefix is one.
  lemma MatchLongest(s: string, m: nat)
    requires m <= |s|
    ensures MatchLen(s) <= |s| && (MatchLen(s) > 0 ==> IsSecret(s[..MatchLen(s)]))
    ensures IsSecret(s[..m]) ==> m <= MatchLen(s)
  {
    hide Starts, MatchKey, MatchApiKey, MatchSecretWord, MatchAuthorization, MatchBearer, MatchToken;
    hide IsKey, IsApiKey, IsSecretWord, Reads, IsBearerAt, IsTokenAt;
    OneAlternative(s);
    NoMatchWithoutStart(s);
    SecretStarts(s, m);
    KeyLongest(s, m);
    ApiKeyLongest(s, m);
    SecretWordLongest(s, m);
    AuthorizationLongest(s, m);
    BearerLongest(s, m);
    TokenMatches(s);
    forall i: nat, j: nat | IsTokenAt(s[..m], i, j)
      ensures m <= MatchToken(s)
    {
      TokenMaximal(s, m, i, j);
    }
  }

  lemma NoMatchWithoutStart(s: string)
    ensures !Starts(s, "sk-") ==> MatchKey(s) == 0
    ensures !Starts(s, "api") ==> MatchApiKey(s) == 0
    ensures !Starts(s, "secret") ==> MatchSecretWord(s) == 0
    ensures !Starts(s, "authorization") ==> MatchAuthorization(s) == 0
    ensures !Starts(s, "bearer") ==> MatchBearer(s) == 0
    ensures !Starts(s, "token") ==> MatchToken(s) == 0
  {
  }

  // ------------------------------------------------------------- substitution

  const MARK := "[REDACTED]"

  // `pattern.sub("[REDACTED]", s)`
  function RedactText(s: string): string
  {
    if s == [] then []
    else
      MatchLongest(s, 0);
      if MatchLen(s) > 0 then MARK + RedactText(s[MatchLen(s)..]) else [s[0]] + RedactText(s[1..])
  }

  // `pattern.search(s) is not None`
  predicate Search(s: string)
  {
    s != [] && (MatchLen(s) > 0 || Search(s[1..]))
  }

  lemma SecretChars(w: string)
    requires IsSecret(w)
    ensures |w| >= 6 && '[' !in w && ']' !in w && Fold(w[0]) in {'s', 'a', 'b', 't'}
  {
    hide IsKey, IsApiKey, IsSecretWord, Reads, IsBearerAt, IsTokenAt;
    if IsKey(w) {
      KeyChars(w);
    } else if IsApiKey(w) || IsSecretWord(w) || Reads(w, "authorization") {
      LiteralChars(w);
    } else if k: nat :| IsBearerAt(w, k) {
      BearerChars(w, k);
    } else {
      var i: nat, j: nat :| IsTokenAt(w, i, j);
      TokenChars(w, i, j);
    }
  }

  // No bracket folds to a letter of the pattern.
  lemma PrefixChars(w: string, literal: string)
    requires Starts(w, literal) && '[' !in literal && ']' !in literal && |literal| > 0
    ensures forall i :: 0 <= i < |literal| ==> Fold(w[i]) == literal[i] && w[i] != '[' && w[i] != ']'
  {
    assert forall i :: 0 <= i < |literal| ==> w[i] == w[..|literal|][i];
  }

  lemma KeyChars(w: string)
    requires IsKey(w)
    ensures |w| >= 6 && '[' !in w && ']' !in w && Fold(w[0]) == 's'
  {
    PrefixChars(w, "sk-");
  }

  lemma LiteralChars(w: string)
    requires IsApiKey(w) || IsSecretWord(w) || Reads(w, "authorization")
    ensures |w| >= 6 && '[' !in w && ']' !in w && Fold(w[0]) in {'s', 'a'}
  {
  }

  lemma BearerChars(w: string, k: nat)
    requires IsBearerAt(w, k)
    ensures |w| >= 6 && '[' !in w && ']' !in w && Fold(w[0]) == 'b'
  {
    PrefixChars(w, "bearer");
  }

  lemma TokenChars(w: string, i: nat, j: nat)
    requires IsTokenAt(w, i, j)
    ensures |w| >= 6 && '[' !in w && ']' !in w && Fold(w[0]) == 't'
  {
    PrefixChars(w, "token");
  }

  // Redacted text follows its source up to the first mark.
  lemma {:induction false} AgreesUpToMark(s: string) returns (k: nat)
    ensures k <= |s| && k <= |RedactText(s)| && RedactText(s)[..k] == s[..k]
    ensures k < |RedactText(s)| ==> RedactText(s)[k] == '['
  {
    hide MatchLen, IsSecret;
    if s == [] || MatchLen(s) > 0 {
      k := 0;
    } else {
      var m := AgreesUpToMark(s[1..]);
      k := m + 1;
      assert RedactText(s)[..k] == [s[0]] + RedactText(s[1..])[..m];
      assert s[..k] == [s[0]] + s[1..][..m];
    }
  }

  lemma NoSecretAtMark(r: string, i: nat, j: nat)
    requires i < 10 <= |r| && i <= j <= |r| && r[..10] == MARK
    ensures !IsSecret(r[i..j])
  {
    var w := r[i..j];
    assert r[i] == r[..10][i] && r[9] == r[..10][9];
    assert w != [] ==> w[0] == MARK[i];
    assert j > 9 ==> w[9 - i] == ']';
    if IsSecret(w) {
      SecretChars(w);
    }
  }

  // No substring of redacted text is a secret: no match survives, crosses a mark
  // or hides in one.
  lemma {:induction false} RedactedIsSecretFree(s: string)
    ensures SecretFree(RedactText(s))
  {
    hide IsSecret, MatchLen;
    var r := RedactText(s);
    if s == [] {
      NoEmptySecret();
    } else {
      MatchLongest(s, 0);
      var n := if MatchLen(s) > 0 then MatchLen(s) else 1;
      var shift := if MatchLen(s) > 0 then 10 else 1;
      RedactedIsSecretFree(s[n..]);
      var k := AgreesUpToMark(s);
      assert r[shift..] == RedactText(s[n..]);
      forall i, j | 0 <= i <= j <= |r|
        ensures !IsSecret(r[i..j])
      {
        if i >= shift {
          SliceOfTail(r, shift, i - shift, j - shift);
        } else if MatchLen(s) > 0 {
          NoSecretAtMark(r, i, j);
        } else {
          NoSecretAtStart(s, r, k, j);
        }
      }
    }
  }

  lemma SliceOfTail(s: string, k: nat, i: nat, j: nat)
    requires i <= j <= |s| - k
    ensures s[k..][i..j] == s[k + i..k + j]
  {
  }

  lemma NoEmptySecret()
    ensures !IsSecret([])
  {
    if IsSecret([]) {
      SecretChars([]);
    }
  }

  lemma NoSecretAtStart(s: string, r: string, k: nat, j: nat)
    requires MatchLen(s) == 0 && k <= |s| && k <= |r| && r[..k] == s[..k] && (k < |r| ==> r[k] == '[') && j <= |r|
    ensures !IsSecret(r[0..j])
  {
    hide MatchLen, IsSecret;
    assert k < j ==> r[0..j][k] == '[';
    if IsSecret(r[0..j]) {
      SecretChars(r[0..j]);
      assert r[0..j] == r[..k][..j] == s[..j];
      MatchLongest(s, j);
    }
  }

  lemma {:induction false} SearchExactly(s: string)
    ensures Search(s) <==> !SecretFree(s)
    ensures !Search(s) ==> RedactText(s) == s
  {
    hide IsSecret, MatchLen;
    if s == [] {
      NoEmptySecret();
    } else {
      SearchExactly(s[1..]);
      MatchLongest(s, 0);
      var n := MatchLen(s);
      if n > 0 {
        assert IsSecret(s[0..n]);
      } else {
        forall i, j | 0 <= i <= j <= |s|
          ensures IsSecret(s[i..j]) ==> !SecretFree(s[1..])
        {
          if i > 0 {
            SliceOfTail(s, 1, i - 1, j - 1);
          } else {
            MatchLongest(s, j);
            assert s[0..j] == s[..j];
            NoEmptySecret();
          }
        }
        forall i, j | 0 <= i <= j <= |s[1..]|
          ensures IsSecret(s[1..][i..j]) ==> !SecretFree(s)
        {
          SliceOfTail(s, 1, i, j);
        }
      }
    }
  }

  // Redaction leaves a text alone exactly when it holds no secret, so redacting
  // twice is redacting once.
  lemma RedactFixpoint(s: string)
    ensures RedactText(s) == s <==> SecretFree(s)
    ensures RedactText(RedactText(s)) == RedactText(s)
  {
    RedactedIsSecretFree(s);
    SearchExactly(s);
    SearchExactly(RedactText(s));
  }

  // A text cut into kept characters and secret words.
  datatype Piece = Kept(c: char) | Cut(word: string)

  function Source(pieces: seq<Piece>): string
  {
    if pieces == [] then []
    else (match pieces[0] case Kept(c) => [c] case Cut(word) => word) + Source(pieces[1..])
  }

  function Rendered(pieces: seq<Piece>): string
  {
    if pieces == [] then []
    else (match pieces[0] case Kept(c) => [c] case Cut(_) => MARK) + Rendered(pieces[1..])
  }

  // A character is kept only where no secret word starts, and what is cut is the
  // longest secret word that starts there.
  ghost predicate CutsLongest(pieces: seq<Piece>)
  {
    forall i :: 0 <= i < |pieces| ==> HeadCutsLongest(pieces[i], Source(pieces[i..]))
  }

  // The piece is the right one at the start of this text.
  ghost predicate HeadCutsLongest(piece: Piece, text: string)
  {
    match piece
    case Kept(_) => forall m :: 0 <= m <= |text| ==> !IsSecret(text[..m])
    case Cut(word) =>
      && IsSecret(word) && word <= text
      && forall m :: 0 <= m <= |text| && IsSecret(text[..m]) ==> m <= |word|
  }

  lemma HeadIsCut(s: string, n: nat)
    requires n == MatchLen(s) && s != []
    ensures n <= |s|
    ensures n > 0 ==> HeadCutsLongest(Cut(s[..n]), s)
    ensures n == 0 ==> HeadCutsLongest(Kept(s[0]), s)
  {
    hide IsSecret, MatchLen;
    MatchLongest(s, 0);
    NoEmptySecret();
    assert s[..0] == [];
    forall m | 0 <= m <= |s| && IsSecret(s[..m])
      ensures 0 < m <= n
    {
      MatchLongest(s, m);
    }
  }

  lemma CutsLongestCons(piece: Piece, rest: seq<Piece>)
    requires CutsLongest(rest) && HeadCutsLongest(piece, Source([piece] + rest))
    ensures CutsLongest([piece] + rest)
  {
    hide HeadCutsLongest, Source;
    var pieces := [piece] + rest;
    forall i | 0 <= i < |pieces|
      ensures HeadCutsLongest(pieces[i], Source(pieces[i..]))
    {
      if i == 0 {
        assert pieces[0..] == pieces;
      } else {
        assert pieces[i..] == rest[i - 1..] && HeadCutsLongest(rest[i - 1], Source(rest[i - 1..]));
      }
    }
  }

  // Redacted text is the text cut, from left to right, at every longest secret
  // word, each replaced by one mark, and all else is kept.
  lemma {:induction false} OnlySecretsAreCut(s: string) returns (pieces: seq<Piece>)
    ensures Source(pieces) == s && Rendered(pieces) == RedactText(s) && CutsLongest(pieces)
  {
    hide IsSecret, MatchLen, HeadCutsLongest, CutsLongest;
    if s == [] {
      pieces := [];
      assert CutsLongest([]) by { NothingToCut(); }
    } else {
      var n := MatchLen(s);
      HeadIsCut(s, n);
      var head := if n > 0 then Cut(s[..n]) else Kept(s[0]);
      var rest := OnlySecretsAreCut(if n > 0 then s[n..] else s[1..]);
      assert s == if n > 0 then s[..n] + s[n..] else [s[0]] + s[1..];
      pieces := [head] + rest;
      assert Source(pieces) == s;
      CutsLongestCons(head, rest);
    }
  }

  lemma NothingToCut()
    ensures CutsLongest([])
  {
  }

  // There is only one such cut, so it determines the redacted text.
  lemma {:induction false} RedactedExactly(s: string, pieces: seq<Piece>)
    requires Source(pieces) == s && CutsLongest(pieces)
    ensures Rendered(pieces) == RedactText(s)
    decreases |pieces|
  {
    if pieces != [] {
      var head, rest := pieces[0], pieces[1..];
      assert pieces[0..] == pieces && HeadCutsLongest(head, s);
      forall i | 0 <= i < |rest|
        ensures HeadCutsLongest(rest[i], Source(rest[i..]))
      {
        assert rest[i..] == pieces[i + 1..] && HeadCutsLongest(pieces[i + 1], Source(pieces[i + 1..]));
      }
      RedactedExactly(Source(rest), rest);
      HeadMatches(head, s);
      assert s == (if head.Cut? then head.word else [head.c]) + Source(rest);
    }
  }

  lemma HeadMatches(piece: Piece, s: string)
    requires s != [] && HeadCutsLongest(piece, s)
    ensures MatchLen(s) == if piece.Cut? then |piece.word| else 0
    ensures piece.Cut? ==> |piece.word| > 0
  {
    hide IsSecret, MatchLen;
    MatchLongest(s, 0);
    NoEmptySecret();
    assert IsSecret(s[..MatchLen(s)]) || MatchLen(s) == 0;
    if piece.Cut? {
      assert s[..|piece.word|] == piece.word;
      MatchLongest(s, |piece.word|);
    }
  }

  // ---------------------------------------------------------------- JSON values

  function RedactJson(v: Json): Json
    decreases v, 1
  {
    match v
    case JStr(text) => JStr(RedactText(text))
    case JDict(fields) => JDict(RedactFields(fields))
    case JList(items) => JList(RedactItems(items))
    case JNull => v
    case JBool(_) => v
    case JNum(_) => v
  }

  function RedactItems(items: seq<Json>): (r: seq<Json>)
    ensures |r| == |items|
    decreases items, 0
  {
    if items == [] then [] else [RedactJson(items[0])] + RedactItems(items[1..])
  }

  function RedactFields(fields: seq<Field>): (r: seq<Field>)
    ensures |r| == |fields|
    decreases fields, 0
  {
    if fields == [] then []
    else [Field(fields[0].key, RedactJson(fields[0].value))] + RedactFields(fields[1..])
  }

  // The same tree, the text of every string leaf redacted.
  ghost predicate RedactedTree(a: Json, b: Json)
    decreases a
  {
    match a
    case JStr(text) => b == JStr(RedactText(text))
    case JList(items) =>
      b.JList? && |b.items| == |items| && forall i :: 0 <= i < |items| ==> RedactedTree(items[i], b.items[i])
    case JDict(fields) =>
      b.JDict? && |b.fields| == |fields|
      && forall i :: 0 <= i < |fields| ==>
           fields[i].key == b.fields[i].key && RedactedTree(fields[i].value, b.fields[i].value)
    case JNull => b == a
    case JBool(_) => b == a
    case JNum(_) => b == a
  }

  ghost predicate LeavesSecretFree(v: Json)
    decreases v
  {
    match v
    case JStr(text) => SecretFree(text)
    case JList(items) => forall i :: 0 <= i < |items| ==> LeavesSecretFree(items[i])
    case JDict(fields) => forall i :: 0 <= i < |fields| ==> LeavesSecretFree(fields[i].value)
    case JNull => true
    case JBool(_) => true
    case JNum(_) => true
  }

  lemma {:induction false} RedactItemsAt(items: seq<Json>, i: nat)
    requires i < |items|
    ensures RedactItems(items)[i] == RedactJson(items[i])
  {
    if i > 0 {
      RedactItemsAt(items[1..], i - 1);
    }
  }

  lemma {:induction false} RedactFieldsAt(fields: seq<Field>, i: nat)
    requires i < |fields|
    ensures RedactFields(fields)[i] == Field(fields[i].key, RedactJson(fields[i].value))
  {
    if i > 0 {
      RedactFieldsAt(fields[1..], i - 1);
    }
  }

  // Redaction keeps the tree and its keys, redacts every string leaf, and so leaves
  // no secret in any.
  lemma {:induction false} RedactedJson(v: Json)
    ensures RedactedTree(v, RedactJson(v)) && LeavesSecretFree(RedactJson(v))
    ensures RedactJson(v) == v <==> LeavesSecretFree(v)
    decreases v
  {
    hide SecretFree, RedactText;
    match v
    case JStr(text) =>
      RedactedIsSecretFree(text);
      RedactFixpoint(text);
    case JList(items) =>
      forall i | 0 <= i < |items|
        ensures RedactItems(items)[i] == RedactJson(items[i])
        ensures RedactedTree(items[i], RedactJson(items[i])) && LeavesSecretFree(RedactJson(items[i]))
        ensures RedactJson(items[i]) == items[i] <==> LeavesSecretFree(items[i])
      {
        RedactItemsAt(items, i);
        RedactedJson(items[i]);
      }
      if RedactItems(items) != items {
        var i :| 0 <= i < |items| && RedactItems(items)[i] != items[i];
        assert !LeavesSecretFree(items[i]);
      }
    case JDict(fields) =>
      forall i | 0 <= i < |fields|
        ensures RedactFields(fields)[i] == Field(fields[i].key, RedactJson(fields[i].value))
        ensures RedactedTree(fields[i].value, RedactJson(fields[i].value))
        ensures LeavesSecretFree(RedactJson(fields[i].value))
        ensures RedactJson(fields[i].value) == fields[i].value <==> LeavesSecretFree(fields[i].value)
      {
        RedactFieldsAt(fields, i);
        RedactedJson(fields[i].value);
      }
      if RedactFields(fields) != fields {
        var i :| 0 <= i < |fields| && RedactFields(fields)[i] != fields[i];
        assert !LeavesSecretFree(fields[i].value);
      }
    case _ =>
  }

  // ------------------------------------------------------------ failure reasons

  const REASON_LIMIT := 500

  function SafeFailureReason(raw: string, safeReason: string): string
  {
    var candidate := Strip(raw);
    if candidate == [] || Search(candidate) then safeReason
    else if |candidate| > REASON_LIMIT then candidate[..REASON_LIMIT]
    else candidate
  }

  lemma SliceOfPrefix(s: string, n: nat, i: nat, j: nat)
    requires i <= j <= n <= |s|
    ensures s[..n][i..j] == s[i..j]
  {
    assert forall k :: 0 <= k < j - i ==> s[..n][i..j][k] == s[i..j][k];
  }

  // The raw message shows, cut to its first characters, exactly when it is not
  // blank and holds no secret; what shows then holds none either.
  lemma SafeReasonSpec(raw: string, safeReason: string)
    ensures var r := SafeFailureReason(raw, safeReason);
            if Strip(raw) != [] && SecretFree(Strip(raw))
            then r != [] && r <= Strip(raw) && SecretFree(r)
                 && |r| == (if |Strip(raw)| <= 500 then |Strip(raw)| else 500)
            else r == safeReason
  {
    hide IsSecret, MatchLen;
    var c, r := Strip(raw), SafeFailureReason(raw, safeReason);
    SearchExactly(c);
    if c != [] && SecretFree(c) {
      assert r == c[..|r|];
      forall i, j | 0 <= i <= j <= |r|
        ensures !IsSecret(r[i..j])
      {
        SliceOfPrefix(c, |r|, i, j);
      }
    }
  }
}
