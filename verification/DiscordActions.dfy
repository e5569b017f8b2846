// The custom id of an approval button: printing and parsing.

module DiscordActions {
  import opened Options
  import opened Text

  const PREFIX := "ariel:approval:"

  datatype Decision = Approve | Deny

  function DecisionText(d: Decision): string
  {
    match d
    case Approve => "approve"
    case Deny => "deny"
  }

  // Err is the ValueError for a blank reference.
  function ApprovalCustomId(d: Decision, ref: string): Result<string, ()>
  {
    if Strip(ref) == [] then Err(()) else Ok(PREFIX + DecisionText(d) + ":" + Strip(ref))
  }

  predicate IsArielCustomId(id: string)
  {
    PREFIX <= id
  }

  // `str.partition(":")`: the parts around the first colon, if there is one.
  function Partition(s: string): Option<(string, string)>
  {
    if s == [] then None
    else if s[0] == ':' then Some(([], s[1..]))
    else
      match Partition(s[1..])
      case None => None
      case Some((before, after)) => Some(([s[0]] + before, after))
  }

  function ParseApprovalCustomId(id: string): Option<(Decision, string)>
  {
    if !IsArielCustomId(id) then None
    else
      match Partition(id[|PREFIX|..])
      case None => None
      case Some((text, rest)) =>
        if text !in {"approve", "deny"} || Strip(rest) == [] then None
        else Some((if text == "approve" then Approve else Deny, Strip(rest)))
  }

  lemma {:induction false} PartitionSplits(text: string, rest: string)
    requires ':' !in text
    ensures Partition(text + ":" + rest) == Some((text, rest))
  {
    var s := text + ":" + rest;
    if text == [] {
      assert s[1..] == rest;
    } else {
      assert s[1..] == text[1..] + ":" + rest;
      PartitionSplits(text[1..], rest);
      assert [s[0]] + text[1..] == text;
    }
  }

  lemma {:induction false} PartitionJoins(s: string)
    ensures Partition(s).Some? ==>
              var p := Partition(s).value; s == p.0 + ":" + p.1 && ':' !in p.0
    ensures Partition(s).None? ==> ':' !in s
  {
    if s != [] && s[0] != ':' {
      PartitionJoins(s[1..]);
      assert s == [s[0]] + s[1..];
    }
  }

  // Parsing a printed id gives back the decision and the stripped reference,
  // colons in it included; printing fails exactly on blank references.
  lemma ParsePrinted(d: Decision, ref: string)
    ensures ApprovalCustomId(d, ref).Err? <==> forall i :: 0 <= i < |ref| ==> IsSpace(ref[i])
    ensures ApprovalCustomId(d, ref).Ok? ==>
              ParseApprovalCustomId(ApprovalCustomId(d, ref).value) == Some((d, Strip(ref)))
  {
    var i, j := StripSpec(ref);
    StripIdempotent(ref);
    if Strip(ref) != [] {
      var id := ApprovalCustomId(d, ref).value;
      assert !IsSpace(ref[i]);
      assert id[|PREFIX|..] == DecisionText(d) + ":" + Strip(ref);
      PartitionSplits(DecisionText(d), Strip(ref));
    }
  }

  // An id parses exactly when it is a decision and a non-blank reference behind
  // the prefix, and printing what it parses to parses to the same pair.
  lemma PrintParsed(id: string)
    ensures match ParseApprovalCustomId(id)
            case Some((d, ref)) =>
              && ApprovalCustomId(d, ref).Ok?
              && ParseApprovalCustomId(ApprovalCustomId(d, ref).value) == Some((d, ref))
              && exists rest :: id == PREFIX + DecisionText(d) + ":" + rest && Strip(rest) == ref
            case None =>
              forall d, rest :: id == PREFIX + DecisionText(d) + ":" + rest ==> Strip(rest) == []
  {
    match ParseApprovalCustomId(id)
    case Some((d, ref)) =>
      PartitionJoins(id[|PREFIX|..]);
      var rest := Partition(id[|PREFIX|..]).value.1;
      assert id == PREFIX + id[|PREFIX|..] == PREFIX + DecisionText(d) + ":" + rest;
      StripIdempotent(rest);
      ParsePrinted(d, ref);
    case None =>
      forall d, rest | id == PREFIX + DecisionText(d) + ":" + rest
        ensures Strip(rest) == []
      {
        assert id[|PREFIX|..] == DecisionText(d) + ":" + rest;
        PartitionSplits(DecisionText(d), rest);
      }
  }

  // Two references print alike under the same or another decision only if both
  // the decisions and the stripped references agree.
  lemma PrintInjective(d: Decision, ref: string, d': Decision, ref': string)
    requires ApprovalCustomId(d, ref).Ok? && ApprovalCustomId(d', ref').Ok?
    ensures ApprovalCustomId(d, ref) == ApprovalCustomId(d', ref') <==> d == d' && Strip(ref) == Strip(ref')
  {
    ParsePrinted(d, ref);
    ParsePrinted(d', ref');
  }

  // The exact text of an id: prefix, decision, and the stripped reference.
  lemma PrintedExactly(d: Decision, ref: string)
    requires exists i :: 0 <= i < |ref| && !IsSpace(ref[i])
    ensures ApprovalCustomId(d, ref) ==
            Ok((if d.Approve? then "ariel:approval:approve:" else "ariel:approval:deny:") + Strip(ref))
  {
    var i, j := StripSpec(ref);
    var word := if d.Approve? then "approve" else "deny";
    assert PREFIX + word + ":" == if d.Approve? then "ariel:approval:approve:" else "ariel:approval:deny:";
  }
}
