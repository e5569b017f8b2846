// Action attempts of a turn, and the provider-sync grounding rule over them.

module Grounding {
  import opened Options
  import opened Json

  datatype ApprovalStatus = Pending | ApprovedRequest | DeniedRequest | ExpiredRequest

  datatype Approval = Approval(
    status: ApprovalStatus, decisionReason: Option<string>, decidedAt: Option<int>, updatedAt: int)

  datatype AttemptStatus =
    | Proposed | Rejected | AwaitingApproval | Approved | Denied | Expired | Executing | Succeeded | Failed

  datatype Attempt = Attempt(
    id: string,
    capability: string,
    impactLevel: string,
    status: AttemptStatus,
    policyReason: Option<string>,
    approval: Option<Approval>,
    output: Json,
    updatedAt: int)

  // The ids a provider-sync wake must be grounded in.
  datatype GroundingIds = GroundingIds(messages: set<string>, threads: set<string>, evidence: set<string>)

  // `value.get(key)` when the value is a dict, else None (JNull).
  function Get(value: Json, key: string): Json
  {
    if value.JDict? then GetField(value.fields, key) else JNull
  }

  function GetField(fields: seq<Field>, key: string): Json
  {
    if fields == [] then JNull
    else if fields[0].key == key then fields[0].value
    else GetField(fields[1..], key)
  }

  // A number literal denotes zero when no digit before its exponent is another.
  predicate DenotesZero(literal: string)
  {
    literal == [] || literal[0] in {'e', 'E'} || (!('1' <= literal[0] <= '9') && DenotesZero(literal[1..]))
  }

  // Python truthiness.
  predicate Truthy(value: Json)
  {
    match value
    case JNull => false
    case JBool(flag) => flag
    case JNum(literal) => !DenotesZero(literal)
    case JStr(text) => text != ""
    case JList(items) => items != []
    case JDict(fields) => fields != []
  }

  function Or(a: Json, b: Json): Json
  {
    if Truthy(a) then a else b
  }

  predicate NamesOneOf(value: Json, ids: set<string>)
  {
    value.JStr? && value.text in ids
  }

  predicate ReadOk(output: Json)
  {
    Get(Get(output, "read_outcome"), "status") == JStr("ok")
  }

  // Does one attempt ground the turn?
  predicate Grounds(a: Attempt, ids: GroundingIds)
  {
    && a.status == Succeeded
    && a.capability in {"cap.email.read", "cap.provider_evidence.read"}
    && ReadOk(a.output)
    && if a.capability == "cap.provider_evidence.read" then
         NamesOneOf(Get(Get(a.output, "provider_evidence"), "provider_evidence_id"), ids.evidence)
       else
         var message, evidence := Get(a.output, "message"), Get(a.output, "evidence");
         || NamesOneOf(Or(Get(message, "message_id"), Get(evidence, "message_id")), ids.messages)
         || NamesOneOf(Or(Get(message, "thread_id"), Get(evidence, "thread_id")), ids.threads)
         || RefsName(Get(a.output, "provider_evidence_refs"), ids.evidence)
  }

  predicate RefsName(refs: Json, ids: set<string>)
  {
    refs.JList? && exists i :: 0 <= i < |refs.items| && NamesOneOf(Get(refs.items[i], "provider_evidence_id"), ids)
  }

  predicate Satisfied(attempts: seq<Attempt>, ids: GroundingIds)
  {
    || (ids.messages == {} && ids.threads == {} && ids.evidence == {})
    || exists i :: 0 <= i < |attempts| && Grounds(attempts[i], ids)
  }

  // The check as the loop runs it: scan the succeeded reads in order.
  method CheckSatisfied(attempts: seq<Attempt>, ids: GroundingIds) returns (satisfied: bool)
    ensures satisfied == Satisfied(attempts, ids)
  {
    if ids.messages == {} && ids.threads == {} && ids.evidence == {} {
      return true;
    }
    for i := 0 to |attempts|
      invariant forall j :: 0 <= j < i ==> !Grounds(attempts[j], ids)
    {
      var attempt := attempts[i];
      if attempt.status != Succeeded || attempt.capability !in {"cap.email.read", "cap.provider_evidence.read"} {
        continue;
      }
      var output := attempt.output;
      if !ReadOk(output) {
        continue;
      }
      if attempt.capability == "cap.provider_evidence.read" {
        if NamesOneOf(Get(Get(output, "provider_evidence"), "provider_evidence_id"), ids.evidence) {
          return true;
        }
        continue;
      }
      var message, evidence := Get(output, "message"), Get(output, "evidence");
      if NamesOneOf(Or(Get(message, "message_id"), Get(evidence, "message_id")), ids.messages) {
        return true;
      }
      if NamesOneOf(Or(Get(message, "thread_id"), Get(evidence, "thread_id")), ids.threads) {
        return true;
      }
      var found := AnyRefNames(Get(output, "provider_evidence_refs"), ids.evidence);
      if found {
        return true;
      }
    }
    return false;
  }

  method AnyRefNames(refs: Json, ids: set<string>) returns (found: bool)
    ensures found == RefsName(refs, ids)
  {
    if !refs.JList? {
      return false;
    }
    for i := 0 to |refs.items|
      invariant forall j :: 0 <= j < i ==> !NamesOneOf(Get(refs.items[j], "provider_evidence_id"), ids)
    {
      if NamesOneOf(Get(refs.items[i], "provider_evidence_id"), ids) {
        return true;
      }
    }
    return false;
  }

  // --------------------------------------------------------- which reads ground

  function Object(key: string, value: Json): Json
  {
    JDict([Field(key, value)])
  }

  // The output of a read that says so and holds one more field.
  function OkOutput(key: string, value: Json): Json
  {
    JDict([Field("read_outcome", Object("status", JStr("ok"))), Field(key, value)])
  }

  function ReadAttempt(capability: string, key: string, value: Json): Attempt
  {
    Attempt("", capability, "read", Succeeded, None, None, OkOutput(key, value), 0)
  }

  lemma GetOne(key: string, value: Json, k: string)
    ensures Get(Object(key, value), k) == if k == key then value else JNull
  {
    assert GetField(Object(key, value).fields[1..], k) == JNull;
  }

  lemma GetTwo(key: string, value: Json, k: string)
    requires key != "read_outcome"
    ensures Get(OkOutput(key, value), k) ==
            if k == "read_outcome" then Object("status", JStr("ok")) else if k == key then value else JNull
  {
    var fields := OkOutput(key, value).fields;
    assert GetField(fields[1..][1..], k) == JNull;
    assert fields[1..][0] == fields[1];
    assert GetField(fields[1..], k) == if k == key then value else JNull;
  }

  lemma OkOutputIsOk(key: string, value: Json)
    requires key != "read_outcome"
    ensures ReadOk(OkOutput(key, value))
  {
    GetTwo(key, value, "read_outcome");
    GetOne("status", JStr("ok"), "status");
  }

  // A mail read is grounded in the message and the thread that its message names,
  // or else its evidence.
  lemma MailReadGrounds(part: string, id: string, ids: GroundingIds)
    requires part in {"message", "evidence"} && id != ""
    ensures Grounds(ReadAttempt("cap.email.read", part, Object("message_id", JStr(id))), ids) <==> id in ids.messages
    ensures Grounds(ReadAttempt("cap.email.read", part, Object("thread_id", JStr(id))), ids) <==> id in ids.threads
  {
    forall key | key in {"message_id", "thread_id"}
      ensures Grounds(ReadAttempt("cap.email.read", part, Object(key, JStr(id))), ids)
              <==> id in if key == "message_id" then ids.messages else ids.threads
    {
      var value := Object(key, JStr(id));
      OkOutputIsOk(part, value);
      GetTwo(part, value, "message");
      GetTwo(part, value, "evidence");
      GetTwo(part, value, "provider_evidence_refs");
      GetOne(key, JStr(id), "message_id");
      GetOne(key, JStr(id), "thread_id");
      assert Get(JNull, "message_id") == Get(JNull, "thread_id") == JNull;
      hide Get;
    }
  }

  // It is also grounded in its evidence refs, and an evidence read in its evidence.
  lemma EvidenceReadGrounds(id: string, ids: GroundingIds)
    ensures Grounds(ReadAttempt("cap.email.read", "provider_evidence_refs",
                                JList([Object("provider_evidence_id", JStr(id))])), ids)
         == (id in ids.evidence)
    ensures Grounds(ReadAttempt("cap.provider_evidence.read", "provider_evidence",
                                Object("provider_evidence_id", JStr(id))), ids)
         == (id in ids.evidence)
  {
    var evidence := Object("provider_evidence_id", JStr(id));
    var refs := JList([evidence]);
    OkOutputIsOk("provider_evidence_refs", refs);
    OkOutputIsOk("provider_evidence", evidence);
    GetTwo("provider_evidence_refs", refs, "provider_evidence_refs");
    GetTwo("provider_evidence_refs", refs, "message");
    GetTwo("provider_evidence_refs", refs, "evidence");
    GetTwo("provider_evidence", evidence, "provider_evidence");
    GetOne("provider_evidence_id", JStr(id), "provider_evidence_id");
    assert Get(JNull, "message_id") == Get(JNull, "thread_id") == JNull;
    hide Get;
    assert refs.items[0] == evidence;
    assert RefsName(refs, ids.evidence) == (id in ids.evidence);
  }

  // The message's own id decides if it is there, the evidence's only otherwise.
  lemma OwnIdDecides(message: Json, evidence: Json, key: string)
    ensures var own := Get(message, key);
            Or(own, Get(evidence, key)) ==
            if own.JNull? || own == JStr("") then Get(evidence, key)
            else if own.JStr? then own
            else Or(own, Get(evidence, key))
  {
  }

  // No read grounds that did not succeed with outcome ok, or of another capability.
  lemma OthersDoNotGround(a: Attempt, ids: GroundingIds)
    requires a.status != Succeeded || a.capability !in {"cap.email.read", "cap.provider_evidence.read"}
             || Get(Get(a.output, "read_outcome"), "status") != JStr("ok")
    ensures !Grounds(a, ids)
  {
  }
}
