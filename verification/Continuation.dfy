/** Orientation continuations: signed tokens that carry the next call of an orientation run. */
module Continuation {
  import opened Decimals
  import opened Json
  import opened Strings
  import opened Utf8
  import opened Wrappers
  import B = Base64Url

  datatype Payload = RequiredRead(stepId: string, offset: nat) | AcknowledgePhase

  datatype Refusal = Required | Invalid | BindingMismatch

  const SCHEMA := "narada.agent_context.orientation_continuation.v1"

  /** A keyed digest; the key is the delivery receipt id, a NUL and the brief digest. */
  type Mac = (string, string) -> seq<byte>

  function PayloadJson(p: Payload): Json {
    match p
    case RequiredRead(stepId, offset) => Obj([
      Member("schema", Str(SCHEMA)), Member("phase", Str("required_read")),
      Member("step_id", Str(stepId)), Member("offset", Num(Decimal(offset)))])
    case AcknowledgePhase => Obj([Member("schema", Str(SCHEMA)), Member("phase", Str("acknowledge"))])
  }

  function Lookup(members: seq<Member>, key: string): Option<Json> {
    if members == [] then None
    else if members[0].key == key then Some(members[0].value)
    else Lookup(members[1..], key)
  }

  function Signature(mac: Mac, key: string, encoded: string): string {
    B.EncodeBytes(mac(key, encoded))
  }

  function Encoded(p: Payload): string {
    B.EncodeBytes(Encode(Print(PayloadJson(p))))
  }

  function Token(encoded: string, signature: string): string {
    "oc1." + encoded + "." + signature
  }

  function Issue(mac: Mac, key: string, p: Payload): string {
    Token(Encoded(p), Signature(mac, key, Encoded(p)))
  }

  function Split(s: string): (parts: seq<string>)
    ensures |parts| >= 1
  {
    if s == "" then [""]
    else
      var rest := Split(s[1..]);
      if s[0] == '.' then [""] + rest else [[s[0]] + rest[0]] + rest[1..]
  }

  function DecodePayload(v: Json): Option<Payload> {
    if !v.Obj? || Lookup(v.members, "schema") != Some(Str(SCHEMA)) then None
    else if Lookup(v.members, "phase") == Some(Str("acknowledge")) then Some(AcknowledgePhase)
    else if Lookup(v.members, "phase") != Some(Str("required_read")) then None
    else match (Lookup(v.members, "step_id"), Lookup(v.members, "offset"))
      case (Some(Str(stepId)), Some(Num(text))) =>
        if stepId == "" then None
        else (match ReadDecimal(text)
              case None => None
              case Some(offset) => Some(RequiredRead(stepId, offset)))
      case _ => None
  }

  function DecodeEncoded(encoded: string): Option<Payload> {
    match B.DecodeText(encoded)
    case None => None
    case Some(bytes) =>
      match Decode(bytes)
      case None => None
      case Some(text) =>
        match Parse(text)
        case None => None
        case Some(v) => DecodePayload(v)
  }

  function ParseContinuation(mac: Mac, key: string, value: string): Result<Payload, Refusal> {
    var parts := Split(Trim(value));
    if Trim(value) == "" then Err(Required)
    else if |parts| != 3 || parts[0] != "oc1" then Err(Invalid)
    else if parts[2] != Signature(mac, key, parts[1]) then Err(BindingMismatch)
    else match DecodeEncoded(parts[1])
      case None => Err(Invalid)
      case Some(p) => Ok(p)
  }

  lemma {:induction false} SplitPlain(s: string)
    requires forall i :: 0 <= i < |s| ==> s[i] != '.'
    ensures Split(s) == [s]
  {
    if s != "" {
      SplitPlain(s[1..]);
      assert [s[0]] + s[1..] == s;
    }
  }

  lemma {:induction false} SplitFirst(s: string, rest: string)
    requires forall i :: 0 <= i < |s| ==> s[i] != '.'
    ensures Split(s + "." + rest) == [s] + Split(rest)
  {
    var t := s + "." + rest;
    if s == "" {
      assert t[1..] == rest;
    } else {
      assert t[1..] == s[1..] + "." + rest;
      SplitFirst(s[1..], rest);
      assert [s[0]] + s[1..] == s;
    }
  }

  lemma KeysDiffer()
    ensures "schema" != "phase" && "schema" != "step_id" && "schema" != "offset"
    ensures "phase" != "step_id" && "phase" != "offset" && "step_id" != "offset"
    ensures "acknowledge" != "required_read"
  {
    assert "schema"[0] != "phase"[0] && "schema"[1] != "step_id"[1] && "schema"[0] != "offset"[0];
    assert "phase"[0] != "step_id"[0] && "phase"[0] != "offset"[0] && "step_id"[0] != "offset"[0];
    assert "acknowledge"[0] != "required_read"[0];
  }

  lemma {:induction false} LookupFinds(members: seq<Member>, i: nat)
    requires DistinctKeys(members) && i < |members|
    ensures Lookup(members, members[i].key) == Some(members[i].value)
  {
    if i > 0 {
      LookupFinds(members[1..], i - 1);
    }
  }

  lemma ReadPayloadReadsBack(stepId: string, offset: nat)
    requires stepId != ""
    ensures var p := RequiredRead(stepId, offset); var v := PayloadJson(p);
      WellFormed(v) && DecodePayload(v) == Some(p)
  {
    KeysDiffer();
    DecimalReadsBack(offset);
    var members := PayloadJson(RequiredRead(stepId, offset)).members;
    assert DistinctKeys(members);
    LookupFinds(members, 0);
    LookupFinds(members, 1);
    LookupFinds(members, 2);
    LookupFinds(members, 3);
  }

  lemma AcknowledgeReadsBack()
    ensures WellFormed(PayloadJson(AcknowledgePhase))
      && DecodePayload(PayloadJson(AcknowledgePhase)) == Some(AcknowledgePhase)
  {
    KeysDiffer();
    var members := PayloadJson(AcknowledgePhase).members;
    assert DistinctKeys(members);
    LookupFinds(members, 0);
    LookupFinds(members, 1);
  }

  lemma Base64HasNoDot(s: string, i: nat)
    requires B.IsBase64Url(s) && i < |s|
    ensures s[i] != '.' && !IsSpace(s[i])
  {
    assert B.ValueOf(s[i]).Some?;
  }

  /** The three parts of a token come back; nothing is trimmed away. */
  lemma TokenParts(encoded: string, signature: string)
    requires B.IsBase64Url(encoded) && B.IsBase64Url(signature)
    ensures Trim(Token(encoded, signature)) == Token(encoded, signature)
    ensures Split(Token(encoded, signature)) == ["oc1", encoded, signature]
  {
    var t := Token(encoded, signature);
    forall i | 0 <= i < |encoded| {
      Base64HasNoDot(encoded, i);
    }
    forall i | 0 <= i < |signature| {
      Base64HasNoDot(signature, i);
    }
    SplitFirst("oc1", encoded + "." + signature);
    SplitFirst(encoded, signature);
    SplitPlain(signature);
    assert t == "oc1" + "." + (encoded + "." + signature);
    assert t[|t| - 1] == if signature == "" then '.' else signature[|signature| - 1];
    TrimmedStays(t);
  }

  lemma EncodedReadsBack(p: Payload)
    requires p.RequiredRead? ==> p.stepId != ""
    ensures B.IsBase64Url(Encoded(p)) && DecodeEncoded(Encoded(p)) == Some(p)
  {
    var v := PayloadJson(p);
    if p.RequiredRead? {
      ReadPayloadReadsBack(p.stepId, p.offset);
    } else {
      AcknowledgeReadsBack();
    }
    ParsePrint(v);
    DecodeEncode(Print(v));
    B.RoundTrip(Encode(Print(v)));
  }

  /** A continuation decodes to exactly the step and offset it was issued for. */
  lemma ContinuationRoundTrip(mac: Mac, key: string, p: Payload)
    requires p.RequiredRead? ==> p.stepId != ""
    ensures ParseContinuation(mac, key, Issue(mac, key, p)) == Ok(p)
  {
    EncodedReadsBack(p);
    B.RoundTrip(mac(key, Encoded(p)));
    TokenParts(Encoded(p), Signature(mac, key, Encoded(p)));
  }

  /** A continuation issued under one key is accepted under another only when the keyed digests of
      its payload agree. */
  lemma OtherKeyRefused(mac: Mac, key: string, other: string, p: Payload)
    requires mac(key, Encoded(p)) != mac(other, Encoded(p))
    ensures ParseContinuation(mac, other, Issue(mac, key, p)) == Err(BindingMismatch)
  {
    B.RoundTrip(Encode(Print(PayloadJson(p))));
    B.RoundTrip(mac(key, Encoded(p)));
    B.RoundTrip(mac(other, Encoded(p)));
    TokenParts(Encoded(p), Signature(mac, key, Encoded(p)));
  }


  // ---- what is accepted ----

  function Joined(parts: seq<string>): string
    requires parts != []
  {
    if |parts| == 1 then parts[0] else parts[0] + "." + Joined(parts[1..])
  }

  lemma PartInFront(part: string, rest: seq<string>)
    requires rest != []
    ensures Joined([part] + rest) == part + "." + Joined(rest)
  {
    assert ([part] + rest)[1..] == rest;
  }

  lemma CharInFront(c: char, parts: seq<string>)
    requires parts != []
    ensures Joined([[c] + parts[0]] + parts[1..]) == [c] + Joined(parts)
  {
    var longer := [[c] + parts[0]] + parts[1..];
    assert longer[1..] == parts[1..] && longer[0] == [c] + parts[0];
  }

  lemma SplitStep(s: string)
    requires s != ""
    ensures var rest := Split(s[1..]);
      Split(s) == if s[0] == '.' then [""] + rest else [[s[0]] + rest[0]] + rest[1..]
  {
  }

  lemma {:induction false} SplitJoins(s: string)
    ensures Joined(Split(s)) == s
  {
    if s != "" {
      SplitJoins(s[1..]);
      SplitStep(s);
      if s[0] == '.' {
        PartInFront("", Split(s[1..]));
      } else {
        CharInFront(s[0], Split(s[1..]));
      }
    }
  }

  lemma ThreeJoin(parts: seq<string>)
    requires |parts| == 3
    ensures Joined(parts) == parts[0] + "." + parts[1] + "." + parts[2]
  {
    var rest := parts[1..];
    assert rest[1..] == [parts[2]];
    assert Joined(rest) == parts[1] + "." + parts[2];
  }

  /** An accepted token is, white space around it aside, a payload with the keyed digest of its own text, and a read
      names a step. */
  lemma AcceptedIsSigned(mac: Mac, key: string, value: string)
    requires ParseContinuation(mac, key, value).Ok?
    ensures var p := ParseContinuation(mac, key, value).value;
      && (p.RequiredRead? ==> p.stepId != "")
      && exists encoded :: DecodeEncoded(encoded) == Some(p)
           && Trim(value) == "oc1." + encoded + "." + B.EncodeBytes(mac(key, encoded))
  {
    var parts := Split(Trim(value));
    SplitJoins(Trim(value));
    ThreeJoin(parts);
    assert "oc1" + "." == "oc1.";
    assert DecodeEncoded(parts[1]) == Some(ParseContinuation(mac, key, value).value);
  }
}
