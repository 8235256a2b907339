/** The native distribution manifest: a fingerprint that ignores volatile metadata, and artifacts that are
    published once. */
module NativeManifest {
  import opened Json
  import opened Utf8
  import opened Wrappers

  const FINGERPRINT := "manifest_fingerprint"

  predicate Volatile(key: string) {
    key == "generated_at" || key == "mtime_ms"
  }

  /** `strip_volatile_manifest_metadata`. */
  function Strip(v: Json): Json
    decreases v, 0
  {
    match v
    case Arr(items) => Arr(StripItems(items))
    case Obj(members) => Obj(StripMembers(members))
    case _ => v
  }

  function StripItems(items: seq<Json>): (r: seq<Json>)
    ensures |r| == |items| && forall i :: 0 <= i < |items| ==> r[i] == Strip(items[i])
    decreases items, 0
  {
    if items == [] then [] else [Strip(items[0])] + StripItems(items[1..])
  }

  function StripMembers(members: seq<Member>): seq<Member>
    decreases members, 0
  {
    if members == [] then [] else StripMember(members[0]) + StripMembers(members[1..])
  }

  function StripMember(m: Member): seq<Member>
    decreases m, 1
  {
    if Volatile(m.key) then [] else [Member(m.key, Strip(m.value))]
  }

  lemma {:induction false} StripAdds(a: seq<Member>, b: seq<Member>)
    ensures StripMembers(a + b) == StripMembers(a) + StripMembers(b)
  {
    if a == [] {
      assert a + b == b;
    } else {
      assert (a + b)[0] == a[0] && (a + b)[1..] == a[1..] + b;
      StripAdds(a[1..], b);
    }
  }

  lemma StripOne(m: Member)
    ensures StripMembers([m]) == StripMember(m)
  {
    assert [m][1..] == [];
  }

  /** Stripping twice is stripping once. */
  lemma {:induction false} StripIsIdempotent(v: Json)
    ensures Strip(Strip(v)) == Strip(v)
    decreases v, 0
  {
    match v {
      case Arr(items) =>
        forall i | 0 <= i < |items|
          ensures Strip(Strip(items[i])) == Strip(items[i])
        {
          StripIsIdempotent(items[i]);
        }
        assert StripItems(StripItems(items)) == StripItems(items);
      case Obj(members) => StripMembersTwice(members);
      case _ =>
    }
  }

  lemma {:induction false} StripMembersTwice(members: seq<Member>)
    ensures StripMembers(StripMembers(members)) == StripMembers(members)
    decreases members, 0
  {
    if members != [] {
      var m := members[0];
      StripIsIdempotent(m.value);
      StripMembersTwice(members[1..]);
      StripAdds(StripMember(m), StripMembers(members[1..]));
      if !Volatile(m.key) {
        StripOne(Member(m.key, Strip(m.value)));
      }
    }
  }

  // ---- changes to volatile metadata only ----

  function Without(members: seq<Member>, key: string): seq<Member> {
    if members == [] then []
    else (if members[0].key == key then [] else [members[0]]) + Without(members[1..], key)
  }

  function WithValue(members: seq<Member>, key: string, value: Json): seq<Member> {
    if members == [] then [Member(key, value)]
    else if members[0].key == key then [Member(key, value)] + members[1..]
    else [members[0]] + WithValue(members[1..], key, value)
  }

  /** One volatile key set, added or removed in the object a path leads to; a path that leads elsewhere changes
      nothing. */
  datatype Edit = Edit(path: seq<nat>, key: string, value: Option<Json>)

  function EditAt(v: Json, path: seq<nat>, key: string, value: Option<Json>): Json
    decreases |path|
  {
    match v
    case Arr(items) =>
      if path != [] && path[0] < |items| then Arr(items[path[0] := EditAt(items[path[0]], path[1..], key, value)])
        else v
    case Obj(members) =>
      if path == [] then Obj(match value case None => Without(members, key) case Some(x) => WithValue(members, key, x))
      else if path[0] < |members| then
        var m := members[path[0]];
        Obj(members[path[0] := Member(m.key, EditAt(m.value, path[1..], key, value))])
      else v
    case _ => v
  }

  function EditAll(v: Json, edits: seq<Edit>): Json
    decreases |edits|
  {
    if edits == [] then v else EditAll(EditAt(v, edits[0].path, edits[0].key, edits[0].value), edits[1..])
  }

  lemma {:induction false} WithoutStrips(members: seq<Member>, key: string)
    requires Volatile(key)
    ensures StripMembers(Without(members, key)) == StripMembers(members)
  {
    if members != [] {
      WithoutStrips(members[1..], key);
      StripAdds(if members[0].key == key then [] else [members[0]], Without(members[1..], key));
      StripOne(members[0]);
    }
  }

  lemma {:induction false} WithValueStrips(members: seq<Member>, key: string, value: Json)
    requires Volatile(key)
    ensures StripMembers(WithValue(members, key, value)) == StripMembers(members)
  {
    StripOne(Member(key, value));
    if members != [] {
      if members[0].key == key {
        StripAdds([Member(key, value)], members[1..]);
      } else {
        WithValueStrips(members[1..], key, value);
        StripAdds([members[0]], WithValue(members[1..], key, value));
        StripOne(members[0]);
      }
    }
  }

  lemma ReplacedStrips(members: seq<Member>, i: nat, value: Json)
    requires i < |members| && Strip(value) == Strip(members[i].value)
    ensures StripMembers(members[i := Member(members[i].key, value)]) == StripMembers(members)
  {
    var m := Member(members[i].key, value);
    assert members[i := m] == members[..i] + ([m] + members[i + 1..]);
    assert members == members[..i] + ([members[i]] + members[i + 1..]);
    StripAdds(members[..i], [m] + members[i + 1..]);
    StripAdds(members[..i], [members[i]] + members[i + 1..]);
    StripAdds([m], members[i + 1..]);
    StripAdds([members[i]], members[i + 1..]);
    StripOne(m);
    StripOne(members[i]);
  }

  /** A change to one volatile key, at any depth, leaves the stripped value as it was. */
  lemma {:induction false} EditStrips(v: Json, path: seq<nat>, key: string, value: Option<Json>)
    requires Volatile(key)
    ensures Strip(EditAt(v, path, key, value)) == Strip(v)
    decreases |path|
  {
    match v {
      case Arr(items) =>
        if path != [] && path[0] < |items| {
          EditStrips(items[path[0]], path[1..], key, value);
          assert StripItems(items[path[0] := EditAt(items[path[0]], path[1..], key, value)]) == StripItems(items);
        }
      case Obj(members) =>
        if path == [] {
          match value {
            case None => WithoutStrips(members, key);
            case Some(x) => WithValueStrips(members, key, x);
          }
        } else if path[0] < |members| {
          EditStrips(members[path[0]].value, path[1..], key, value);
          ReplacedStrips(members, path[0], EditAt(members[path[0]].value, path[1..], key, value));
        }
      case _ =>
    }
  }

  lemma {:induction false} EditsStrip(v: Json, edits: seq<Edit>)
    requires forall i :: 0 <= i < |edits| ==> Volatile(edits[i].key)
    ensures Strip(EditAll(v, edits)) == Strip(v)
    decreases |edits|
  {
    if edits != [] {
      EditStrips(v, edits[0].path, edits[0].key, edits[0].value);
      EditsStrip(EditAt(v, edits[0].path, edits[0].key, edits[0].value), edits[1..]);
    }
  }

  // ---- signing and verifying ----

  type Sha = seq<byte> -> string

  function Digest(sha: Sha, v: Json): string {
    sha(Encode(Print(Strip(v))))
  }

  function Unsigned(root: string, records: seq<Json>, generatedAt: string): seq<Member> {
    [Member("schema", Str("narada.workspace_artifact_manifest.v1")), Member("generated_at", Str(generatedAt)),
     Member("workspace_root", Str(root)), Member("packages", Arr([])), Member("artifacts", Arr(records)),
     Member("distribution_kind", Str("native")), Member("build_authority", Str("cargo"))]
  }

  function Sign(sha: Sha, members: seq<Member>): Json {
    Obj(members + [Member(FINGERPRINT, Str(Digest(sha, Obj(members))))])
  }

  /** `native_manifest`. */
  function NativeManifest(sha: Sha, root: string, records: seq<Json>, generatedAt: string): Json {
    Sign(sha, Unsigned(root, records, generatedAt))
  }

  function Position(members: seq<Member>, key: string): (r: Option<nat>)
    ensures r.Some? ==> r.value < |members| && members[r.value].key == key
    ensures forall i :: 0 <= i < (if r.Some? then r.value else |members|) ==> members[i].key != key
  {
    if members == [] then None
    else if members[0].key == key then Some(0)
    else match Position(members[1..], key) case None => None case Some(i) => Some(i + 1)
  }

  /** Removing a key from an order-preserving map moves the last entry into its place. */
  function SwapRemove(members: seq<Member>, key: string): seq<Member> {
    match Position(members, key)
    case None => members
    case Some(i) =>
      var last := |members| - 1;
      if i == last then members[..last] else members[i := members[last]][..last]
  }

  datatype VerifyError = FingerprintRequired | FingerprintMismatch

  /** The fingerprint check of `verify_native_distribution`. */
  function Verify(sha: Sha, manifest: Json): (r: Option<VerifyError>) {
    if !manifest.Obj? then Some(FingerprintRequired)
    else
      match Position(manifest.members, FINGERPRINT)
      case None => Some(FingerprintRequired)
      case Some(i) =>
        match manifest.members[i].value
        case Str(expected) =>
          if Digest(sha, Obj(SwapRemove(manifest.members, FINGERPRINT))) == expected then None
            else Some(FingerprintMismatch)
        case _ => Some(FingerprintRequired)
  }

  predicate NoFingerprint(members: seq<Member>) {
    forall i :: 0 <= i < |members| ==> members[i].key != FINGERPRINT
  }

  lemma FingerprintIsKept()
    ensures !Volatile(FINGERPRINT)
  {
    assert FINGERPRINT[1] == 'a' && "generated_at"[1] == 'e' && "mtime_ms"[1] == 't';
  }

  lemma {:induction false} StripKeepsKeys(members: seq<Member>)
    requires NoFingerprint(members)
    ensures NoFingerprint(StripMembers(members))
  {
    if members != [] {
      StripKeepsKeys(members[1..]);
    }
  }

  /** A list whose stripped form ends in the fingerprint: before it what strips to the rest, after it only
      volatile keys. */
  lemma FingerprintSplits(members: seq<Member>, kept: seq<Member>, value: Json) returns (i: nat)
    requires StripMembers(members) == kept + [Member(FINGERPRINT, value)] && NoFingerprint(kept)
    ensures Position(members, FINGERPRINT) == Some(i) && Strip(members[i].value) == value
    ensures StripMembers(members[..i]) == kept && StripMembers(members[i + 1..]) == []
  {
    FingerprintIsFound(members, kept, value);
    i := Position(members, FINGERPRINT).value;
    assert members == members[..i] + ([members[i]] + members[i + 1..]);
    StripAdds(members[..i], [members[i]] + members[i + 1..]);
    StripAdds([members[i]], members[i + 1..]);
    StripOne(members[i]);
    FingerprintIsKept();
    StripKeepsKeys(members[..i]);
    var m := Member(FINGERPRINT, Strip(members[i].value));
    SplitAtKey(StripMembers(members[..i]), m, StripMembers(members[i + 1..]), kept, Member(FINGERPRINT, value));
  }

  lemma FingerprintIsFound(members: seq<Member>, kept: seq<Member>, value: Json)
    requires StripMembers(members) == kept + [Member(FINGERPRINT, value)]
    ensures Position(members, FINGERPRINT).Some?
  {
    assert StripMembers(members)[|kept|].key == FINGERPRINT;
    if NoFingerprint(members) {
      StripKeepsKeys(members);
    }
  }

  lemma SplitAtKey(a: seq<Member>, m: Member, b: seq<Member>, kept: seq<Member>, n: Member)
    requires NoFingerprint(a) && NoFingerprint(kept) && m.key == FINGERPRINT && n.key == FINGERPRINT
    requires a + ([m] + b) == kept + [n]
    ensures a == kept && m == n && b == []
  {
    var s := a + ([m] + b);
    assert forall j :: 0 <= j < |a| ==> s[j].key != FINGERPRINT;
    assert forall j :: 0 <= j < |kept| ==> s[j].key != FINGERPRINT;
    assert s[|a|] == m && s[|kept|] == n;
    assert |a| == |kept|;
    assert s[..|a|] == a && s[|a| + 1..] == b && (kept + [n])[..|kept|] == kept && (kept + [n])[|kept| + 1..] == [];
  }

  /** Then taking the fingerprint out leaves the rest, whichever entry moves into its place. */
  lemma RemovalStrips(members: seq<Member>, i: nat)
    requires Position(members, FINGERPRINT) == Some(i) && StripMembers(members[i + 1..]) == []
    ensures StripMembers(SwapRemove(members, FINGERPRINT)) == StripMembers(members[..i])
  {
    var last := |members| - 1;
    if i < last {
      var moved, between := members[last], members[i + 1..last];
      assert SwapRemove(members, FINGERPRINT) == members[..i] + ([moved] + between);
      assert members[i + 1..] == between + [moved];
      StripAdds(members[..i], [moved] + between);
      StripAdds([moved], between);
      StripAdds(between, [moved]);
    }
  }

  lemma UnsignedHasNone(root: string, records: seq<Json>, generatedAt: string)
    ensures NoFingerprint(Unsigned(root, records, generatedAt))
  {
    var u := Unsigned(root, records, generatedAt);
    assert FINGERPRINT[0] == 'm';
    assert u[0].key[0] == 's' && u[1].key[0] == 'g' && u[2].key[0] == 'w' && u[3].key[0] == 'p';
    assert u[4].key[0] == 'a' && u[5].key[0] == 'd' && u[6].key[0] == 'b';
  }

  /** What edits leave of a signed list still strips to the list and its fingerprint. */
  lemma {:induction false} SignedStrips(sha: Sha, members: seq<Member>, edits: seq<Edit>)
    requires forall i :: 0 <= i < |edits| ==> Volatile(edits[i].key)
    ensures Strip(EditAll(Sign(sha, members), edits)) ==
      Obj(StripMembers(members) + [Member(FINGERPRINT, Str(Digest(sha, Obj(members))))])
  {
    var fingerprint := Member(FINGERPRINT, Str(Digest(sha, Obj(members))));
    EditsStrip(Sign(sha, members), edits);
    StripAdds(members, [fingerprint]);
    StripOne(fingerprint);
    FingerprintIsKept();
  }

  lemma VerifiesAt(sha: Sha, members: seq<Member>, i: nat, expected: string)
    requires Position(members, FINGERPRINT) == Some(i) && members[i].value == Str(expected)
    requires Digest(sha, Obj(SwapRemove(members, FINGERPRINT))) == expected
    ensures Verify(sha, Obj(members)) == None
  {
  }

  /** Whatever strips to a list and the list's own fingerprint verifies. */
  lemma {:induction false} StrippedSignedVerifies(sha: Sha, members: seq<Member>, edited: seq<Member>)
    requires NoFingerprint(members)
    requires StripMembers(edited) == StripMembers(members) + [Member(FINGERPRINT, Str(Digest(sha, Obj(members))))]
    ensures Verify(sha, Obj(edited)) == None
  {
    var fingerprint := Str(Digest(sha, Obj(members)));
    StripKeepsKeys(members);
    var i := FingerprintSplits(edited, StripMembers(members), fingerprint);
    StripKeepsShape(edited[i].value);
    RemovalStrips(edited, i);
    VerifiesAt(sha, edited, i, Digest(sha, Obj(members)));
  }

  /** A signed list verifies, and still does after any changes to volatile keys only, at any depth. */
  lemma {:induction false} SignedSurvivesVolatileEdits(sha: Sha, members: seq<Member>, edits: seq<Edit>)
    requires NoFingerprint(members) && forall i :: 0 <= i < |edits| ==> Volatile(edits[i].key)
    ensures Verify(sha, EditAll(Sign(sha, members), edits)) == None
  {
    var edited := EditAll(Sign(sha, members), edits);
    SignedStrips(sha, members, edits);
    StripKeepsShape(edited);
    StrippedSignedVerifies(sha, members, edited.members);
  }

  lemma StripKeepsShape(v: Json)
    ensures Strip(v).Obj? <==> v.Obj?
    ensures Strip(v).Str? ==> Strip(v) == v
  {
  }

  lemma {:induction false} NativeManifestVerifies(sha: Sha, root: string, records: seq<Json>, generatedAt: string,
                                                  edits: seq<Edit>)
    requires forall i :: 0 <= i < |edits| ==> Volatile(edits[i].key)
    ensures Verify(sha, EditAll(NativeManifest(sha, root, records, generatedAt), edits)) == None
  {
    UnsignedHasNone(root, records, generatedAt);
    SignedSurvivesVolatileEdits(sha, Unsigned(root, records, generatedAt), edits);
  }

  /** And nothing else: two verified manifests with one fingerprint have the same content but for volatile
      keys, unless their texts collide under the digest. */
  lemma {:induction false} FingerprintDeterminesContent(sha: Sha, a: Json, b: Json)
    requires Verify(sha, a) == None && Verify(sha, b) == None
    requires a.members[Position(a.members, FINGERPRINT).value].value ==
      b.members[Position(b.members, FINGERPRINT).value].value
    requires var x, y := Strip(Obj(SwapRemove(a.members, FINGERPRINT))), Strip(Obj(SwapRemove(b.members, FINGERPRINT)));
      WellFormed(x) && WellFormed(y)
        && (sha(Encode(Print(x))) == sha(Encode(Print(y))) ==> Encode(Print(x)) == Encode(Print(y)))
    ensures Strip(Obj(SwapRemove(a.members, FINGERPRINT))) == Strip(Obj(SwapRemove(b.members, FINGERPRINT)))
  {
    var x, y := Strip(Obj(SwapRemove(a.members, FINGERPRINT))), Strip(Obj(SwapRemove(b.members, FINGERPRINT)));
    DecodeEncode(Print(x));
    DecodeEncode(Print(y));
    ParsePrint(x);
    ParsePrint(y);
  }

  // ---- what the fingerprint covers ----

  /** A way into a value: fields by key, items by position. */
  datatype Place = Field(key: string) | Item(at: nat)

  /** The value at the end of a way, if it leads anywhere. */
  function Get(v: Json, way: seq<Place>): Option<Json>
    decreases |way|, 0
  {
    if way == [] then Some(v)
    else match (v, way[0])
      case (Arr(items), Item(at)) => if at < |items| then Get(items[at], way[1..]) else None
      case (Obj(members), Field(key)) => GetField(members, key, way[1..])
      case _ => None
  }

  function GetField(members: seq<Member>, key: string, way: seq<Place>): Option<Json>
    decreases |way|, |members| + 1
  {
    if members == [] then None
    else if members[0].key == key then Get(members[0].value, way)
    else GetField(members[1..], key, way)
  }

  /** The way goes through no field named `generated_at` or `mtime_ms`. */
  predicate Stable(way: seq<Place>) {
    forall i :: 0 <= i < |way| ==> way[i] != Field("generated_at") && way[i] != Field("mtime_ms")
  }

  lemma StripFirst(m: Member, rest: seq<Member>)
    ensures StripMembers([m] + rest) ==
      (if m.key == "generated_at" || m.key == "mtime_ms" then [] else [Member(m.key, Strip(m.value))])
        + StripMembers(rest)
  {
    assert ([m] + rest)[1..] == rest;
  }

  /** Stripping keeps exactly what is not below one of the two fields, and strips it. */
  lemma {:induction false} StripKeepsTheRest(v: Json, way: seq<Place>)
    requires Stable(way)
    ensures Get(Strip(v), way) == match Get(v, way) case Some(x) => Some(Strip(x)) case None => None
    decreases |way|, 0
  {
    if way != [] {
      if v.Arr? && way[0].Item? && way[0].at < |v.items| {
        StripKeepsTheRest(v.items[way[0].at], way[1..]);
      } else if v.Obj? && way[0].Field? {
        StripKeepsField(v.members, way[0].key, way[1..]);
      }
    }
  }

  lemma {:induction false} StripKeepsField(members: seq<Member>, key: string, way: seq<Place>)
    requires Stable(way) && key != "generated_at" && key != "mtime_ms"
    ensures GetField(StripMembers(members), key, way) ==
      match GetField(members, key, way) case Some(x) => Some(Strip(x)) case None => None
    decreases |way|, |members| + 1
  {
    if members != [] {
      var m, rest := members[0], members[1..];
      assert members == [m] + rest;
      StripFirst(m, rest);
      StripKeepsField(rest, key, way);
      if m.key == key {
        StripKeepsTheRest(m.value, way);
      } else if m.key == "generated_at" || m.key == "mtime_ms" {
        assert StripMembers(members) == StripMembers(rest);
      } else {
        assert StripMembers(members)[1..] == StripMembers(rest);
      }
    }
  }

  predicate IsScalar(v: Json) {
    !v.Arr? && !v.Obj?
  }

  /** Two values that differ in a string, number or boolean there differ stripped. */
  lemma ScalarsAreCovered(v: Json, w: Json, way: seq<Place>)
    requires Stable(way) && Get(v, way).Some? && Get(w, way).Some?
    requires IsScalar(Get(v, way).value) && IsScalar(Get(w, way).value) && Get(v, way) != Get(w, way)
    ensures Strip(v) != Strip(w)
  {
    StripKeepsTheRest(v, way);
    StripKeepsTheRest(w, way);
  }

  /** The value with another one put at the end of a way. */
  function Put(v: Json, way: seq<Place>, x: Json): Json
    decreases |way|, 0
  {
    if way == [] then x
    else match (v, way[0])
      case (Arr(items), Item(at)) => if at < |items| then Arr(items[at := Put(items[at], way[1..], x)]) else v
      case (Obj(members), Field(key)) => Obj(PutField(members, key, way[1..], x))
      case _ => v
  }

  function PutField(members: seq<Member>, key: string, way: seq<Place>, x: Json): (r: seq<Member>)
    ensures |r| == |members| && forall i :: 0 <= i < |r| ==> r[i].key == members[i].key
    decreases |way|, |members| + 1
  {
    if members == [] then []
    else if members[0].key == key then [Member(key, Put(members[0].value, way, x))] + members[1..]
    else [members[0]] + PutField(members[1..], key, way, x)
  }

  lemma {:induction false} PutIsThere(v: Json, way: seq<Place>, x: Json)
    requires Get(v, way).Some?
    ensures Get(Put(v, way, x), way) == Some(x)
    decreases |way|, 0
  {
    if way != [] {
      if v.Arr? {
        PutIsThere(v.items[way[0].at], way[1..], x);
      } else {
        PutFieldIsThere(v.members, way[0].key, way[1..], x);
      }
    }
  }

  lemma {:induction false} PutFieldIsThere(members: seq<Member>, key: string, way: seq<Place>, x: Json)
    requires GetField(members, key, way).Some?
    ensures GetField(PutField(members, key, way, x), key, way) == Some(x)
    decreases |way|, |members| + 1
  {
    if members[0].key == key {
      PutIsThere(members[0].value, way, x);
    } else {
      PutFieldIsThere(members[1..], key, way, x);
      assert PutField(members, key, way, x)[1..] == PutField(members[1..], key, way, x);
    }
  }

  /** A field that is not the last one is put without touching what follows. */
  lemma {:induction false} PutFieldBefore(members: seq<Member>, last: Member, key: string, way: seq<Place>, x: Json)
    requires last.key != key
    ensures PutField(members + [last], key, way, x) == PutField(members, key, way, x) + [last]
    ensures GetField(members + [last], key, way) == GetField(members, key, way)
    decreases |members|
  {
    if members == [] {
      assert [] + [last] == [last] && [last][1..] == [];
    } else {
      assert (members + [last])[1..] == members[1..] + [last];
      PutFieldBefore(members[1..], last, key, way, x);
    }
  }

  lemma {:induction false} StripIsWellFormed(v: Json)
    requires WellFormed(v)
    ensures WellFormed(Strip(v))
    decreases v, 0
  {
    match v {
      case Arr(items) =>
        forall i | 0 <= i < |items| {
          StripIsWellFormed(items[i]);
        }
      case Obj(members) => StripMembersWellFormed(members);
      case _ =>
    }
  }

  /** A stripped member is one of the members, with its value stripped. */
  lemma {:induction false} StrippedMember(members: seq<Member>, i: nat) returns (j: nat)
    requires i < |StripMembers(members)|
    ensures i <= j < |members| && StripMembers(members)[i] == Member(members[j].key, Strip(members[j].value))
  {
    var kept := StripMember(members[0]);
    if i < |kept| {
      j := 0;
    } else {
      j := StrippedMember(members[1..], i - |kept|);
      j := j + 1;
    }
  }

  /** Of two stripped members the earlier one comes from the earlier member. */
  lemma {:induction false} StrippedMembers(members: seq<Member>, i: nat, k: nat) returns (j: nat, l: nat)
    requires i < k < |StripMembers(members)|
    ensures j < l < |members|
    ensures StripMembers(members)[i].key == members[j].key && StripMembers(members)[k].key == members[l].key
  {
    var kept := StripMember(members[0]);
    if i < |kept| {
      j := 0;
      l := StrippedMember(members[1..], k - |kept|);
      l := l + 1;
    } else {
      j, l := StrippedMembers(members[1..], i - |kept|, k - |kept|);
      j, l := j + 1, l + 1;
    }
  }

  lemma {:induction false} StripMembersWellFormed(members: seq<Member>)
    requires WellFormed(Obj(members))
    ensures WellFormed(Obj(StripMembers(members)))
    decreases members, 0
  {
    var kept := StripMembers(members);
    forall i | 0 <= i < |kept|
      ensures WellFormed(kept[i].value)
    {
      var j := StrippedMember(members, i);
      StripIsWellFormed(members[j].value);
    }
    forall i, k | 0 <= i < k < |kept|
      ensures kept[i].key != kept[k].key
    {
      var j, l := StrippedMembers(members, i, k);
    }
  }

  /** The digest tells two well-formed values with different stripped forms apart, unless their texts collide. */
  lemma DigestsDiffer(sha: Sha, v: Json, w: Json)
    requires WellFormed(v) && WellFormed(w) && Strip(v) != Strip(w)
    requires var a, b := Encode(Print(Strip(v))), Encode(Print(Strip(w))); sha(a) == sha(b) ==> a == b
    ensures Digest(sha, v) != Digest(sha, w)
  {
    StripIsWellFormed(v);
    StripIsWellFormed(w);
    DecodeEncode(Print(Strip(v)));
    DecodeEncode(Print(Strip(w)));
    ParsePrint(Strip(v));
    ParsePrint(Strip(w));
  }

  lemma VerifyAtEnd(sha: Sha, members: seq<Member>, expected: string)
    requires NoFingerprint(members)
    ensures Verify(sha, Obj(members + [Member(FINGERPRINT, Str(expected))])) ==
      if Digest(sha, Obj(members)) == expected then None else Some(FingerprintMismatch)
  {
    var all := members + [Member(FINGERPRINT, Str(expected))];
    assert all[|members|].key == FINGERPRINT;
    assert forall i :: 0 <= i < |members| ==> all[i] == members[i];
    assert Position(all, FINGERPRINT) == Some(|members|);
    assert all[..|members|] == members;
  }

  /** A string, number or boolean of a native manifest changed anywhere but below one of the two fields, and not the
      fingerprint itself: the manifest no longer verifies, unless the two texts collide under the digest. */
  lemma EditIsDetected(
    sha: Sha, root: string, records: seq<Json>, generatedAt: string, key: string, way: seq<Place>, x: Json)
    requires var u := Obj(Unsigned(root, records, generatedAt)); var w := Put(u, [Field(key)] + way, x);
      && Stable([Field(key)] + way) && key != "manifest_fingerprint" && WellFormed(u) && WellFormed(w)
      && Get(u, [Field(key)] + way).Some? && IsScalar(Get(u, [Field(key)] + way).value)
      && IsScalar(x) && Get(u, [Field(key)] + way) != Some(x)
      && var a, b := Encode(Print(Strip(u))), Encode(Print(Strip(w))); (sha(a) == sha(b) ==> a == b)
    ensures var m := NativeManifest(sha, root, records, generatedAt);
      Verify(sha, Put(m, [Field(key)] + way, x)) == Some(FingerprintMismatch)
  {
    var members := Unsigned(root, records, generatedAt);
    var full := [Field(key)] + way;
    assert full[0] == Field(key) && full[1..] == way;
    var fingerprint := Member(FINGERPRINT, Str(Digest(sha, Obj(members))));
    PutFieldBefore(members, fingerprint, key, way, x);
    PutIsThere(Obj(members), full, x);
    ScalarsAreCovered(Obj(members), Put(Obj(members), full, x), full);
    DigestsDiffer(sha, Obj(members), Put(Obj(members), full, x));
    UnsignedHasNone(root, records, generatedAt);
    VerifyAtEnd(sha, PutField(members, key, way, x), Digest(sha, Obj(members)));
  }

  /** What a native manifest says. */
  lemma ManifestSays(sha: Sha, root: string, records: seq<Json>, generatedAt: string)
    ensures var m := NativeManifest(sha, root, records, generatedAt);
      && Get(m, [Field("workspace_root")]) == Some(Str(root))
      && Get(m, [Field("generated_at")]) == Some(Str(generatedAt))
      && Get(m, [Field("artifacts")]) == Some(Arr(records))
      && Get(m, [Field("distribution_kind")]) == Some(Str("native"))
  {
    var u := Unsigned(root, records, generatedAt);
    var m := NativeManifest(sha, root, records, generatedAt).members;
    assert u[0].key[0] == 's' && u[1].key[0] == 'g' && u[2].key[0] == 'w' && u[3].key[0] == 'p' && u[4].key[0] == 'a';
    assert forall key :: [Field(key)][1..] == [];
    FieldAt(m, 1, "generated_at");
    FieldAt(m, 2, "workspace_root");
    FieldAt(m, 4, "artifacts");
    FieldAt(m, 5, "distribution_kind");
  }

  lemma {:induction false} FieldAt(members: seq<Member>, i: nat, key: string)
    requires i < |members| && members[i].key == key && forall j :: 0 <= j < i ==> members[j].key != key
    ensures GetField(members, key, []) == Some(members[i].value)
  {
    if i > 0 {
      FieldAt(members[1..], i - 1, key);
    }
  }

  // ---- artifacts published once ----

  /** `publish_immutable`: existing bytes are never replaced. */
  function Publish(files: map<string, seq<byte>>, path: string, bytes: seq<byte>): map<string, seq<byte>> {
    if path in files then files else files[path := bytes]
  }

  class ArtifactStore {
    var files: map<string, seq<byte>>

    constructor ()
      ensures files == map[]
    {
      files := map[];
    }

    /** An error reports other bytes at the path. */
    method PublishImmutable(path: string, bytes: seq<byte>) returns (collision: bool)
      modifies this
      ensures files == Publish(old(files), path, bytes)
      ensures collision <==> files[path] != bytes
    {
      if path in files {
        return files[path] != bytes;
      }
      files := files[path := bytes];
      return false;
    }
  }

  function PublishAll(files: map<string, seq<byte>>, writes: seq<(string, seq<byte>)>): map<string, seq<byte>>
    decreases |writes|
  {
    if writes == [] then files else PublishAll(Publish(files, writes[0].0, writes[0].1), writes[1..])
  }

  /** What was published first at a path is what is there after any further writes. */
  lemma {:induction false} FirstPublicationStays(files: map<string, seq<byte>>, writes: seq<(string, seq<byte>)>,
                                                 path: string)
    requires path in files
    ensures path in PublishAll(files, writes) && PublishAll(files, writes)[path] == files[path]
    decreases |writes|
  {
    if writes != [] {
      FirstPublicationStays(Publish(files, writes[0].0, writes[0].1), writes[1..], path);
    }
  }
}
