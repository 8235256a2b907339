/** `canonicalJson`: the printed form with object keys sorted, and what it identifies. */
module CanonicalJson {
  import opened Json

  // ---- the default order of strings: by UTF-16 code units ----

  function UnitsOf(c: char): (u: seq<nat>)
    ensures |u| == 1 || |u| == 2
  {
    var v := c as int;
    if v < 0x10000 then [v] else [0xD800 + (v - 0x10000) / 1024, 0xDC00 + (v - 0x10000) % 1024]
  }

  function Units(s: string): seq<nat> {
    if s == "" then [] else UnitsOf(s[0]) + Units(s[1..])
  }

  predicate LexLess(a: seq<nat>, b: seq<nat>) {
    b != [] && (a == [] || a[0] < b[0] || (a[0] == b[0] && LexLess(a[1..], b[1..])))
  }

  predicate KeyLess(a: string, b: string) {
    LexLess(Units(a), Units(b))
  }

  lemma {:induction false} LexTotal(a: seq<nat>, b: seq<nat>)
    ensures a == b || LexLess(a, b) || LexLess(b, a)
    ensures !(LexLess(a, b) && LexLess(b, a)) && !LexLess(a, a)
  {
    if a != [] {
      LexTotal(a[1..], a[1..]);
      if b != [] {
        LexTotal(a[1..], b[1..]);
        assert a == [a[0]] + a[1..] && b == [b[0]] + b[1..];
      }
    }
  }

  lemma {:induction false} LexTransitive(a: seq<nat>, b: seq<nat>, c: seq<nat>)
    requires LexLess(a, b) && LexLess(b, c)
    ensures LexLess(a, c)
  {
    if a != [] && a[0] == b[0] == c[0] {
      LexTransitive(a[1..], b[1..], c[1..]);
    }
  }

  lemma {:induction false} UnitsInjective(a: string, b: string)
    requires Units(a) == Units(b)
    ensures a == b
  {
    if a == "" || b == "" {
    } else {
      var ua, ub := UnitsOf(a[0]), UnitsOf(b[0]);
      assert Units(a)[0] == ua[0] == ub[0];
      assert |ua| == |ub|;
      assert |ua| == 2 ==> ua[1] == Units(a)[1] == ub[1];
      assert a[0] == b[0];
      assert Units(a)[|ua|..] == Units(a[1..]) && Units(b)[|ub|..] == Units(b[1..]);
      UnitsInjective(a[1..], b[1..]);
      assert a == [a[0]] + a[1..] && b == [b[0]] + b[1..];
    }
  }

  lemma KeyTotal(a: string, b: string)
    ensures a == b || KeyLess(a, b) || KeyLess(b, a)
    ensures !(KeyLess(a, b) && KeyLess(b, a)) && !KeyLess(a, a)
  {
    LexTotal(Units(a), Units(b));
    if Units(a) == Units(b) {
      UnitsInjective(a, b);
    }
  }

  // ---- the printer ----

  function InsertByKey(m: Member, sorted: seq<Member>): seq<Member> {
    if sorted != [] && KeyLess(sorted[0].key, m.key) then [sorted[0]] + InsertByKey(m, sorted[1..])
    else [m] + sorted
  }

  function SortByKey(members: seq<Member>): seq<Member> {
    if members == [] then [] else InsertByKey(members[0], SortByKey(members[1..]))
  }

  /** The values of an object or array printed in place: only their order of keys changes. */
  function Canonical(v: Json): Json
    decreases v, 0
  {
    match v
    case Arr(items) => Arr(CanonicalItems(items))
    case Obj(members) => Obj(SortByKey(CanonicalMembers(members)))
    case _ => v
  }

  function CanonicalItems(items: seq<Json>): (r: seq<Json>)
    ensures |r| == |items|
    ensures forall i :: 0 <= i < |items| ==> r[i] == Canonical(items[i])
    decreases items, 0
  {
    if items == [] then [] else [Canonical(items[0])] + CanonicalItems(items[1..])
  }

  function CanonicalMembers(members: seq<Member>): (r: seq<Member>)
    ensures |r| == |members|
    ensures forall i :: 0 <= i < |members| ==> r[i] == Member(members[i].key, Canonical(members[i].value))
    decreases members, 0
  {
    if members == [] then []
    else [Member(members[0].key, Canonical(members[0].value))] + CanonicalMembers(members[1..])
  }

  function CanonicalText(v: Json): string {
    Print(Canonical(v))
  }

  // ---- equality up to the order of keys ----

  /** A value without key order: objects are finite maps. */
  datatype Value =
    | VNull
    | VBool(flag: bool)
    | VNum(text: string)
    | VStr(text: string)
    | VArr(items: seq<Value>)
    | VObj(fields: map<string, Value>)

  function Meaning(v: Json): Value
    decreases v, 0
  {
    match v
    case Null => VNull
    case Bool(flag) => VBool(flag)
    case Num(text) => VNum(text)
    case Str(text) => VStr(text)
    case Arr(items) => VArr(ItemMeanings(items))
    case Obj(members) => VObj(FieldMeanings(members))
  }

  function ItemMeanings(items: seq<Json>): (r: seq<Value>)
    ensures |r| == |items|
    ensures forall i :: 0 <= i < |items| ==> r[i] == Meaning(items[i])
    decreases items, 0
  {
    if items == [] then [] else [Meaning(items[0])] + ItemMeanings(items[1..])
  }

  function FieldMeanings(members: seq<Member>): map<string, Value>
    decreases members, 0
  {
    if members == [] then map[]
    else FieldMeanings(members[1..])[members[0].key := Meaning(members[0].value)]
  }

  lemma {:induction false} FieldLookup(members: seq<Member>)
    requires DistinctKeys(members)
    ensures forall i :: 0 <= i < |members| ==>
      && members[i].key in FieldMeanings(members)
      && FieldMeanings(members)[members[i].key] == Meaning(members[i].value)
    ensures forall k :: k in FieldMeanings(members) ==> exists i :: 0 <= i < |members| && members[i].key == k
  {
    if members != [] {
      var rest := members[1..];
      FieldLookup(rest);
      forall k | k in FieldMeanings(members)
        ensures exists i :: 0 <= i < |members| && members[i].key == k
      {
        if k == members[0].key {
          assert members[0].key == k;
        } else {
          var i :| 0 <= i < |rest| && rest[i].key == k;
          assert members[i + 1].key == k;
        }
      }
      forall i | 0 <= i < |members|
        ensures members[i].key in FieldMeanings(members)
        ensures FieldMeanings(members)[members[i].key] == Meaning(members[i].value)
      {
        if i > 0 {
          assert rest[i - 1] == members[i];
        }
      }
    }
  }

  // ---- sorting keeps the members ----

  predicate SortedByKey(members: seq<Member>) {
    forall i, j :: 0 <= i < j < |members| ==> KeyLess(members[i].key, members[j].key)
  }

  lemma {:induction false} InsertFacts(m: Member, sorted: seq<Member>)
    requires SortedByKey(sorted) && forall i :: 0 <= i < |sorted| ==> sorted[i].key != m.key
    ensures SortedByKey(InsertByKey(m, sorted))
    ensures forall x :: x in InsertByKey(m, sorted) <==> x == m || x in sorted
  {
    if sorted != [] {
      var rest := sorted[1..];
      KeyTotal(sorted[0].key, m.key);
      if KeyLess(sorted[0].key, m.key) {
        InsertFacts(m, rest);
        var tail := InsertByKey(m, rest);
        forall j | 0 <= j < |tail|
          ensures KeyLess(sorted[0].key, tail[j].key)
        {
          assert tail[j] in tail;
          if tail[j] != m {
            var i :| 0 <= i < |rest| && rest[i] == tail[j];
            assert sorted[i + 1] == tail[j];
          }
        }
        assert forall x :: x in sorted <==> x == sorted[0] || x in rest;
      } else {
        forall j | 0 <= j < |sorted|
          ensures KeyLess(m.key, sorted[j].key)
        {
          if j > 0 {
            LexTransitive(Units(m.key), Units(sorted[0].key), Units(sorted[j].key));
          }
        }
      }
    }
  }

  lemma {:induction false} SortFacts(members: seq<Member>)
    requires DistinctKeys(members)
    ensures SortedByKey(SortByKey(members))
    ensures forall x :: x in SortByKey(members) <==> x in members
  {
    if members != [] {
      var rest := members[1..];
      SortFacts(rest);
      var sorted := SortByKey(rest);
      forall i | 0 <= i < |sorted|
        ensures sorted[i].key != members[0].key
      {
        assert sorted[i] in rest;
        var j :| 0 <= j < |rest| && rest[j] == sorted[i];
        assert members[j + 1] == sorted[i];
      }
      InsertFacts(members[0], sorted);
      assert forall x :: x in members <==> x == members[0] || x in rest;
    }
  }

  lemma SameFirst(a: seq<Member>, b: seq<Member>)
    requires SortedByKey(a) && SortedByKey(b) && a != []
    requires forall x :: x in a <==> x in b
    ensures b != [] && a[0] == b[0]
  {
    assert a[0] in b;
    var j :| 0 <= j < |b| && b[j] == a[0];
    assert b[0] in a;
    var i :| 0 <= i < |a| && a[i] == b[0];
    KeyTotal(a[0].key, b[0].key);
    assert i == 0 && j == 0;
  }

  /** A strictly sorted list is determined by its elements. */
  lemma {:induction false} SortedUnique(a: seq<Member>, b: seq<Member>)
    requires SortedByKey(a) && SortedByKey(b)
    requires forall x :: x in a <==> x in b
    ensures a == b
  {
    assert b != [] ==> b[0] in b;
    if a != [] {
      SameFirst(a, b);
      var ra, rb := a[1..], b[1..];
      forall x
        ensures x in ra <==> x in rb
      {
        SameTail(a, b, x);
        SameTail(b, a, x);
      }
      SortedUnique(ra, rb);
      assert a == [a[0]] + ra && b == [b[0]] + rb;
    }
  }

  lemma SameTail(a: seq<Member>, b: seq<Member>, x: Member)
    requires a != [] && b != [] && a[0] == b[0] && SortedByKey(a)
    requires forall x :: x in a <==> x in b
    ensures x in a[1..] ==> x in b[1..]
  {
    if x in a[1..] {
      var i :| 0 <= i < |a[1..]| && a[1..][i] == x;
      assert a[i + 1] == x && KeyLess(a[0].key, a[i + 1].key);
      KeyTotal(x.key, x.key);
      assert x in b;
      var j :| 0 <= j < |b| && b[j] == x;
      assert b[1..][j - 1] == x;
    }
  }

  lemma SortKeepsWellFormed(members: seq<Member>)
    requires DistinctKeys(members) && forall i :: 0 <= i < |members| ==> WellFormed(members[i].value)
    ensures WellFormed(Obj(SortByKey(members)))
  {
    SortFacts(members);
    var sorted := SortByKey(members);
    forall i | 0 <= i < |sorted|
      ensures WellFormed(sorted[i].value)
    {
      assert sorted[i] in members;
    }
    forall i, j | 0 <= i < j < |sorted|
      ensures sorted[i].key != sorted[j].key
    {
      KeyTotal(sorted[i].key, sorted[j].key);
    }
  }

  /** The member behind a field. */
  lemma FieldSource(members: seq<Member>, k: string) returns (i: nat)
    requires DistinctKeys(members) && k in FieldMeanings(members)
    ensures i < |members| && members[i].key == k && FieldMeanings(members)[k] == Meaning(members[i].value)
  {
    FieldLookup(members);
    i :| 0 <= i < |members| && members[i].key == k;
  }

  lemma FieldValue(members: seq<Member>, i: nat)
    requires DistinctKeys(members) && i < |members|
    ensures members[i].key in FieldMeanings(members)
    ensures FieldMeanings(members)[members[i].key] == Meaning(members[i].value)
  {
    FieldLookup(members);
  }

  /** Every field of `a` is a field of `b` when each member of `a` has one in `b` with its key and meaning. */
  lemma FieldsInclude(a: seq<Member>, b: seq<Member>, at: seq<nat>)
    requires DistinctKeys(a) && DistinctKeys(b) && |at| == |a|
    requires forall i :: 0 <= i < |a| ==>
      at[i] < |b| && b[at[i]].key == a[i].key && Meaning(b[at[i]].value) == Meaning(a[i].value)
    ensures forall k :: k in FieldMeanings(a) ==> k in FieldMeanings(b) && FieldMeanings(b)[k] == FieldMeanings(a)[k]
  {
    forall k | k in FieldMeanings(a)
      ensures k in FieldMeanings(b) && FieldMeanings(b)[k] == FieldMeanings(a)[k]
    {
      var i := FieldSource(a, k);
      FieldValue(b, at[i]);
    }
  }

  /** Where each member of `a` stands in `b`. */
  lemma {:induction false} Places(a: seq<Member>, b: seq<Member>) returns (at: seq<nat>)
    requires forall x :: x in a ==> x in b
    ensures |at| == |a| && forall i :: 0 <= i < |a| ==> at[i] < |b| && b[at[i]] == a[i]
  {
    if a == [] {
      at := [];
    } else {
      assert a[0] in b;
      var j: nat :| j < |b| && b[j] == a[0];
      var rest := Places(a[1..], b);
      at := [j] + rest;
    }
  }

  lemma SortKeepsFields(members: seq<Member>)
    requires DistinctKeys(members) && DistinctKeys(SortByKey(members))
    ensures FieldMeanings(SortByKey(members)) == FieldMeanings(members)
  {
    SortFacts(members);
    var sorted := SortByKey(members);
    var there := Places(members, sorted);
    var back := Places(sorted, members);
    FieldsInclude(members, sorted, there);
    FieldsInclude(sorted, members, back);
    SameMap(FieldMeanings(sorted), FieldMeanings(members));
  }

  lemma SameMap(a: map<string, Value>, b: map<string, Value>)
    requires forall k :: k in a ==> k in b && b[k] == a[k]
    requires forall k :: k in b ==> k in a && a[k] == b[k]
    ensures a == b
  {
  }

  lemma ObjectKeepsMeaning(members: seq<Member>)
    requires DistinctKeys(members)
    requires forall i :: 0 <= i < |members| ==>
      WellFormed(Canonical(members[i].value)) && Meaning(Canonical(members[i].value)) == Meaning(members[i].value)
    ensures WellFormed(Canonical(Obj(members))) && Meaning(Canonical(Obj(members))) == Meaning(Obj(members))
  {
    var cs := CanonicalMembers(members);
    SortKeepsWellFormed(cs);
    SortKeepsFields(cs);
    var at := seq(|members|, (i: nat) => i);
    FieldsInclude(members, cs, at);
    FieldsInclude(cs, members, at);
    SameMap(FieldMeanings(cs), FieldMeanings(members));
  }

  /** Sorting keys changes neither well-formedness nor meaning. */
  lemma {:induction false} CanonicalKeepsMeaning(v: Json)
    requires WellFormed(v)
    ensures WellFormed(Canonical(v)) && Meaning(Canonical(v)) == Meaning(v)
  {
    match v {
      case Arr(items) =>
        forall i | 0 <= i < |items|
          ensures WellFormed(Canonical(items[i])) && Meaning(Canonical(items[i])) == Meaning(items[i])
        {
          CanonicalKeepsMeaning(items[i]);
        }
        assert ItemMeanings(CanonicalItems(items)) == ItemMeanings(items);
      case Obj(members) =>
        forall i | 0 <= i < |members| {
          CanonicalKeepsMeaning(members[i].value);
        }
        ObjectKeepsMeaning(members);
      case _ =>
    }
  }

  /** Two member lists with the same fields hold the same canonical members. */
  lemma SameFieldsSameMembers(a: seq<Member>, b: seq<Member>, x: Member)
    requires DistinctKeys(a) && DistinctKeys(b) && FieldMeanings(a) == FieldMeanings(b)
    requires forall i, j :: 0 <= i < |a| && 0 <= j < |b| && a[i].key == b[j].key ==>
      Canonical(a[i].value) == Canonical(b[j].value)
    ensures x in CanonicalMembers(a) ==> x in CanonicalMembers(b)
  {
    if x in CanonicalMembers(a) {
      FieldLookup(a);
      FieldLookup(b);
      var i :| 0 <= i < |a| && CanonicalMembers(a)[i] == x;
      var j :| 0 <= j < |b| && b[j].key == a[i].key;
      assert CanonicalMembers(b)[j] == x;
    }
  }

  lemma SameFieldsSameObject(a: seq<Member>, b: seq<Member>)
    requires DistinctKeys(a) && DistinctKeys(b) && FieldMeanings(a) == FieldMeanings(b)
    requires forall i, j :: 0 <= i < |a| && 0 <= j < |b| && a[i].key == b[j].key ==>
      Canonical(a[i].value) == Canonical(b[j].value)
    ensures Canonical(Obj(a)) == Canonical(Obj(b))
  {
    var ca, cb := CanonicalMembers(a), CanonicalMembers(b);
    forall x
      ensures x in ca <==> x in cb
    {
      SameFieldsSameMembers(a, b, x);
      SameFieldsSameMembers(b, a, x);
    }
    SortFacts(ca);
    SortFacts(cb);
    SortedUnique(SortByKey(ca), SortByKey(cb));
  }

  /** Values with the same meaning have the same canonical form. */
  lemma {:induction false} MeaningDeterminesCanonical(a: Json, b: Json)
    requires WellFormed(a) && WellFormed(b) && Meaning(a) == Meaning(b)
    ensures Canonical(a) == Canonical(b)
  {
    if a.Arr? {
      forall i | 0 <= i < |a.items|
        ensures Canonical(a.items[i]) == Canonical(b.items[i])
      {
        assert ItemMeanings(a.items)[i] == ItemMeanings(b.items)[i];
        MeaningDeterminesCanonical(a.items[i], b.items[i]);
      }
      assert CanonicalItems(a.items) == CanonicalItems(b.items);
    } else if a.Obj? {
      FieldLookup(a.members);
      FieldLookup(b.members);
      forall i, j | 0 <= i < |a.members| && 0 <= j < |b.members| && a.members[i].key == b.members[j].key
        ensures Canonical(a.members[i].value) == Canonical(b.members[j].value)
      {
        MeaningDeterminesCanonical(a.members[i].value, b.members[j].value);
      }
      SameFieldsSameObject(a.members, b.members);
    }
  }

  /** The canonical text is a complete invariant of a JSON value up to the order of its keys. */
  lemma CanonicalTextIsComplete(a: Json, b: Json)
    requires WellFormed(a) && WellFormed(b)
    ensures CanonicalText(a) == CanonicalText(b) <==> Meaning(a) == Meaning(b)
  {
    CanonicalKeepsMeaning(a);
    CanonicalKeepsMeaning(b);
    ParsePrint(Canonical(a));
    ParsePrint(Canonical(b));
    if Meaning(a) == Meaning(b) {
      MeaningDeterminesCanonical(a, b);
    }
  }

  lemma {:induction false} FirstDifference(a: seq<nat>, b: seq<nat>) returns (n: nat)
    requires LexLess(a, b)
    ensures n <= |a| && n < |b| && a[..n] == b[..n] && (n == |a| || a[n] < b[n])
  {
    if a == [] || a[0] < b[0] {
      n := 0;
    } else {
      n := FirstDifference(a[1..], b[1..]);
      n := n + 1;
      assert a[..n] == [a[0]] + a[1..][..n - 1] && b[..n] == [b[0]] + b[1..][..n - 1];
    }
  }


  // ---- the order of the printed keys ----

  /** At the first difference the smaller unit, or the end of the text. */
  ghost predicate UnitsPrecede(a: seq<nat>, b: seq<nat>) {
    exists n: nat :: n <= |a| && UnitsDifferAt(a, b, n)
  }

  predicate UnitsDifferAt(a: seq<nat>, b: seq<nat>, n: nat)
    requires n <= |a|
  {
    n < |b| && a[..n] == b[..n] && (n == |a| || a[n] < b[n])
  }

  /** An object prints each of its keys once, in ascending order of their UTF-16 code units. */
  lemma KeysPrintInOrder(members: seq<Member>, i: nat, j: nat)
    requires DistinctKeys(members) && i < j < |Canonical(Obj(members)).members|
    ensures var printed := Canonical(Obj(members)).members;
      UnitsPrecede(Units(printed[i].key), Units(printed[j].key))
  {
    var printed := Canonical(Obj(members)).members;
    SortFacts(CanonicalMembers(members));
    assert KeyLess(printed[i].key, printed[j].key);
    var n := FirstDifference(Units(printed[i].key), Units(printed[j].key));
    assert UnitsDifferAt(Units(printed[i].key), Units(printed[j].key), n);
  }

  /** The units of a text: a character of the basic plane is its own unit, any other is a high and a low surrogate;
      so a character beyond the basic plane comes before the ones from U+E000 on. */
  lemma UnitsAre(c: char, d: char)
    ensures c as int < 0x10000 ==> Units([c]) == [c as int]
    ensures c as int >= 0x10000 ==> |Units([c])| == 2 && 0xD800 <= Units([c])[0] < 0xDC00 <= Units([c])[1] < 0xE000
    ensures c as int >= 0x10000 ==>
      0x10000 + (Units([c])[0] - 0xD800) * 1024 + (Units([c])[1] - 0xDC00) == c as int
    ensures c as int >= 0x10000 && 0xE000 <= d as int < 0x10000 ==> KeyLess([c], [d]) && !KeyLess([d], [c])
  {
    assert [c][1..] == "" && [d][1..] == "";
  }
}
