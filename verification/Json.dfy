/** JSON values, the compact text `JSON.stringify` prints for them, and a reader of that text. */
module Json {
  import opened JsonText
  import opened Wrappers

  /** Numbers are kept as the text they print as; object members in insertion order. */
  datatype Json =
    | Null
    | Bool(flag: bool)
    | Num(text: string)
    | Str(text: string)
    | Arr(items: seq<Json>)
    | Obj(members: seq<Member>)

  datatype Member = Member(key: string, value: Json)

  predicate IsNumberChar(c: char) {
    '0' <= c <= '9' || c == '-' || c == '+' || c == '.' || c == 'e'
  }

  predicate IsNumberText(s: string) {
    s != "" && (s[0] == '-' || '0' <= s[0] <= '9') && forall i :: 0 <= i < |s| ==> IsNumberChar(s[i])
  }

  predicate DistinctKeys(members: seq<Member>) {
    forall i, j :: 0 <= i < j < |members| ==> members[i].key != members[j].key
  }

  /** A value a JavaScript program can hold: finite numbers, one member per key. */
  predicate WellFormed(v: Json) {
    match v
    case Null => true
    case Bool(_) => true
    case Num(text) => IsNumberText(text)
    case Str(_) => true
    case Arr(items) => forall i :: 0 <= i < |items| ==> WellFormed(items[i])
    case Obj(members) => DistinctKeys(members) && forall i :: 0 <= i < |members| ==> WellFormed(members[i].value)
  }

  function Print(v: Json): string
    decreases v, 0
  {
    match v
    case Null => "null"
    case Bool(flag) => if flag then "true" else "false"
    case Num(text) => text
    case Str(text) => Quote(text)
    case Arr(items) => "[" + PrintItems(items) + "]"
    case Obj(members) => "{" + PrintMembers(members) + "}"
  }

  function PrintItems(items: seq<Json>): string
    decreases items, 0
  {
    if items == [] then ""
    else Print(items[0]) + (if |items| == 1 then "" else "," + PrintItems(items[1..]))
  }

  function PrintMembers(members: seq<Member>): string
    decreases members, 0
  {
    if members == [] then ""
    else
      var first := Quote(members[0].key) + ":" + Print(members[0].value);
      if |members| == 1 then first else first + "," + PrintMembers(members[1..])
  }

  // ---- reading the printed text ----

  function HexValue(c: char): Option<nat> {
    if '0' <= c <= '9' then Some(c as int - '0' as int)
    else if 'a' <= c <= 'f' then Some(c as int - 'a' as int + 10)
    else if 'A' <= c <= 'F' then Some(c as int - 'A' as int + 10)
    else None
  }

  /** The character after a backslash, and how much text it takes. */
  function ReadEscape(t: string): (r: Option<(char, nat)>)
    ensures r.Some? ==> 1 <= r.value.1 <= |t|
  {
    if t == "" then None
    else if t[0] == '\"' || t[0] == '\\' || t[0] == '/' then Some((t[0], 1))
    else if t[0] == 'b' then Some((8 as char, 1))
    else if t[0] == 't' then Some((9 as char, 1))
    else if t[0] == 'n' then Some((10 as char, 1))
    else if t[0] == 'f' then Some((12 as char, 1))
    else if t[0] == 'r' then Some((13 as char, 1))
    else if t[0] == 'u' && |t| >= 5 then
      match (HexValue(t[1]), HexValue(t[2]), HexValue(t[3]), HexValue(t[4]))
      case (Some(a), Some(b), Some(c), Some(d)) =>
        var v := ((a * 16 + b) * 16 + c) * 16 + d;
        if v < 0xD800 || 0xE000 <= v < 0x10000 then Some((v as char, 5)) else None
      case _ => None
    else None
  }

  /** The characters up to the closing quote, and the text after it. */
  function ReadString(t: string): (r: Option<(string, string)>)
    ensures r.Some? ==> |r.value.1| < |t|
  {
    if t == "" || t[0] < ' ' then None
    else if t[0] == '\"' then Some(("", t[1..]))
    else
      var first := if t[0] == '\\' then ReadEscape(t[1..]) else Some((t[0], 0));
      match first
      case None => None
      case Some((c, n)) =>
        match ReadString(t[n + 1..])
        case None => None
        case Some((s, rest)) => Some(([c] + s, rest))
  }

  function NumberLength(t: string): (n: nat)
    ensures n <= |t|
  {
    if t != "" && IsNumberChar(t[0]) then 1 + NumberLength(t[1..]) else 0
  }

  function Read(t: string): (r: Option<(Json, string)>)
    ensures r.Some? ==> |r.value.1| < |t|
    decreases |t|, 0
  {
    if t == "" then None
    else if "null" <= t then Some((Null, t[4..]))
    else if "true" <= t then Some((Bool(true), t[4..]))
    else if "false" <= t then Some((Bool(false), t[5..]))
    else if t[0] == '\"' then
      match ReadString(t[1..])
      case None => None
      case Some((s, rest)) => Some((Str(s), rest))
    else if t[0] == '[' then
      if "[]" <= t then Some((Arr([]), t[2..]))
      else match ReadItems(t[1..])
        case None => None
        case Some((items, rest)) => Some((Arr(items), rest))
    else if t[0] == '{' then
      if "{}" <= t then Some((Obj([]), t[2..]))
      else match ReadMembers(t[1..])
        case None => None
        case Some((members, rest)) => Some((Obj(members), rest))
    else
      var n := NumberLength(t);
      if IsNumberText(t[..n]) then Some((Num(t[..n]), t[n..])) else None
  }

  function ReadItems(t: string): (r: Option<(seq<Json>, string)>)
    ensures r.Some? ==> |r.value.1| < |t|
    decreases |t|, 1
  {
    match Read(t)
    case None => None
    case Some((v, rest)) =>
      if rest == "" then None
      else if rest[0] == ']' then Some(([v], rest[1..]))
      else if rest[0] != ',' then None
      else match ReadItems(rest[1..])
        case None => None
        case Some((items, after)) => Some(([v] + items, after))
  }

  function ReadMembers(t: string): (r: Option<(seq<Member>, string)>)
    ensures r.Some? ==> |r.value.1| < |t|
    decreases |t|, 1
  {
    if t == "" || t[0] != '\"' then None
    else match ReadString(t[1..])
      case None => None
      case Some((key, afterKey)) =>
        if afterKey == "" || afterKey[0] != ':' then None
        else match Read(afterKey[1..])
          case None => None
          case Some((v, rest)) =>
            if rest == "" then None
            else if rest[0] == '}' then Some(([Member(key, v)], rest[1..]))
            else if rest[0] != ',' then None
            else match ReadMembers(rest[1..])
              case None => None
              case Some((members, after)) => Some(([Member(key, v)] + members, after))
  }

  /** The whole text is one value. */
  function Parse(t: string): Option<Json> {
    match Read(t)
    case None => None
    case Some((v, rest)) => if rest == "" then Some(v) else None
  }

  // ---- the round trip ----

  /** Text that can follow a value. */
  predicate Terminates(rest: string) {
    rest == "" || rest[0] == ',' || rest[0] == ']' || rest[0] == '}'
  }

  lemma EscapeReadsBack(c: char, rest: string)
    ensures EscapeChar(c)[0] >= ' ' && EscapeChar(c)[0] != '\"'
    ensures if EscapeChar(c)[0] == '\\'
      then ReadEscape(EscapeChar(c)[1..] + rest) == Some((c, |EscapeChar(c)| - 1))
      else EscapeChar(c) == [c]
  {
    var e := EscapeChar(c);
    var t := e[1..] + rest;
    if |e| == 2 {
      assert t[0] == e[1];
    } else if |e| == 6 {
      assert t[0] == 'u' && t[1] == '0' && t[2] == '0';
      var h, l := c as int / 16, c as int % 16;
      assert t[3] == HexDigit(h) && t[4] == HexDigit(l);
      assert HexValue(HexDigit(h)) == Some(h) && HexValue(HexDigit(l)) == Some(l) && HexValue('0') == Some(0);
    }
  }

  /** One character read in front of a string that reads. */
  lemma CharacterReads(c: char, s: string, tail: string, rest: string)
    requires ReadString(tail) == Some((s, rest))
    ensures ReadString(EscapeChar(c) + tail) == Some(([c] + s, rest))
  {
    var e := EscapeChar(c);
    var t := e + tail;
    EscapeReadsBack(c, tail);
    assert t[0] == e[0] && t[1..] == e[1..] + tail && t[|e|..] == tail;
  }

  lemma Associate(a: string, b: string, c: string)
    ensures (a + b) + c == a + (b + c)
  {
  }

  lemma EscapeFrom(s: string, tail: string)
    requires s != ""
    ensures Escape(s) + tail == EscapeChar(s[0]) + (Escape(s[1..]) + tail)
  {
    Associate(EscapeChar(s[0]), Escape(s[1..]), tail);
  }

  lemma {:induction false} EscapedReads(s: string, end: string, rest: string)
    requires ReadString(end) == Some(("", rest))
    ensures ReadString(Escape(s) + end) == Some((s, rest))
  {
    if s == "" {
      assert Escape(s) + end == end;
    } else {
      EscapedReads(s[1..], end, rest);
      CharacterReads(s[0], s[1..], Escape(s[1..]) + end, rest);
      EscapeFrom(s, end);
      assert [s[0]] + s[1..] == s;
    }
  }

  lemma StringReadsBack(s: string, rest: string)
    ensures ReadString(Escape(s) + "\"" + rest) == Some((s, rest))
  {
    var end := "\"" + rest;
    assert end[0] == '\"' && end[1..] == rest;
    EscapedReads(s, end, rest);
    Associate(Escape(s), "\"", rest);
  }

  lemma {:induction false} NumberReadsBack(s: string, rest: string)
    requires forall i :: 0 <= i < |s| ==> IsNumberChar(s[i])
    requires Terminates(rest)
    ensures NumberLength(s + rest) == |s|
  {
    if s != "" {
      assert (s + rest)[1..] == s[1..] + rest;
      NumberReadsBack(s[1..], rest);
    } else {
      assert s + rest == rest;
    }
  }

  lemma PrintStarts(v: Json)
    requires WellFormed(v)
    ensures Print(v) != "" && Print(v)[0] != ']' && Print(v)[0] != '}'
  {
  }

  lemma WordReadsBack(v: Json, rest: string)
    requires v.Null? || v.Bool?
    ensures Read(Print(v) + rest) == Some((v, rest))
  {
    var t := Print(v) + rest;
    match v {
      case Null => assert t == "null" + rest && t[4..] == rest;
      case Bool(flag) =>
        if flag {
          assert t == "true" + rest && t[0] == 't' && t[4..] == rest;
        } else {
          assert t == "false" + rest && t[0] == 'f' && t[5..] == rest;
        }
    }
  }

  lemma NumReadsBack(text: string, rest: string)
    requires IsNumberText(text) && Terminates(rest)
    ensures Read(text + rest) == Some((Num(text), rest))
  {
    var t := text + rest;
    NumberReadsBack(text, rest);
    assert t[0] == text[0] && t[..|text|] == text && t[|text|..] == rest;
  }

  lemma QuotedReads(inner: string, s: string, rest: string)
    requires ReadString(inner) == Some((s, rest))
    ensures Read("\"" + inner) == Some((Str(s), rest))
  {
    var t := "\"" + inner;
    assert t[0] == '\"' && t[1..] == inner;
  }

  lemma StrReadsBack(text: string, rest: string)
    ensures Read(Quote(text) + rest) == Some((Str(text), rest))
  {
    StringReadsBack(text, rest);
    QuotedReads(Escape(text) + "\"" + rest, text, rest);
    Associate("\"", Escape(text), "\"");
    Associate("\"", Escape(text) + "\"", rest);
  }

  lemma LiteralReadsBack(v: Json, rest: string)
    requires WellFormed(v) && Terminates(rest) && !v.Arr? && !v.Obj?
    ensures Read(Print(v) + rest) == Some((v, rest))
  {
    match v {
      case Num(text) => NumReadsBack(text, rest);
      case Str(text) => StrReadsBack(text, rest);
      case _ => WordReadsBack(v, rest);
    }
  }

  /** Reading what was printed gives the value back and stops where the value stopped. */
  lemma {:induction false} ValueReadsBack(v: Json, rest: string)
    requires WellFormed(v) && Terminates(rest)
    ensures Read(Print(v) + rest) == Some((v, rest))
    decreases v, 0
  {
    if v.Arr? {
      if v.items != [] {
        ItemsReadBack(v.items, rest);
      }
      BracketsReadBack(v.items, rest);
    } else if v.Obj? {
      if v.members != [] {
        MembersReadBack(v.members, rest);
      }
      ObjectReadsBack(v.members, rest);
    } else {
      LiteralReadsBack(v, rest);
    }
  }

  lemma BracketsReadBack(items: seq<Json>, rest: string)
    requires forall i :: 0 <= i < |items| ==> WellFormed(items[i])
    requires items != [] ==> ReadItems(PrintItems(items) + "]" + rest) == Some((items, rest))
    ensures Read(Print(Arr(items)) + rest) == Some((Arr(items), rest))
  {
    var t := Print(Arr(items)) + rest;
    assert t[0] == '[' && t[1..] == PrintItems(items) + "]" + rest;
    if items == [] {
      assert t[..2] == "[]" && t[2..] == rest;
    } else {
      PrintStarts(items[0]);
      assert t[1] == Print(items[0])[0];
    }
  }

  lemma EmptyBracesRead(rest: string)
    ensures Read("{}" + rest) == Some((Obj([]), rest))
  {
    var t := "{}" + rest;
    assert t[0] == '{' && t[..2] == "{}" && t[2..] == rest;
  }

  lemma BracedReads(body: string, members: seq<Member>, rest: string)
    requires body != "" && body[0] == '\"' && ReadMembers(body) == Some((members, rest))
    ensures Read("{" + body) == Some((Obj(members), rest))
  {
    var t := "{" + body;
    assert t[0] == '{' && t[1] == '\"' && t[1..] == body;
  }

  lemma ObjectReadsBack(members: seq<Member>, rest: string)
    requires members != [] ==> ReadMembers(PrintMembers(members) + "}" + rest) == Some((members, rest))
    ensures Read(Print(Obj(members)) + rest) == Some((Obj(members), rest))
  {
    if members == [] {
      EmptyBracesRead(rest);
      assert Print(Obj(members)) == "{}";
    } else {
      var inner := PrintMembers(members);
      assert inner[0] == '\"';
      BracedReads(inner + "}" + rest, members, rest);
      Associate("{", inner, "}");
      Associate("{", inner + "}", rest);
    }
  }

  lemma {:induction false} ItemsReadBack(items: seq<Json>, rest: string)
    requires items != [] && forall i :: 0 <= i < |items| ==> WellFormed(items[i])
    ensures ReadItems(PrintItems(items) + "]" + rest) == Some((items, rest))
    decreases items, 0
  {
    var t := PrintItems(items) + "]" + rest;
    if |items| == 1 {
      assert t == Print(items[0]) + ("]" + rest);
      ValueReadsBack(items[0], "]" + rest);
      assert ("]" + rest)[1..] == rest && [items[0]] == items;
    } else {
      var tail := PrintItems(items[1..]) + "]" + rest;
      assert t == Print(items[0]) + ("," + tail);
      ValueReadsBack(items[0], "," + tail);
      assert ("," + tail)[1..] == tail;
      ItemsReadBack(items[1..], rest);
      assert [items[0]] + items[1..] == items;
    }
  }

  lemma AfterQuote(escaped: string, text: string, tail: string)
    ensures ("\"" + escaped + "\"" + ":" + text + tail)[1..] == escaped + "\"" + (":" + text + tail)
    ensures (":" + text + tail)[1..] == text + tail
  {
    var t := "\"" + escaped + "\"" + ":" + text + tail;
    assert t == "\"" + (escaped + "\"" + (":" + text + tail));
    assert ":" + text + tail == ":" + (text + tail);
  }

  /** One member, its value printed as `text`, before whatever follows it. */
  lemma MemberReadsBack(key: string, value: Json, text: string, tail: string)
    requires Read(text + tail) == Some((value, tail))
    ensures var t := Quote(key) + ":" + text + tail; var afterKey := ":" + text + tail;
      && t != "" && t[0] == '\"' && ReadString(t[1..]) == Some((key, afterKey))
      && afterKey[0] == ':' && Read(afterKey[1..]) == Some((value, tail))
  {
    var t := Quote(key) + ":" + text + tail;
    var afterKey := ":" + text + tail;
    AfterQuote(Escape(key), text, tail);
    StringReadsBack(key, afterKey);
  }

  lemma LastMemberReads(key: string, value: Json, text: string, rest: string)
    requires Read(text + ("}" + rest)) == Some((value, "}" + rest))
    ensures ReadMembers(Quote(key) + ":" + text + ("}" + rest)) == Some(([Member(key, value)], rest))
  {
    MemberReadsBack(key, value, text, "}" + rest);
    assert ("}" + rest)[1..] == rest;
  }

  lemma NextMemberReads(key: string, value: Json, text: string, members: seq<Member>, more: string, rest: string)
    requires Read(text + ("," + more)) == Some((value, "," + more))
    requires ReadMembers(more) == Some((members, rest))
    ensures ReadMembers(Quote(key) + ":" + text + ("," + more)) == Some(([Member(key, value)] + members, rest))
  {
    MemberReadsBack(key, value, text, "," + more);
    assert ("," + more)[1..] == more;
  }

  lemma MembersPrint(members: seq<Member>, tail: string)
    requires members != []
    ensures PrintMembers(members) + tail ==
      Quote(members[0].key) + ":" + Print(members[0].value)
        + (if |members| == 1 then tail else "," + (PrintMembers(members[1..]) + tail))
  {
    var first := Quote(members[0].key) + ":" + Print(members[0].value);
    if |members| > 1 {
      Associate(first + ",", PrintMembers(members[1..]), tail);
      Associate(first, ",", PrintMembers(members[1..]) + tail);
    }
  }

  lemma OneMemberReadsBack(m: Member, rest: string)
    requires Read(Print(m.value) + ("}" + rest)) == Some((m.value, "}" + rest))
    ensures ReadMembers(PrintMembers([m]) + "}" + rest) == Some(([m], rest))
  {
    MembersPrint([m], "}" + rest);
    Associate(PrintMembers([m]), "}", rest);
    LastMemberReads(m.key, m.value, Print(m.value), rest);
  }

  lemma MoreMembersReadBack(m: Member, members: seq<Member>, rest: string)
    requires members != [] && ReadMembers(PrintMembers(members) + "}" + rest) == Some((members, rest))
    requires var more := PrintMembers(members) + "}" + rest;
      Read(Print(m.value) + ("," + more)) == Some((m.value, "," + more))
    ensures ReadMembers(PrintMembers([m] + members) + "}" + rest) == Some(([m] + members, rest))
  {
    MembersPrint([m] + members, "}" + rest);
    assert ([m] + members)[1..] == members;
    Associate(PrintMembers([m] + members), "}", rest);
    Associate(PrintMembers(members), "}", rest);
    NextMemberReads(m.key, m.value, Print(m.value), members, PrintMembers(members) + "}" + rest, rest);
  }

  lemma {:induction false} MembersReadBack(members: seq<Member>, rest: string)
    requires members != [] && forall i :: 0 <= i < |members| ==> WellFormed(members[i].value)
    ensures ReadMembers(PrintMembers(members) + "}" + rest) == Some((members, rest))
    decreases members, 0
  {
    if |members| == 1 {
      ValueReadsBack(members[0].value, "}" + rest);
      OneMemberReadsBack(members[0], rest);
      assert members == [members[0]];
    } else {
      ValueReadsBack(members[0].value, "," + (PrintMembers(members[1..]) + "}" + rest));
      MembersReadBack(members[1..], rest);
      MoreMembersReadBack(members[0], members[1..], rest);
      assert members == [members[0]] + members[1..];
    }
  }

  /** `JSON.parse` undoes `JSON.stringify`. */
  lemma ParsePrint(v: Json)
    requires WellFormed(v)
    ensures Parse(Print(v)) == Some(v)
  {
    ValueReadsBack(v, "");
    assert Print(v) + "" == Print(v);
  }
}
