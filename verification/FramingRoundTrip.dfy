/** What one side sends the other side reads: any list of messages, in either form, in any chunks. */
module FramingRoundTrip {
  import opened Decimals
  import opened Framing
  import opened Json
  import opened JsonText
  import opened Strings
  import opened Utf8
  import opened Wrappers

  predicate IsMessage(m: Json) {
    m.Obj? && WellFormed(m)
  }

  predicate IsAscii(s: string) {
    forall i :: 0 <= i < |s| ==> s[i] as int < 0x80
  }

  datatype Sent = Sent(message: Json, line: bool)

  /** The reader can tell where it ends: it is a line, or its length in bytes is its length in characters. */
  predicate Readable(m: Sent) {
    m.line || IsAscii(Print(m.message))
  }

  function Stream(messages: seq<Sent>): string {
    if messages == [] then "" else Framed(messages[0].line, Print(messages[0].message)) + Stream(messages[1..])
  }

  function Texts(messages: seq<Sent>): seq<string> {
    if messages == [] then [] else [Print(messages[0].message)] + Texts(messages[1..])
  }

  predicate AnyLine(messages: seq<Sent>) {
    exists i :: 0 <= i < |messages| && messages[i].line
  }

  predicate NoBreak(s: string) {
    '\n' !in s
  }

  // ---- printed JSON has no line break ----

  lemma NoBreakAdds(a: string, b: string)
    requires NoBreak(a) && NoBreak(b)
    ensures NoBreak(a + b)
  {
  }

  lemma {:induction false} EscapeHasNoBreak(s: string)
    ensures NoBreak(Escape(s))
  {
    if s != "" {
      EscapeHasNoBreak(s[1..]);
      CharHasNoBreak(s[0]);
      NoBreakAdds(EscapeChar(s[0]), Escape(s[1..]));
    }
  }

  lemma CharHasNoBreak(c: char)
    ensures NoBreak(EscapeChar(c))
  {
  }

  lemma QuoteHasNoBreak(s: string)
    ensures NoBreak(Quote(s))
  {
    EscapeHasNoBreak(s);
  }

  lemma {:induction false} PrintHasNoBreak(v: Json)
    requires WellFormed(v)
    ensures NoBreak(Print(v))
    decreases v, 0
  {
    match v {
      case Num(text) =>
        assert forall c :: c in text ==> IsNumberChar(c);
      case Str(text) => QuoteHasNoBreak(text);
      case Arr(items) => ItemsHaveNoBreak(items);
      case Obj(members) => MembersHaveNoBreak(members);
      case _ =>
    }
  }

  lemma {:induction false} ItemsHaveNoBreak(items: seq<Json>)
    requires forall i :: 0 <= i < |items| ==> WellFormed(items[i])
    ensures NoBreak(PrintItems(items))
    decreases items, 0
  {
    if items != [] {
      PrintHasNoBreak(items[0]);
      ItemsHaveNoBreak(items[1..]);
    }
  }

  lemma {:induction false} MembersHaveNoBreak(members: seq<Member>)
    requires forall i :: 0 <= i < |members| ==> WellFormed(members[i].value)
    ensures NoBreak(PrintMembers(members))
    decreases members, 0
  {
    if members != [] {
      QuoteHasNoBreak(members[0].key);
      PrintHasNoBreak(members[0].value);
      MembersHaveNoBreak(members[1..]);
    }
  }

  // ---- one message ----

  lemma ObjectText(m: Json)
    requires m.Obj? && WellFormed(m)
    ensures NoBreak(Print(m)) && |Print(m)| >= 2 && Print(m)[0] == '{' && Print(m)[|Print(m)| - 1] == '}'
    ensures Trim(Print(m)) == Print(m)
  {
    PrintHasNoBreak(m);
    TrimmedStays(Print(m));
  }

  lemma NotThere(b: string, pattern: string, i: nat)
    requires i < |b| && pattern != "" && b[i] != pattern[0]
    ensures !Occurs(b, pattern, i)
  {
    if i + |pattern| <= |b| {
      assert b[i..i + |pattern|][0] == b[i];
    }
  }

  lemma FirstIndex(b: string, pattern: string, i: nat)
    requires Occurs(b, pattern, i) && forall j :: 0 <= j < i ==> !Occurs(b, pattern, j)
    ensures IndexFrom(b, pattern, 0) == Some(i)
  {
  }

  lemma LineReads(text: string, rest: string)
    requires NoBreak(text) && text != "" && text[0] == '{' && Trim(text) == text
    ensures NextMessage(text + "\n" + rest) == Message(text, rest, true)
  {
    var b := text + "\n" + rest;
    assert b[|text|..|text| + 1] == "\n";
    forall j | 0 <= j < |text|
      ensures !Occurs(b, "\n", j)
    {
      assert b[j] == text[j];
      NotThere(b, "\n", j);
    }
    FirstIndex(b, "\n", |text|);
    assert b[..|text|] == text && b[|text| + 1..] == rest;
  }

  lemma {:induction false} DigitsOf(s: string)
    requires AllDigits(s)
    ensures Digits(s) == s
  {
    if s != "" {
      DigitsOf(s[1..]);
      assert [s[0]] + s[1..] == s;
    }
  }

  predicate NoBlank(h: string) {
    forall k :: 0 <= k < |h| ==> h[k] != '\r' && h[k] != '\n'
  }

  const HEADER_NAME := "Content-Length: "

  lemma HeaderNames(d: string)
    ensures NamesLength(HEADER_NAME + d) && (HEADER_NAME + d)[|LENGTH_NAME|..] == " " + d
  {
    assert forall i :: 0 <= i < |LENGTH_NAME| ==> (HEADER_NAME + d)[i] == HEADER_NAME[i];
  }

  lemma HeaderHasNoBlank(d: string)
    requires AllDigits(d)
    ensures NoBlank(HEADER_NAME + d)
  {
    assert forall i :: 0 <= i < |HEADER_NAME| ==> HEADER_NAME[i] != '\r' && HEADER_NAME[i] != '\n';
    forall i | 0 <= i < |HEADER_NAME + d|
      ensures (HEADER_NAME + d)[i] != '\r' && (HEADER_NAME + d)[i] != '\n'
    {
      if i >= |HEADER_NAME| {
        assert IsDigit(d[i - |HEADER_NAME|]);
      }
    }
  }

  lemma NamedLength(h: string, d: string, n: nat)
    requires NamesLength(h) && h[|LENGTH_NAME|..] == " " + d && d != "" && AllDigits(d) && ReadDecimal(d) == Some(n)
    ensures ContentLength(h) == Some(n)
  {
    DigitsOf(d);
    assert (" " + d)[1..] == d && (" " + d)[0] == ' ';
    assert IsDigit(d[0]);
    assert TrimStart(d) == d;
    assert TrimStart(" " + d) == d;
  }

  lemma HeaderGivesLength(n: nat)
    ensures ContentLength(Header(n)) == Some(n)
    ensures NoBlank(Header(n)) && Header(n) != "" && Header(n)[0] == 'C'
  {
    DecimalReadsBack(n);
    assert Header(n) == HEADER_NAME + Decimal(n);
    HeaderNames(Decimal(n));
    HeaderHasNoBlank(Decimal(n));
    NamedLength(Header(n), Decimal(n), n);
  }

  /** A header line, a blank line and what follows. */
  predicate Headed(b: string, h: string, payload: string) {
    |b| == |h| + 4 + |payload| && b[..|h|] == h && b[|h|..|h| + 4] == CRLF_CRLF && b[|h| + 4..] == payload
  }

  lemma HeaderEndsThere(b: string, h: string, payload: string)
    requires Headed(b, h, payload) && NoBlank(h)
    ensures HeaderEnd(b) == Some(|h|) && Occurs(b, CRLF_CRLF, |h|)
  {
    forall i | 0 <= i < |h|
      ensures !Occurs(b, CRLF_CRLF, i)
    {
      assert b[i] == h[i];
      NotThere(b, CRLF_CRLF, i);
    }
    forall i | 0 <= i <= |h|
      ensures !Occurs(b, LF_LF, i)
    {
      assert b[|h|] == b[|h|..|h| + 4][0];
      assert b[i] == if i < |h| then h[i] else '\r';
      NotThere(b, LF_LF, i);
    }
    FirstIndex(b, CRLF_CRLF, |h|);
  }

  lemma BodyAfter(b: string, start: nat, n: nat, payload: string)
    requires start <= |b| && b[start..] == payload
    ensures Body(b, Some(n), start) == if |payload| < n then More else Message(payload[..n], payload[n..], false)
  {
    if |payload| >= n {
      assert b[start..start + n] == payload[..n] && b[start + n..] == payload[n..];
    }
  }

  lemma HeaderedNext(b: string, h: string, length: Option<nat>)
    requires h != "" && |h| <= |b| && b[..|h|] == h && h[0] != '{' && ContentLength(h) == length
    requires HeaderEnd(b) == Some(|h|) && Occurs(b, CRLF_CRLF, |h|)
    ensures NextMessage(b) == Body(b, length, |h| + 4)
  {
    assert b[0] == h[0];
  }

  /** A body behind its header is read whole as soon as as many characters have come as it has bytes. */
  lemma BodyReads(b: string, text: string, tail: string)
    requires Headed(b, Header(|Encode(text)|), text + tail)
    ensures var n := |Encode(text)|;
      NextMessage(b) == if |text + tail| < n then More else Message((text + tail)[..n], (text + tail)[n..], false)
  {
    var n := |Encode(text)|;
    var h := Header(n);
    HeaderGivesLength(n);
    HeaderEndsThere(b, h, text + tail);
    HeaderedNext(b, h, Some(n));
    BodyAfter(b, |h| + 4, n, text + tail);
  }

  lemma FramedIsHeaded(text: string, tail: string)
    ensures Headed(Framed(false, text) + tail, Header(|Encode(text)|), text + tail)
  {
    JoinedIsHeaded(Header(|Encode(text)|), text, tail);
  }

  lemma JoinedIsHeaded(h: string, text: string, tail: string)
    ensures Headed(h + CRLF_CRLF + text + tail, h, text + tail)
  {
  }

  lemma FramedReads(m: Sent, rest: string)
    requires IsMessage(m.message) && Readable(m)
    ensures NextMessage(Framed(m.line, Print(m.message)) + rest) == Message(Print(m.message), rest, m.line)
  {
    var text := Print(m.message);
    ObjectText(m.message);
    if m.line {
      LineReads(text, rest);
    } else {
      AsciiLength(text);
      FramedIsHeaded(text, rest);
      BodyReads(Framed(false, text) + rest, text, rest);
      assert (text + rest)[..|text|] == text && (text + rest)[|text|..] == rest;
    }
  }

  /** A body that is not ASCII is not read as what it is: the reader waits, or takes more than the body. */
  lemma UnreadableMisreads(m: Sent, rest: string)
    requires !Readable(m)
    ensures var n := NextMessage(Framed(m.line, Print(m.message)) + rest);
      n == More || (n.Message? && |n.text| > |Print(m.message)|)
  {
    var text := Print(m.message);
    BytesAtLeastCharacters(text);
    FramedIsHeaded(text, rest);
    BodyReads(Framed(false, text) + rest, text, rest);
  }

  lemma DrainsOne(parses: string -> bool, b: string, n: Next, lines: bool, handled: seq<string>)
    requires n.Message? && NextMessage(b) == n && parses(n.text)
    ensures Drain(parses, Reading(b, lines, handled)) ==
      Drain(parses, Reading(n.rest, lines || n.line, handled + [n.text]))
  {
  }

  lemma {:induction false} StreamDrains(parses: string -> bool, messages: seq<Sent>, lines: bool, handled: seq<string>)
    requires forall i :: 0 <= i < |messages| ==>
      IsMessage(messages[i].message) && Readable(messages[i]) && parses(Print(messages[i].message))
    ensures Drain(parses, Reading(Stream(messages), lines, handled)) ==
      Reading("", lines || AnyLine(messages), handled + Texts(messages))
    decreases |messages|
  {
    if messages == [] {
      NothingInNothing();
      assert handled + [] == handled;
    } else {
      var text, rest, line := Print(messages[0].message), Stream(messages[1..]), messages[0].line;
      FramedReads(messages[0], rest);
      DrainsOne(parses, Stream(messages), Message(text, rest, line), lines, handled);
      StreamDrains(parses, messages[1..], lines || line, handled + [text]);
      assert Texts(messages) == [text] + Texts(messages[1..]);
      assert handled + [text] + Texts(messages[1..]) == handled + Texts(messages);
      AnyLineSplits(messages);
    }
  }

  /** What was handed on stays handed on. */
  lemma {:induction false} HandledGrows(parses: string -> bool, r: Reader)
    ensures r.handled <= Drain(parses, r).handled
    decreases if r.Reading? then |r.buffer| else 0
  {
    if r.Reading? {
      match NextMessage(r.buffer) {
        case BlankLine(rest) => HandledGrows(parses, Reading(rest, true, r.handled));
        case Message(text, rest, line) =>
          if parses(text) {
            HandledGrows(parses, Reading(rest, r.lines || line, r.handled + [text]));
          }
        case _ =>
      }
    }
  }

  lemma FirstMisread(parses: string -> bool, messages: seq<Sent>, lines: bool, handled: seq<string>)
    requires messages != [] && !Readable(messages[0])
    ensures var r := Drain(parses, Reading(Stream(messages), lines, handled));
      r == Reading(Stream(messages), lines, handled) || r.Stopped?
      || (|r.handled| > |handled| && |r.handled[|handled|]| > |Print(messages[0].message)|)
  {
    var n := NextMessage(Stream(messages));
    UnreadableMisreads(messages[0], Stream(messages[1..]));
    if n.Message? && parses(n.text) {
      DrainsOne(parses, Stream(messages), n, lines, handled);
      HandledGrows(parses, Reading(n.rest, lines || n.line, handled + [n.text]));
    }
  }

  lemma TextsFrom(messages: seq<Sent>, handled: seq<string>)
    requires messages != []
    ensures handled + Texts(messages) == handled + [Print(messages[0].message)] + Texts(messages[1..])
  {
    assert Texts(messages) == [Print(messages[0].message)] + Texts(messages[1..]);
  }

  lemma LaterUnreadable(messages: seq<Sent>)
    requires messages != [] && Readable(messages[0])
    requires exists i :: 0 <= i < |messages| && !Readable(messages[i])
    ensures exists i :: 0 <= i < |messages[1..]| && !Readable(messages[1..][i])
  {
    var i :| 0 <= i < |messages| && !Readable(messages[i]);
    assert messages[1..][i - 1] == messages[i];
  }

  /** A stream with an unreadable message never ends in the state that reading all of it would give. */
  lemma {:induction false} StreamMisreads(parses: string -> bool, messages: seq<Sent>, lines: bool,
                                          handled: seq<string>, l: bool)
    requires forall i :: 0 <= i < |messages| ==> IsMessage(messages[i].message) && parses(Print(messages[i].message))
    requires exists i :: 0 <= i < |messages| && !Readable(messages[i])
    ensures Drain(parses, Reading(Stream(messages), lines, handled)) != Reading("", l, handled + Texts(messages))
    decreases |messages|
  {
    var text, rest, line := Print(messages[0].message), Stream(messages[1..]), messages[0].line;
    TextsFrom(messages, handled);
    if Readable(messages[0]) {
      FramedReads(messages[0], rest);
      DrainsOne(parses, Stream(messages), Message(text, rest, line), lines, handled);
      LaterUnreadable(messages);
      StreamMisreads(parses, messages[1..], lines || line, handled + [text], l);
    } else {
      FirstMisread(parses, messages, lines, handled);
      assert (handled + Texts(messages))[|handled|] == text;
      assert Stream(messages) != "";
    }
  }

  lemma AnyLineSplits(messages: seq<Sent>)
    requires messages != []
    ensures AnyLine(messages) <==> messages[0].line || AnyLine(messages[1..])
  {
    if AnyLine(messages) && !messages[0].line {
      var i :| 0 <= i < |messages| && messages[i].line;
      assert messages[1..][i - 1].line;
    }
    if AnyLine(messages[1..]) {
      var i :| 0 <= i < |messages[1..]| && messages[1..][i].line;
      assert messages[i + 1].line;
    }
  }

  /** The framing round trip: however the stream of any messages in either form is cut into chunks, the
      server hands on exactly those messages in order and is left with an empty buffer, if and only if every
      message sent behind a length header is ASCII. */
  lemma EveryMessageArrives(parses: string -> bool, messages: seq<Sent>, chunks: seq<string>)
    requires forall i :: 0 <= i < |messages| ==> IsMessage(messages[i].message) && parses(Print(messages[i].message))
    requires Concat(chunks) == Stream(messages)
    ensures FeedAll(parses, START, chunks) == Reading("", AnyLine(messages), Texts(messages)) <==>
      forall i :: 0 <= i < |messages| ==> Readable(messages[i])
  {
    NothingInNothing();
    ChunksDoNotMatter(parses, START, chunks);
    assert "" + Stream(messages) == Stream(messages);
    assert [] + Texts(messages) == Texts(messages);
    if forall i :: 0 <= i < |messages| ==> Readable(messages[i]) {
      StreamDrains(parses, messages, false, []);
    } else {
      StreamMisreads(parses, messages, false, [], AnyLine(messages));
    }
  }

  lemma {:induction false} BytesAtLeastCharacters(s: string)
    ensures |Encode(s)| >= |s|
    ensures |Encode(s)| == |s| ==> IsAscii(s)
  {
    if s != "" {
      BytesAtLeastCharacters(s[1..]);
      if |Encode(s)| == |s| {
        assert |EncodeChar(s[0])| == 1;
        assert s[0] as int < 0x80;
        forall i | 0 <= i < |s|
          ensures s[i] as int < 0x80
        {
          if i > 0 {
            assert s[i] == s[1..][i - 1];
          }
        }
      }
    }
  }

  /** Why ASCII: the writer counts bytes and the reader counts characters. A body sent alone behind a
      length header is read exactly when it is ASCII; otherwise the reader waits for more. */
  lemma LoneBodyReadsExactlyWhenAscii(text: string)
    ensures IsAscii(text) ==> NextMessage(Framed(false, text)) == Message(text, "", false)
    ensures !IsAscii(text) ==> NextMessage(Framed(false, text)) == More
  {
    FramedIsHeaded(text, "");
    assert Framed(false, text) + "" == Framed(false, text) && text + "" == text;
    BodyReads(Framed(false, text), text, "");
    BytesAtLeastCharacters(text);
    if IsAscii(text) {
      AsciiLength(text);
      assert text[..|text|] == text && text[|text|..] == "";
    }
  }

  // ---- other headers ----

  /** The header ends at the first blank line of either kind. */
  lemma HeaderEndsFirst(b: string, e: nat)
    ensures HeaderEnd(b) == Some(e) <==>
      && (Occurs(b, "\r\n\r\n", e) || Occurs(b, "\n\n", e))
      && forall i :: 0 <= i < e ==> !Occurs(b, "\r\n\r\n", i) && !Occurs(b, "\n\n", i)
  {
    var crlf, lf := IndexFrom(b, CRLF_CRLF, 0), IndexFrom(b, LF_LF, 0);
    if Occurs(b, CRLF_CRLF, e) {
      assert crlf.Some? && crlf.value <= e;
    }
    if Occurs(b, LF_LF, e) {
      assert lf.Some? && lf.value <= e;
    }
  }

  /** A header that names the length, ended by a blank line of either kind: the message is as many of the characters
      after the blank line as the header says, and the rest is what follows them. */
  lemma HeadedMessageIsCut(h: string, blank: string, text: string, rest: string)
    requires blank == "\r\n\r\n" || blank == "\n\n"
    requires h != "" && h[0] != '{' && NoBlank(h) && ContentLength(h) == Some(|text|)
    ensures NextMessage(h + blank + text + rest) == Message(text, rest, false)
  {
    var b := h + blank + text + rest;
    CutAt(h, blank, text + rest);
    assert b == h + blank + (text + rest);
    HeaderEndsFirst(b, |h|);
    assert b[..|h|] == h && b[0] == h[0];
    BodyAfter(b, |h| + |blank|, |text|, text + rest);
    assert (text + rest)[..|text|] == text && (text + rest)[|text|..] == rest;
  }

  lemma CutAt(h: string, blank: string, payload: string)
    requires (blank == "\r\n\r\n" || blank == "\n\n") && NoBlank(h)
    ensures var b := h + blank + payload;
      && b[|h| + |blank|..] == payload && Occurs(b, blank, |h|)
      && (blank == "\n\n" ==> !Occurs(b, "\r\n\r\n", |h|))
      && forall i :: 0 <= i < |h| ==> !Occurs(b, "\r\n\r\n", i) && !Occurs(b, "\n\n", i)
  {
    var b := h + blank + payload;
    assert b[|h|..|h| + |blank|] == blank;
    assert b[|h|] == blank[0];
    forall i | 0 <= i < |h|
      ensures !Occurs(b, "\r\n\r\n", i) && !Occurs(b, "\n\n", i)
    {
      assert b[i] == h[i];
      NotThere(b, "\r\n\r\n", i);
      NotThere(b, "\n\n", i);
    }
    if blank == "\n\n" {
      NotThere(b, "\r\n\r\n", |h|);
    }
  }

  /** The header line is found whatever the case of its letters, whatever white space follows the colon and whatever
      follows the digits, and behind other headers. */
  lemma LengthIsFound(before: string, name: string, space: string, n: nat, after: string)
    requires IsLengthName(name)
    requires forall i :: 0 <= i < |before| ==> before[i] != 'c' && before[i] != 'C'
    requires forall i :: 0 <= i < |space| ==> IsSpace(space[i])
    requires after == "" || !IsDigit(after[0])
    ensures ContentLength(before + name + space + Decimal(n) + after) == Some(n)
  {
    DecimalReadsBack(n);
    LengthIsRead(name, space, Decimal(n), after);
    BeforeIsSkipped(before, name + (space + (Decimal(n) + after)), n);
    Regrouped(before, name, space, Decimal(n), after);
  }

  lemma Regrouped(a: string, b: string, c: string, d: string, e: string)
    ensures a + b + c + d + e == a + (b + (c + (d + e)))
  {
  }

  lemma LengthIsRead(name: string, space: string, digits: string, after: string)
    requires IsLengthName(name)
    requires forall i :: 0 <= i < |space| ==> IsSpace(space[i])
    requires digits != "" && AllDigits(digits) && ReadDecimal(digits).Some? && (after == "" || !IsDigit(after[0]))
    ensures ContentLength(name + (space + (digits + after))) == ReadDecimal(digits)
  {
    NameIsFound(name, space + (digits + after));
    DigitIsNoSpace((digits + after)[0]);
    SpaceIsSkipped(space, digits + after);
    DigitsStop(digits, after);
  }

  lemma DigitIsNoSpace(c: char)
    requires IsDigit(c)
    ensures !IsSpace(c)
  {
    assert 48 <= c as int <= 57;
  }

  predicate IsLengthName(name: string) {
    name in {"Content-Length:", "content-length:", "CONTENT-LENGTH:", "Content-length:"}
  }

  lemma NameIsFound(name: string, rest: string)
    requires IsLengthName(name)
    ensures NamesLength(name + rest) && (name + rest)[|LENGTH_NAME|..] == rest
  {
    assert forall i :: 0 <= i < |name| ==> (name + rest)[i] == name[i];
  }

  lemma {:induction false} SpaceIsSkipped(space: string, rest: string)
    requires forall i :: 0 <= i < |space| ==> IsSpace(space[i])
    requires rest != "" && !IsSpace(rest[0])
    ensures TrimStart(space + rest) == rest
  {
    if space == "" {
      assert space + rest == rest;
    } else {
      assert (space + rest)[1..] == space[1..] + rest;
      SpaceIsSkipped(space[1..], rest);
    }
  }

  lemma {:induction false} DigitsStop(d: string, after: string)
    requires AllDigits(d) && (after == "" || !IsDigit(after[0]))
    ensures Digits(d + after) == d
  {
    if d == "" {
      assert d + after == after;
    } else {
      assert (d + after)[1..] == d[1..] + after;
      DigitsStop(d[1..], after);
      assert [d[0]] + d[1..] == d;
    }
  }

  lemma {:induction false} BeforeIsSkipped(before: string, h: string, n: nat)
    requires ContentLength(h) == Some(n) && forall i :: 0 <= i < |before| ==> before[i] != 'c' && before[i] != 'C'
    ensures ContentLength(before + h) == Some(n)
  {
    if before == "" {
      assert before + h == h;
    } else {
      assert (before + h)[1..] == before[1..] + h && (before + h)[0] == before[0];
      BeforeIsSkipped(before[1..], h, n);
      assert LENGTH_NAME[0] == 'c';
      assert !NamesLength(before + h);
    }
  }


  // ---- white space around a line ----

  /** Of a line only the message counts: white space before the line break, a carriage return too, is dropped. */
  lemma SpacedLineIsCut(text: string, space: string, rest: string)
    requires IsTrimmed(text) && text[0] == '{' && NoBreak(text) && NoBreak(space)
    requires forall i :: 0 <= i < |space| ==> IsSpace(space[i])
    ensures NextMessage(text + space + "\n" + rest) == Message(text, rest, true)
  {
    var line := text + space;
    var b := line + "\n" + rest;
    BreakIsFound(line, rest);
    SpaceIsDropped(text, space);
    assert b[0] == text[0] && b[..|line|] == line && b[|line| + 1..] == rest;
  }

  lemma BreakIsFound(line: string, rest: string)
    requires NoBreak(line)
    ensures IndexFrom(line + "\n" + rest, "\n", 0) == Some(|line|)
  {
    var b := line + "\n" + rest;
    assert b[|line|..|line| + 1] == "\n";
    assert Occurs(b, "\n", |line|);
    forall i | 0 <= i < |line|
      ensures !Occurs(b, "\n", i)
    {
      assert b[i] == line[i];
      NotThere(b, "\n", i);
    }
  }

  lemma {:induction false} SpaceIsDropped(text: string, space: string)
    requires IsTrimmed(text) && forall i :: 0 <= i < |space| ==> IsSpace(space[i])
    ensures Trim(text + space) == text
  {
    assert TrimStart(text + space) == text + space;
    EndIsDropped(text, space);
  }

  lemma {:induction false} EndIsDropped(text: string, space: string)
    requires IsTrimmed(text) && forall i :: 0 <= i < |space| ==> IsSpace(space[i])
    ensures TrimEnd(text + space) == text
  {
    if space == "" {
      assert text + space == text;
    } else {
      var s := text + space;
      assert s[..|s| - 1] == text + space[..|space| - 1] && s[|s| - 1] == space[|space| - 1];
      EndIsDropped(text, space[..|space| - 1]);
    }
  }


  /** A line that does not parse is the last text handed on, whatever follows it. */
  lemma BadLineStops(parses: string -> bool, text: string, rest: string, lines: bool, handled: seq<string>)
    requires IsTrimmed(text) && text[0] == '{' && NoBreak(text) && !parses(text)
    ensures Drain(parses, Reading(text + "\n" + rest, lines, handled)) == Stopped(handled + [text])
  {
    SpacedLineIsCut(text, "", rest);
    assert text + "" == text;
  }
}
