/** How the server cuts its standard input into messages: lines of JSON, or bodies behind a
    Content-Length header, in whatever chunks the text arrives. */
module Framing {
  import opened Decimals
  import opened Strings
  import opened Utf8
  import opened Wrappers

  // ---- finding separators and the length ----

  predicate Occurs(b: string, pattern: string, i: nat) {
    i + |pattern| <= |b| && b[i..i + |pattern|] == pattern
  }

  /** `indexOf` from a position on. */
  function IndexFrom(b: string, pattern: string, from: nat): (r: Option<nat>)
    requires from <= |b|
    ensures r.Some? ==> from <= r.value && Occurs(b, pattern, r.value)
    ensures forall i :: from <= i < (if r.Some? then r.value else |b| + 1) ==> !Occurs(b, pattern, i)
    decreases |b| - from
  {
    if Occurs(b, pattern, from) then Some(from) else if from == |b| then None else IndexFrom(b, pattern, from + 1)
  }

  const CRLF_CRLF := "\r\n\r\n"
  const LF_LF := "\n\n"

  /** Where the header ends: the earlier of the two blank lines. */
  function HeaderEnd(b: string): Option<nat> {
    match (IndexFrom(b, CRLF_CRLF, 0), IndexFrom(b, LF_LF, 0))
    case (None, lf) => lf
    case (crlf, None) => crlf
    case (Some(i), Some(j)) => Some(if i < j then i else j)
  }

  function Lower(c: char): char {
    if 'A' <= c <= 'Z' then (c as int + 32) as char else c
  }

  const LENGTH_NAME := "content-length:"

  predicate NamesLength(h: string) {
    |h| >= |LENGTH_NAME| && forall i :: 0 <= i < |LENGTH_NAME| ==> Lower(h[i]) == LENGTH_NAME[i]
  }

  function Digits(s: string): (d: string)
    ensures d <= s && AllDigits(d)
  {
    if s != "" && IsDigit(s[0]) then [s[0]] + Digits(s[1..]) else ""
  }

  /** The first place where the header names the length, then white space, then digits. */
  function ContentLength(h: string): Option<nat> {
    if h == "" then None
    else
      var here := if NamesLength(h) then ReadDecimal(Digits(TrimStart(h[|LENGTH_NAME|..]))) else None;
      if here.Some? then here else ContentLength(h[1..])
  }

  // ---- one message off the front ----

  datatype Next = More | NoLength | Message(text: string, rest: string, line: bool) | BlankLine(rest: string)

  function NextLine(b: string): Next {
    match IndexFrom(b, "\n", 0)
    case None => More
    case Some(end) =>
      var line := Trim(b[..end]);
      if line == "" then BlankLine(b[end + 1..]) else Message(line, b[end + 1..], true)
  }

  function NextBody(b: string): Next {
    match HeaderEnd(b)
    case None => More
    case Some(end) => Body(b, ContentLength(b[..end]), end + if Occurs(b, CRLF_CRLF, end) then 4 else 2)
  }

  function Body(b: string, contentLength: Option<nat>, bodyStart: nat): Next {
    match contentLength
    case None => NoLength
    case Some(length) =>
      if |b| < bodyStart + length then More
      else Message(b[bodyStart..bodyStart + length], b[bodyStart + length..], false)
  }

  function NextMessage(b: string): (n: Next)
    ensures n.Message? || n.BlankLine? ==> |n.rest| < |b|
  {
    if b != "" && b[0] == '{' then NextLine(b) else NextBody(b)
  }

  // ---- the reader ----

  /** The buffer, whether replies go out as lines, and the texts handed to the JSON parser so far. A
      missing length or a text that does not parse stops the process. */
  datatype Reader =
    | Reading(buffer: string, lines: bool, handled: seq<string>)
    | Stopped(handled: seq<string>)

  function Drain(parses: string -> bool, r: Reader): Reader
    decreases if r.Reading? then |r.buffer| else 0
  {
    match r
    case Stopped(_) => r
    case Reading(buffer, lines, handled) =>
      match NextMessage(buffer)
      case More => r
      case NoLength => Stopped(handled)
      case BlankLine(rest) => Drain(parses, Reading(rest, true, handled))
      case Message(text, rest, line) =>
        if parses(text) then Drain(parses, Reading(rest, lines || line, handled + [text]))
          else Stopped(handled + [text])
  }

  function Append(r: Reader, chunk: string): Reader {
    match r
    case Stopped(_) => r
    case Reading(buffer, lines, handled) => Reading(buffer + chunk, lines, handled)
  }

  function Feed(parses: string -> bool, r: Reader, chunk: string): Reader {
    Drain(parses, Append(r, chunk))
  }

  function FeedAll(parses: string -> bool, r: Reader, chunks: seq<string>): Reader
    decreases |chunks|
  {
    if chunks == [] then r else FeedAll(parses, Feed(parses, r, chunks[0]), chunks[1..])
  }

  function Concat(chunks: seq<string>): string {
    if chunks == [] then "" else chunks[0] + Concat(chunks[1..])
  }

  const START := Reading("", false, [])

  /** The server's input and output, in place. */
  class Transport {
    const parses: string -> bool
    var inputBuffer: string
    var lines: bool
    var stopped: bool
    var handled: seq<string>
    var output: string

    constructor (parses: string -> bool)
      ensures this.parses == parses && Contents() == START && output == ""
    {
      this.parses := parses;
      inputBuffer, lines, stopped, handled, output := "", false, false, [], "";
    }

    function Contents(): Reader
      reads this
    {
      if stopped then Stopped(handled) else Reading(inputBuffer, lines, handled)
    }

    method ProcessInputBuffer()
      modifies this
      ensures Contents() == Drain(parses, old(Contents())) && output == old(output)
    {
      if stopped {
        return;
      }
      while true
        invariant !stopped && output == old(output)
        invariant Drain(parses, Contents()) == Drain(parses, old(Contents()))
        decreases |inputBuffer|
      {
        match NextMessage(inputBuffer) {
          case More => return;
          case NoLength =>
            stopped := true;
            return;
          case BlankLine(rest) =>
            inputBuffer, lines := rest, true;
          case Message(text, rest, line) =>
            inputBuffer, lines, handled := rest, lines || line, handled + [text];
            if !parses(text) {
              stopped := true;
              return;
            }
        }
      }
    }

    method OnData(chunk: string)
      modifies this
      ensures Contents() == Feed(parses, old(Contents()), chunk) && output == old(output)
    {
      if stopped {
        return;
      }
      inputBuffer := inputBuffer + chunk;
      ProcessInputBuffer();
    }

    /** Replies go out in the form of the last kind of message read. */
    method Send(body: string)
      modifies this`output
      ensures output == old(output) + Framed(lines, body)
    {
      if lines {
        output := output + body + "\n";
      } else {
        output := output + "Content-Length: " + Decimal(|Encode(body)|) + CRLF_CRLF + body;
      }
    }
  }

  /** The two forms a message is written in; the length counts bytes. */
  function Framed(line: bool, body: string): string {
    if line then body + "\n" else Header(|Encode(body)|) + CRLF_CRLF + body
  }

  function Header(length: nat): string {
    "Content-Length: " + Decimal(length)
  }

  // ---- chunks do not matter ----

  lemma OccursStays(b: string, c: string, pattern: string, i: nat)
    requires i + |pattern| <= |b|
    ensures Occurs(b, pattern, i) <==> Occurs(b + c, pattern, i)
  {
    assert (b + c)[i..i + |pattern|] == b[i..i + |pattern|];
  }

  lemma IndexStays(b: string, c: string, pattern: string)
    requires pattern != "" && IndexFrom(b, pattern, 0).Some?
    ensures IndexFrom(b + c, pattern, 0) == IndexFrom(b, pattern, 0)
  {
    var i := IndexFrom(b, pattern, 0).value;
    OccursStays(b, c, pattern, i);
    var j := IndexFrom(b + c, pattern, 0);
    if j.Some? && j.value < i {
      OccursStays(b, c, pattern, j.value);
    }
  }

  /** A pattern not found before can only be found near the end. */
  lemma IndexIsLate(b: string, c: string, pattern: string)
    requires pattern != "" && IndexFrom(b, pattern, 0).None? && IndexFrom(b + c, pattern, 0).Some?
    ensures IndexFrom(b + c, pattern, 0).value + |pattern| > |b|
  {
    var j := IndexFrom(b + c, pattern, 0).value;
    if j + |pattern| <= |b| {
      OccursStays(b, c, pattern, j);
    }
  }

  lemma HeaderEndStays(b: string, c: string)
    requires HeaderEnd(b).Some?
    ensures HeaderEnd(b + c) == HeaderEnd(b)
    ensures Occurs(b + c, CRLF_CRLF, HeaderEnd(b).value) <==> Occurs(b, CRLF_CRLF, HeaderEnd(b).value)
  {
    var end := HeaderEnd(b).value;
    var crlf, lf := IndexFrom(b, CRLF_CRLF, 0), IndexFrom(b, LF_LF, 0);
    if crlf.Some? {
      IndexStays(b, c, CRLF_CRLF);
    }
    if lf.Some? {
      IndexStays(b, c, LF_LF);
    }
    if lf.None? && IndexFrom(b + c, LF_LF, 0).Some? {
      IndexIsLate(b, c, LF_LF);
    }
    if crlf.None? && IndexFrom(b + c, CRLF_CRLF, 0).Some? {
      IndexIsLate(b, c, CRLF_CRLF);
      NoOverlap(b + c, lf.value, IndexFrom(b + c, CRLF_CRLF, 0).value, b);
    }
    if Occurs(b, CRLF_CRLF, end) {
      OccursStays(b, c, CRLF_CRLF, end);
    } else {
      LineFeedsOnly(b, c, end);
    }
  }

  lemma StartsWithReturn(t: string, i: nat)
    requires Occurs(t, CRLF_CRLF, i)
    ensures t[i] == '\r'
  {
    assert t[i] == t[i..i + 4][0];
  }

  lemma LineFeedsOnly(b: string, c: string, end: nat)
    requires Occurs(b, LF_LF, end)
    ensures !Occurs(b + c, CRLF_CRLF, end)
  {
    assert b[end] == b[end..end + 2][0] == '\n';
    if Occurs(b + c, CRLF_CRLF, end) {
      StartsWithReturn(b + c, end);
    }
  }

  /** A blank line in one style cannot begin inside a blank line of the other style that comes first. */
  lemma NoOverlap(t: string, lf: nat, crlf: nat, b: string)
    requires b <= t && Occurs(b, LF_LF, lf) && Occurs(t, CRLF_CRLF, crlf) && crlf + 4 > |b|
    ensures lf < crlf
  {
    assert b[lf..lf + 2][0] == '\n' && b[lf..lf + 2][1] == '\n';
    assert t[lf] == '\n' && t[lf + 1] == '\n';
    assert t[crlf..crlf + 4] == CRLF_CRLF;
    assert t[crlf] == '\r' && t[crlf + 1] == '\n' && t[crlf + 2] == '\r';
  }

  function WithMore(n: Next, c: string): Next {
    match n
    case Message(text, rest, line) => Message(text, rest + c, line)
    case BlankLine(rest) => BlankLine(rest + c)
    case _ => n
  }

  lemma LineStays(b: string, c: string)
    requires !NextLine(b).More?
    ensures NextLine(b + c) == WithMore(NextLine(b), c)
  {
    var end := IndexFrom(b, "\n", 0).value;
    IndexStays(b, c, "\n");
    assert (b + c)[..end] == b[..end] && (b + c)[end + 1..] == b[end + 1..] + c;
  }

  lemma BodyStays(b: string, c: string, contentLength: Option<nat>, bodyStart: nat)
    requires !Body(b, contentLength, bodyStart).More?
    ensures Body(b + c, contentLength, bodyStart) == WithMore(Body(b, contentLength, bodyStart), c)
  {
    if contentLength.Some? {
      BodySlices(b, c, bodyStart, bodyStart + contentLength.value);
    }
  }

  lemma BodySlices(b: string, c: string, from: nat, to: nat)
    requires from <= to <= |b|
    ensures (b + c)[from..to] == b[from..to] && (b + c)[to..] == b[to..] + c
  {
  }

  /** What is decided by the text so far stays decided. */
  lemma NextStays(b: string, c: string)
    requires !NextMessage(b).More?
    ensures NextMessage(b + c) == WithMore(NextMessage(b), c)
  {
    if b != "" && b[0] == '{' {
      LineStays(b, c);
    } else {
      assert b != "" by {
        NothingInNothing();
      }
      HeaderEndStays(b, c);
      var end := HeaderEnd(b).value;
      assert (b + c)[..end] == b[..end];
      BodyStays(b, c, ContentLength(b[..end]), end + if Occurs(b, CRLF_CRLF, end) then 4 else 2);
    }
  }

  lemma NothingInNothing()
    ensures NextMessage("") == More
  {
  }

  /** Draining before more text arrives makes no difference. */
  lemma {:induction false} DrainEarly(parses: string -> bool, r: Reader, c: string)
    ensures Drain(parses, Append(Drain(parses, r), c)) == Drain(parses, Append(r, c))
    decreases if r.Reading? then |r.buffer| else 0
  {
    match r {
      case Stopped(_) =>
      case Reading(buffer, lines, handled) =>
        var n := NextMessage(buffer);
        if !n.More? {
          NextStays(buffer, c);
          match n {
            case BlankLine(rest) => DrainEarly(parses, Reading(rest, true, handled), c);
            case Message(text, rest, line) =>
              if parses(text) {
                DrainEarly(parses, Reading(rest, lines || line, handled + [text]), c);
              }
            case _ =>
          }
        }
    }
  }

  /** Any way of cutting the stream gives the state that the whole stream at once gives. */
  lemma {:induction false} ChunksDoNotMatter(parses: string -> bool, r: Reader, chunks: seq<string>)
    requires Drain(parses, r) == r
    ensures FeedAll(parses, r, chunks) == Feed(parses, r, Concat(chunks))
    decreases |chunks|
  {
    if chunks == [] {
      assert Append(r, "") == r by {
        if r.Reading? {
          assert r.buffer + "" == r.buffer;
        }
      }
    } else {
      var next := Feed(parses, r, chunks[0]);
      DrainTwice(parses, Append(r, chunks[0]));
      ChunksDoNotMatter(parses, next, chunks[1..]);
      DrainEarly(parses, Append(r, chunks[0]), Concat(chunks[1..]));
      AppendTwice(r, chunks[0], Concat(chunks[1..]));
    }
  }

  lemma AppendTwice(r: Reader, a: string, b: string)
    ensures Append(Append(r, a), b) == Append(r, a + b)
  {
    if r.Reading? {
      assert r.buffer + a + b == r.buffer + (a + b);
    }
  }

  lemma DrainTwice(parses: string -> bool, r: Reader)
    ensures Drain(parses, Drain(parses, r)) == Drain(parses, r)
  {
    DrainEarly(parses, r, "");
    var d := Drain(parses, r);
    assert Append(d, "") == d by {
      if d.Reading? {
        assert d.buffer + "" == d.buffer;
      }
    }
    assert Append(r, "") == r by {
      if r.Reading? {
        assert r.buffer + "" == r.buffer;
      }
    }
  }
}
