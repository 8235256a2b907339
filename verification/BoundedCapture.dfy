/** Capturing a process's output up to a number of bytes. */
module BoundedCapture {
  import opened Utf8

  function Width(c: char): nat {
    |EncodeChar(c)|
  }

  datatype Captured = Captured(text: string, bytes: nat, truncated: bool)

  /** How many characters from the front fit. */
  function FitCount(value: string, maxBytes: nat): (n: nat)
    ensures n <= |value|
  {
    if value == "" || Width(value[0]) > maxBytes then 0 else 1 + FitCount(value[1..], maxBytes - Width(value[0]))
  }

  lemma {:induction false} FitFacts(value: string, maxBytes: nat)
    ensures var n := FitCount(value, maxBytes);
      && |Encode(value[..n])| <= maxBytes
      && (n < |value| ==> |Encode(value[..n])| + Width(value[n]) > maxBytes)
    ensures |Encode(value)| <= maxBytes ==> FitCount(value, maxBytes) == |value|
  {
    if value != "" && Width(value[0]) <= maxBytes {
      var n := FitCount(value, maxBytes);
      FitFacts(value[1..], maxBytes - Width(value[0]));
      assert value[..n][1..] == value[1..][..n - 1] && value[..n][0] == value[0];
    }
  }

  /** The longest prefix that fits, found character by character. */
  method Utf8Prefix(value: string, maxBytes: nat) returns (text: string, bytes: nat)
    ensures text <= value && bytes == |Encode(text)| <= maxBytes
    ensures |text| < |value| ==> bytes + Width(value[|text|]) > maxBytes
    ensures |text| == FitCount(value, maxBytes)
  {
    text, bytes := "", 0;
    var i := 0;
    while i < |value|
      invariant i <= |value| && text == value[..i] && bytes == |Encode(text)| <= maxBytes
      invariant FitCount(value, maxBytes) == i + FitCount(value[i..], maxBytes - bytes)
    {
      var charBytes := |EncodeChar(value[i])|;
      FitStep(value, i, maxBytes - bytes);
      if bytes + charBytes > maxBytes {
        break;
      }
      EncodeLast(text, value[i]);
      assert value[..i + 1] == value[..i] + [value[i]];
      text, bytes, i := text + [value[i]], bytes + charBytes, i + 1;
    }
    FitFacts(value, maxBytes);
    assert value[..|value|] == value;
  }

  lemma FitStep(value: string, i: nat, left: nat)
    requires i < |value|
    ensures FitCount(value[i..], left) ==
      if Width(value[i]) > left then 0 else 1 + FitCount(value[i + 1..], left - Width(value[i]))
  {
    assert value[i..][1..] == value[i + 1..];
  }

  lemma EncodeLast(text: string, c: char)
    ensures |Encode(text + [c])| == |Encode(text)| + Width(c)
  {
    EncodeConcat(text, [c]);
    assert [c][1..] == "";
  }

  /** What one chunk adds to the text so far. */
  function Added(c: Captured, chunk: string, maxBytes: nat): string {
    if c.bytes >= maxBytes then "" else chunk[..FitCount(chunk, maxBytes - c.bytes)]
  }

  function Append(c: Captured, chunk: string, maxBytes: nat): Captured {
    var added := Added(c, chunk, maxBytes);
    Captured(c.text + added, c.bytes + |Encode(added)|, c.truncated || c.bytes >= maxBytes || added != chunk)
  }

  method AppendBoundedUtf8(c: Captured, chunk: string, maxBytes: nat) returns (r: Captured)
    ensures r == Append(c, chunk, maxBytes)
  {
    if c.bytes >= maxBytes {
      return Captured(c.text, c.bytes, true);
    }
    var chunkBytes := |Encode(chunk)|;
    FitFacts(chunk, maxBytes - c.bytes);
    assert chunk[..|chunk|] == chunk;
    if c.bytes + chunkBytes <= maxBytes {
      return Captured(c.text + chunk, c.bytes + chunkBytes, c.truncated);
    }
    var text, bytes := Utf8Prefix(chunk, maxBytes - c.bytes);
    assert text == chunk[..FitCount(chunk, maxBytes - c.bytes)] && text != chunk;
    return Captured(c.text + text, c.bytes + bytes, true);
  }

  const NOTHING := Captured("", 0, false)

  /** What `runGit` keeps of one output stream. */
  class Output {
    const maxBytes: nat
    var text: string
    var bytes: nat
    var truncated: bool

    constructor (maxBytes: nat)
      ensures this.maxBytes == maxBytes && Contents() == NOTHING
    {
      this.maxBytes := maxBytes;
      text, bytes, truncated := "", 0, false;
    }

    function Contents(): Captured
      reads this
    {
      Captured(text, bytes, truncated)
    }

    method OnData(chunk: string)
      modifies this
      ensures Contents() == Append(old(Contents()), chunk, maxBytes)
    {
      var appended := AppendBoundedUtf8(Contents(), chunk, maxBytes);
      text, bytes, truncated := appended.text, appended.bytes, appended.truncated;
    }
  }

  function Capture(c: Captured, chunks: seq<string>, maxBytes: nat): Captured
    decreases |chunks|
  {
    if chunks == [] then c else Capture(Append(c, chunks[0], maxBytes), chunks[1..], maxBytes)
  }

  function Stream(chunks: seq<string>): string {
    if chunks == [] then "" else chunks[0] + Stream(chunks[1..])
  }

  predicate Subsequence(a: string, b: string) {
    a == "" || (b != "" && (Subsequence(a, b[1..]) || (a[0] == b[0] && Subsequence(a[1..], b[1..]))))
  }

  lemma {:induction false} SubsequenceExtends(a: string, b: string, p: string, n: nat)
    requires Subsequence(a, b) && n <= |p|
    ensures Subsequence(p[..n] + a, p + b)
    decreases |p|
  {
    if p == "" {
      assert p[..n] + a == a && p + b == b;
    } else if n == 0 {
      SubsequenceExtends(a, b, p[1..], 0);
      assert p[..0] + a == a && p[1..][..0] + a == a && (p + b)[1..] == p[1..] + b;
    } else {
      SubsequenceExtends(a, b, p[1..], n - 1);
      assert (p[..n] + a)[1..] == p[1..][..n - 1] + a && (p + b)[1..] == p[1..] + b;
    }
  }

  /** The captured text after the chunks: what it had, then a subsequence of the stream; the count is exact,
      the limit is kept, and with nonempty chunks the flag says exactly whether something was dropped. */
  lemma {:induction false} CaptureFacts(c: Captured, chunks: seq<string>, maxBytes: nat) returns (tail: string)
    requires c.bytes == |Encode(c.text)| <= maxBytes
    requires forall i :: 0 <= i < |chunks| ==> chunks[i] != ""
    ensures var r := Capture(c, chunks, maxBytes);
      && r.text == c.text + tail && Subsequence(tail, Stream(chunks)) && |tail| <= |Stream(chunks)|
      && r.bytes == |Encode(r.text)| <= maxBytes
      && (r.truncated <==> c.truncated || tail != Stream(chunks))
    decreases |chunks|
  {
    if chunks == [] {
      tail := "";
      assert c.text + "" == c.text;
    } else {
      var chunk := chunks[0];
      var next := Append(c, chunk, maxBytes);
      var n := |Added(c, chunk, maxBytes)|;
      OneChunk(c, chunk, maxBytes);
      var more := CaptureFacts(next, chunks[1..], maxBytes);
      tail := chunk[..n] + more;
      SubsequenceExtends(more, Stream(chunks[1..]), chunk, n);
      assert c.text + chunk[..n] + more == c.text + tail;
      if n == |chunk| {
        assert chunk[..n] == chunk;
        assert tail[|chunk|..] == more && (chunk + Stream(chunks[1..]))[|chunk|..] == Stream(chunks[1..]);
      } else {
        assert |tail| < |chunk + Stream(chunks[1..])|;
      }
    }
  }

  lemma OneChunk(c: Captured, chunk: string, maxBytes: nat)
    requires c.bytes == |Encode(c.text)| <= maxBytes && chunk != ""
    ensures var r := Append(c, chunk, maxBytes); var n := |Added(c, chunk, maxBytes)|;
      && r.bytes == |Encode(r.text)| <= maxBytes && r.text == c.text + chunk[..n] && n <= |chunk|
      && (r.truncated <==> c.truncated || n < |chunk|)
  {
    var added := Added(c, chunk, maxBytes);
    EncodeConcat(c.text, added);
    if c.bytes < maxBytes {
      FitFacts(chunk, maxBytes - c.bytes);
      assert added == chunk <==> |added| == |chunk|;
    } else {
      assert chunk[..0] == "";
    }
  }

  /** The whole capture of a stream of nonempty chunks. */
  lemma CaptureIsBounded(chunks: seq<string>, maxBytes: nat)
    requires forall i :: 0 <= i < |chunks| ==> chunks[i] != ""
    ensures var r := Capture(NOTHING, chunks, maxBytes);
      && r.bytes == |Encode(r.text)| <= maxBytes && Subsequence(r.text, Stream(chunks))
      && (r.truncated <==> r.text != Stream(chunks))
  {
    var tail := CaptureFacts(NOTHING, chunks, maxBytes);
    assert "" + tail == tail;
  }

  // ---- when the text is a prefix of the stream ----

  /** After the first chunk that did not fit, every later chunk starts with a character too wide for the gap. */
  predicate GapStaysClosed(c: Captured, chunks: seq<string>, maxBytes: nat)
    requires c.bytes <= maxBytes
    decreases |chunks|
  {
    chunks == [] ||
      (if c.truncated then chunks[0] != "" && Width(chunks[0][0]) > maxBytes - c.bytes
        && GapStaysClosed(c, chunks[1..], maxBytes)
       else
         var next := Append(c, chunks[0], maxBytes);
         next.bytes <= maxBytes && GapStaysClosed(next, chunks[1..], maxBytes))
  }

  lemma {:induction false} ClosedGapAddsNothing(c: Captured, chunks: seq<string>, maxBytes: nat)
    requires c.bytes == |Encode(c.text)| <= maxBytes && c.truncated
    requires forall i :: 0 <= i < |chunks| ==> chunks[i] != ""
    ensures Capture(c, chunks, maxBytes).text == c.text <==> GapStaysClosed(c, chunks, maxBytes)
    decreases |chunks|
  {
    if chunks != [] {
      var next := Append(c, chunks[0], maxBytes);
      OneChunk(c, chunks[0], maxBytes);
      if Width(chunks[0][0]) > maxBytes - c.bytes {
        assert Added(c, chunks[0], maxBytes) == "";
        assert next.text == c.text && next == c;
        ClosedGapAddsNothing(c, chunks[1..], maxBytes);
      } else {
        var tail := CaptureFacts(next, chunks[1..], maxBytes);
        assert |next.text| > |c.text|;
      }
    }
  }

  /** The captured text is a prefix of the stream exactly when no later chunk squeezes into the gap that a
      wide character left. */
  lemma {:induction false} PrefixExactlyWhenGapStaysClosed(c: Captured, chunks: seq<string>, maxBytes: nat)
    requires c.bytes == |Encode(c.text)| <= maxBytes && !c.truncated
    requires forall i :: 0 <= i < |chunks| ==> chunks[i] != ""
    ensures Capture(c, chunks, maxBytes).text <= c.text + Stream(chunks) <==> GapStaysClosed(c, chunks, maxBytes)
    decreases |chunks|
  {
    if chunks == [] {
      assert c.text + "" == c.text;
    } else {
      var chunk, rest := chunks[0], chunks[1..];
      var next := Append(c, chunk, maxBytes);
      OneChunk(c, chunk, maxBytes);
      if !next.truncated {
        assert Added(c, chunk, maxBytes) == chunk;
        PrefixExactlyWhenGapStaysClosed(next, rest, maxBytes);
        assert c.text + chunk + Stream(rest) == c.text + Stream(chunks);
      } else {
        DroppedCharacterIsWide(c, chunk, rest, maxBytes);
        ClosedGapAddsNothing(next, rest, maxBytes);
      }
    }
  }

  /** Anything captured after a dropped character differs from it: it is narrower. */
  lemma DroppedCharacterIsWide(c: Captured, chunk: string, rest: seq<string>, maxBytes: nat)
    requires c.bytes == |Encode(c.text)| <= maxBytes && chunk != "" && Append(c, chunk, maxBytes).truncated
      && !c.truncated
    requires forall i :: 0 <= i < |rest| ==> rest[i] != ""
    ensures var next := Append(c, chunk, maxBytes);
      Capture(next, rest, maxBytes).text <= c.text + (chunk + Stream(rest)) <==>
        Capture(next, rest, maxBytes).text == next.text
  {
    var next := Append(c, chunk, maxBytes);
    var n := |Added(c, chunk, maxBytes)|;
    OneChunk(c, chunk, maxBytes);
    var tail := CaptureFacts(next, rest, maxBytes);
    var whole := c.text + (chunk + Stream(rest));
    var text := Capture(next, rest, maxBytes).text;
    assert n < |chunk|;
    assert whole[..|next.text|] == next.text;
    if tail == "" {
      assert text == next.text;
    } else {
      WidthBound(next.text, tail);
      assert Width(tail[0]) <= maxBytes - next.bytes;
      NextDoesNotFit(c, chunk, maxBytes);
      assert whole[|next.text|] == chunk[n];
      assert text[|next.text|] == tail[0];
    }
  }

  lemma WidthBound(text: string, tail: string)
    requires tail != ""
    ensures |Encode(text + tail)| >= |Encode(text)| + Width(tail[0])
  {
    EncodeConcat(text, tail);
  }

  lemma NextDoesNotFit(c: Captured, chunk: string, maxBytes: nat)
    requires c.bytes == |Encode(c.text)| <= maxBytes && |Added(c, chunk, maxBytes)| < |chunk|
    ensures var n := |Added(c, chunk, maxBytes)|; Append(c, chunk, maxBytes).bytes + Width(chunk[n]) > maxBytes
  {
    if c.bytes < maxBytes {
      FitFacts(chunk, maxBytes - c.bytes);
    }
  }

  /** A character too wide for the last byte is dropped, and a one-byte one after it still fits: the text
      skips the wide character. */
  lemma CaptureCanSkip(start: string, wide: char, narrow: char, maxBytes: nat)
    requires start != "" && |Encode(start)| == maxBytes - 1 && Width(wide) > 1 && Width(narrow) == 1
    ensures Capture(NOTHING, [start, [wide], [narrow]], maxBytes).text == start + [narrow]
  {
    var chunks := [start, [wide], [narrow]];
    var c1 := Append(NOTHING, start, maxBytes);
    FitFacts(start, maxBytes);
    assert start[..|start|] == start && "" + start == start;
    assert c1 == Captured(start, maxBytes - 1, false);
    var c2 := Append(c1, [wide], maxBytes);
    NothingFits(wide, 1);
    assert c2 == Captured(start, maxBytes - 1, true);
    var c3 := Append(c2, [narrow], maxBytes);
    OneFits(narrow, 1);
    assert c3.text == start + [narrow];
    ThreeChunks(chunks, c1, c2, c3, maxBytes);
  }

  lemma NothingFits(c: char, left: nat)
    requires Width(c) > left
    ensures FitCount([c], left) == 0 && [c][..0] == "" && Encode("") == []
  {
  }

  lemma OneFits(c: char, left: nat)
    requires Width(c) <= left
    ensures FitCount([c], left) == 1 && [c][..1] == [c]
  {
    assert [c][1..] == "";
  }

  lemma ThreeChunks(chunks: seq<string>, c1: Captured, c2: Captured, c3: Captured, maxBytes: nat)
    requires |chunks| == 3 && c1 == Append(NOTHING, chunks[0], maxBytes)
    requires c2 == Append(c1, chunks[1], maxBytes) && c3 == Append(c2, chunks[2], maxBytes)
    ensures Capture(NOTHING, chunks, maxBytes) == c3
  {
    assert chunks[1..][0] == chunks[1] && chunks[1..][1..] == [chunks[2]] && [chunks[2]][1..] == [];
    assert Capture(c2, [chunks[2]], maxBytes) == c3;
  }


  /** After any chunk, empty ones too, the flag is set exactly when it was, or the limit was reached before, or the
      chunk does not fit. */
  lemma FlagAfterChunk(c: Captured, chunk: string, maxBytes: nat)
    ensures Append(c, chunk, maxBytes).truncated <==>
      c.truncated || c.bytes >= maxBytes || c.bytes + |Encode(chunk)| > maxBytes
  {
    if c.bytes < maxBytes {
      FitFacts(chunk, maxBytes - c.bytes);
      assert chunk[..|chunk|] == chunk;
    }
  }
}
