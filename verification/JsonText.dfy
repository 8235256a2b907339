/** JSON string literals as `JSON.stringify` prints them (section 7 of RFC 8259). */
module JsonText {
  import opened Utf8

  function HexDigit(n: nat): char
    requires n < 16
  {
    "0123456789abcdef"[n]
  }

  /** The printed form of one character inside a string literal. */
  function EscapeChar(c: char): string {
    if c == '\"' then "\\\""
    else if c == '\\' then "\\\\"
    else if c == 8 as char then "\\b"
    else if c == 9 as char then "\\t"
    else if c == 10 as char then "\\n"
    else if c == 12 as char then "\\f"
    else if c == 13 as char then "\\r"
    else if c < ' ' then ['\\', 'u', '0', '0', HexDigit(c as int / 16), HexDigit(c as int % 16)]
    else [c]
  }

  function Escape(text: string): string {
    if text == "" then "" else EscapeChar(text[0]) + Escape(text[1..])
  }

  function Quote(text: string): string {
    "\"" + Escape(text) + "\""
  }

  /** Bytes one content byte costs inside the quoted text. Only ASCII bytes are ever escaped, so
      the cost of a text is the sum of the costs of its bytes. */
  function Cost(b: byte): nat {
    if b == 0x22 || b == 0x5C || 8 <= b <= 10 || b == 12 || b == 13 then 2
    else if b < 0x20 then 6
    else 1
  }

  function TotalCost(b: seq<byte>): nat {
    if b == [] then 0 else Cost(b[0]) + TotalCost(b[1..])
  }

  lemma {:induction false} CostAdds(a: seq<byte>, b: seq<byte>)
    ensures TotalCost(a + b) == TotalCost(a) + TotalCost(b)
  {
    if a == [] {
      assert a + b == b;
    } else {
      assert (a + b)[1..] == a[1..] + b;
      CostAdds(a[1..], b);
    }
  }

  lemma {:induction false} CostBounds(b: seq<byte>)
    ensures |b| <= TotalCost(b) <= 6 * |b|
  {
    if b != [] {
      CostBounds(b[1..]);
    }
  }

  lemma CharCost(c: char)
    ensures |Encode(EscapeChar(c))| == TotalCost(EncodeChar(c)) <= 6
  {
    var e, x := EscapeChar(c), EncodeChar(c);
    if c as int >= 0x80 {
      PlainBytesCostOne(x);
      assert e == [c] && e[1..] == "";
    } else {
      assert x[1..] == [];
      AsciiLength(e);
    }
  }

  lemma {:induction false} PlainBytesCostOne(b: seq<byte>)
    requires forall i :: 0 <= i < |b| ==> Cost(b[i]) == 1
    ensures TotalCost(b) == |b|
  {
    if b != [] {
      PlainBytesCostOne(b[1..]);
    }
  }

  lemma {:induction false} AsciiLength(s: string)
    requires forall i :: 0 <= i < |s| ==> s[i] as int < 0x80
    ensures |Encode(s)| == |s| && forall i :: 0 <= i < |s| ==> Encode(s)[i] == s[i] as int
  {
    if s != "" {
      AsciiLength(s[1..]);
    }
  }

  /** The printed length of a text is the cost of its bytes plus the two quotes: additive, and so
      monotone, in the bytes printed. */
  lemma QuotedLength(text: string)
    ensures |Encode(Quote(text))| == TotalCost(Encode(text)) + 2
  {
    EscapedLength(text);
    EncodeConcat("\"", Escape(text));
    EncodeConcat("\"" + Escape(text), "\"");
    AsciiLength("\"");
  }

  lemma {:induction false} EscapedLength(text: string)
    ensures |Encode(Escape(text))| == TotalCost(Encode(text))
  {
    if text != "" {
      EscapedLength(text[1..]);
      CharCost(text[0]);
      EncodeConcat(EscapeChar(text[0]), Escape(text[1..]));
      CostAdds(EncodeChar(text[0]), Encode(text[1..]));
    }
  }


  /** The escapes with a letter of their own; any other control character is four small hexadecimal digits. */
  lemma EscapesAre(c: char)
    ensures EscapeChar('\"') == "\\\"" && EscapeChar('\\') == "\\\\"
    ensures EscapeChar(8 as char) == "\\b" && EscapeChar('\t') == "\\t" && EscapeChar('\n') == "\\n"
    ensures EscapeChar(12 as char) == "\\f" && EscapeChar('\r') == "\\r"
    ensures c < ' ' && |EscapeChar(c)| != 2 ==>
      |EscapeChar(c)| == 6 && EscapeChar(c)[..4] == "\\u00" && forall x :: x in EscapeChar(c) ==> !('A' <= x <= 'Z')
    ensures c >= ' ' && c != '\"' && c != '\\' ==> EscapeChar(c) == [c]
  {
  }
}
