/** UTF-8 as section 3 of RFC 3629 defines it. A Dafny `char` is a Unicode scalar value, so a
    `string` here is what Node holds after decoding a file as UTF-8. */
module Utf8 {
  import opened Wrappers

  type byte = x: int | 0 <= x < 256

  /** The bit test `(b & 0xc0) === 0x80`, written as a range. */
  predicate IsContinuation(b: byte) {
    0x80 <= b < 0xC0
  }

  function EncodeChar(c: char): (bytes: seq<byte>)
    ensures 1 <= |bytes| <= 4
    ensures !IsContinuation(bytes[0])
    ensures forall i :: 1 <= i < |bytes| ==> IsContinuation(bytes[i])
  {
    var v := c as int;
    var q := v / 64;
    if v < 0x80 then [v]
    else if v < 0x800 then [0xC0 + q, 0x80 + v % 64]
    else if v < 0x10000 then [0xE0 + q / 64, 0x80 + q % 64, 0x80 + v % 64]
    else [0xF0 + q / 64 / 64, 0x80 + q / 64 % 64, 0x80 + q % 64, 0x80 + v % 64]
  }

  function Encode(text: string): seq<byte> {
    if text == "" then [] else EncodeChar(text[0]) + Encode(text[1..])
  }

  /** Appends the six payload bits of a continuation byte. */
  function Push(v: nat, b: byte): nat
    requires IsContinuation(b)
  {
    v * 64 + (b as int - 0x80)
  }

  predicate Continues(b: seq<byte>, n: nat) {
    |b| > n && forall i :: 1 <= i <= n ==> IsContinuation(b[i])
  }

  /** The first character of a byte string and its length in bytes; overlong forms, surrogates
      and stray continuation bytes are refused. */
  function DecodeChar(b: seq<byte>): (r: Option<(char, nat)>)
    requires b != []
    ensures r.Some? ==> 1 <= r.value.1 <= |b|
  {
    var lead: int := b[0];
    if lead < 0x80 then Some((lead as char, 1))
    else if 0xC2 <= lead < 0xE0 && Continues(b, 1) then
      Some((Push(lead - 0xC0, b[1]) as char, 2))
    else if 0xE0 <= lead < 0xF0 && Continues(b, 2) then
      var v := Push(Push(lead - 0xE0, b[1]), b[2]);
      if 0x800 <= v < 0xD800 || 0xE000 <= v then Some((v as char, 3)) else None
    else if 0xF0 <= lead < 0xF5 && Continues(b, 3) then
      var v := Push(Push(Push(lead - 0xF0, b[1]), b[2]), b[3]);
      if 0x10000 <= v < 0x110000 then Some((v as char, 4)) else None
    else None
  }

  function Decode(b: seq<byte>): Option<string> {
    if b == [] then Some("")
    else match DecodeChar(b)
      case None => None
      case Some(first) =>
        match Decode(b[first.1..])
        case None => None
        case Some(rest) => Some([first.0] + rest)
  }

  predicate Valid(b: seq<byte>) {
    Decode(b).Some?
  }

  function Text(b: seq<byte>): string
    requires Valid(b)
  {
    Decode(b).value
  }

  /** A position between two characters (or at either end). */
  predicate Boundary(b: seq<byte>, i: int) {
    0 <= i <= |b| && (i == 0 || i == |b| || !IsContinuation(b[i]))
  }

  lemma PushSplits(q: nat, b: byte)
    requires IsContinuation(b)
    ensures Push(q, b) / 64 == q && Push(q, b) % 64 == b - 0x80
  {
  }

  lemma DecodeCharInvertsEncodeChar(c: char, rest: seq<byte>)
    ensures DecodeChar(EncodeChar(c) + rest) == Some((c, |EncodeChar(c)|))
  {
    var e := EncodeChar(c);
    var b := e + rest;
    assert b[0] == e[0] && forall i :: 1 <= i < |e| ==> b[i] == e[i];
  }

  lemma EncodeCharInvertsDecodeChar(b: seq<byte>)
    requires b != [] && DecodeChar(b).Some?
    ensures EncodeChar(DecodeChar(b).value.0) == b[..DecodeChar(b).value.1]
  {
    var lead: int := b[0];
    if 0xC2 <= lead < 0xE0 {
      PushSplits(lead - 0xC0, b[1]);
    } else if 0xE0 <= lead < 0xF0 {
      PushSplits(lead - 0xE0, b[1]);
      PushSplits(Push(lead - 0xE0, b[1]), b[2]);
    } else if 0xF0 <= lead {
      PushSplits(lead - 0xF0, b[1]);
      PushSplits(Push(lead - 0xF0, b[1]), b[2]);
      PushSplits(Push(Push(lead - 0xF0, b[1]), b[2]), b[3]);
    }
  }

  /** Decoding takes one whole character off the front, and what follows it starts a character. */
  lemma DecodeStep(b: seq<byte>)
    requires b != [] && Valid(b)
    ensures DecodeChar(b).Some?
    ensures var (c, n) := DecodeChar(b).value;
      && b[..n] == EncodeChar(c)
      && Valid(b[n..]) && Text(b) == [c] + Text(b[n..])
      && (n < |b| ==> !IsContinuation(b[n]))
  {
    EncodeCharInvertsDecodeChar(b);
    var n := DecodeChar(b).value.1;
    assert Valid(b[n..]);
    if n < |b| {
      var tail := b[n..];
      assert tail != [] && Decode(tail) != None;
      assert DecodeChar(tail).Some? && tail[0] == b[n];
    }
  }

  lemma EncodeStep(c: char, rest: seq<byte>)
    requires Valid(rest)
    ensures Valid(EncodeChar(c) + rest) && Text(EncodeChar(c) + rest) == [c] + Text(rest)
  {
    DecodeCharInvertsEncodeChar(c, rest);
    assert (EncodeChar(c) + rest)[|EncodeChar(c)|..] == rest;
  }

  lemma {:induction false} DecodeEncode(text: string)
    ensures Decode(Encode(text)) == Some(text)
  {
    if text != "" {
      DecodeEncode(text[1..]);
      EncodeStep(text[0], Encode(text[1..]));
      assert Text(Encode(text)) == [text[0]] + text[1..] == text;
    }
  }

  lemma {:induction false} EncodeDecode(b: seq<byte>)
    requires Valid(b)
    ensures Encode(Text(b)) == b
  {
    if b != [] {
      DecodeStep(b);
      var n := DecodeChar(b).value.1;
      EncodeDecode(b[n..]);
      assert Text(b)[1..] == Text(b[n..]);
      assert b == b[..n] + b[n..];
    }
  }

  lemma {:induction false} EncodeConcat(s: string, t: string)
    ensures Encode(s + t) == Encode(s) + Encode(t)
  {
    if s == "" {
      assert s + t == t;
    } else {
      assert (s + t)[1..] == s[1..] + t;
      EncodeConcat(s[1..], t);
    }
  }

  /** Every boundary of an encoded text lies between two of its characters. */
  lemma {:induction false} BoundaryOfText(text: string, i: nat) returns (k: nat)
    requires Boundary(Encode(text), i)
    ensures k <= |text| && |Encode(text[..k])| == i
  {
    if i == 0 {
      k := 0;
    } else {
      var j := BoundaryOfRest(EncodeChar(text[0]), Encode(text[1..]), i);
      j := BoundaryOfText(text[1..], j);
      k := j + 1;
      assert text[..k][1..] == text[1..][..j];
    }
  }

  lemma BoundaryOfRest(e: seq<byte>, rest: seq<byte>, i: nat) returns (j: nat)
    requires e != [] && i > 0 && Boundary(e + rest, i)
    requires forall k :: 1 <= k < |e| ==> IsContinuation(e[k])
    ensures |e| <= i && j == i - |e| && Boundary(rest, j)
  {
    assert forall k :: 1 <= k < |e| ==> (e + rest)[k] == e[k];
    j := i - |e|;
    assert 0 < j < |rest| ==> (e + rest)[i] == rest[j];
  }

  /** Cutting well-formed UTF-8 at a boundary cuts its text in two. */
  lemma SplitAtBoundary(b: seq<byte>, i: nat)
    requires Valid(b) && Boundary(b, i)
    ensures Valid(b[..i]) && Valid(b[i..])
    ensures Text(b) == Text(b[..i]) + Text(b[i..])
  {
    var text := Text(b);
    EncodeDecode(b);
    var k := BoundaryOfText(text, i);
    EncodeConcat(text[..k], text[k..]);
    assert text == text[..k] + text[k..];
    DecodeEncode(text[..k]);
    DecodeEncode(text[k..]);
  }

  /** A slice between two boundaries decodes on its own. */
  lemma SliceIsValid(b: seq<byte>, i: nat, j: nat)
    requires Valid(b) && Boundary(b, i) && Boundary(b, j) && i <= j
    ensures Valid(b[i..j])
  {
    SplitAtBoundary(b, j);
    SplitAtBoundary(b[..j], i);
    assert b[..j][i..] == b[i..j];
  }

  /** Two slices that meet at a boundary read one after the other. */
  lemma SlicesJoin(b: seq<byte>, i: nat, j: nat, k: nat)
    requires Valid(b) && Boundary(b, i) && Boundary(b, j) && Boundary(b, k) && i <= j <= k
    ensures Valid(b[i..j]) && Valid(b[j..k]) && Valid(b[i..k])
    ensures Text(b[i..k]) == Text(b[i..j]) + Text(b[j..k])
  {
    SliceIsValid(b, i, k);
    var s := b[i..k];
    assert j < k ==> s[j - i] == b[j];
    SplitAtBoundary(s, j - i);
    SliceOfSlice(b, i, j, k);
  }

  lemma SliceOfSlice(b: seq<byte>, i: nat, j: nat, k: nat)
    requires i <= j <= k <= |b|
    ensures b[i..k][..j - i] == b[i..j] && b[i..k][j - i..] == b[j..k]
  {
  }

  /** The next boundary is one character, so at most four bytes, away. */
  lemma NextBoundary(b: seq<byte>, i: nat) returns (k: nat, c: char)
    requires Valid(b) && Boundary(b, i) && i < |b|
    ensures i < k <= i + 4 && Boundary(b, k) && b[i..k] == EncodeChar(c)
    ensures forall j :: i < j < k ==> !Boundary(b, j)
  {
    SplitAtBoundary(b, i);
    var rest := b[i..];
    DecodeStep(rest);
    c := DecodeChar(rest).value.0;
    var n := DecodeChar(rest).value.1;
    k := i + n;
    assert b[i..k] == rest[..n];
    assert k < |b| ==> rest[n] == b[k];
    assert forall j :: i < j < k ==> b[j] == b[i..k][j - i];
  }


  // ---- the order of the bytes ----

  /** The bytes of `a` come before those of `b` at their first difference. */
  ghost predicate BytesBefore(a: seq<byte>, b: seq<byte>) {
    exists n: nat :: n < |a| && FirstDiffer(a, b, n)
  }

  predicate FirstDiffer(a: seq<byte>, b: seq<byte>, n: nat)
    requires n < |a|
  {
    n < |b| && a[..n] == b[..n] && a[n] < b[n]
  }

  /** The bytes of characters are ordered as their numbers are, and take the lengths of the standard's table. */
  lemma CharsKeepOrder(c: char, d: char)
    requires c < d
    ensures BytesBefore(EncodeChar(c), EncodeChar(d))
  {
    var a, b := EncodeChar(c), EncodeChar(d);
    var n := if a[0] < b[0] then 0 else if a[1] < b[1] then 1 else if a[2] < b[2] then 2 else 3;
    assert FirstDiffer(a, b, n);
  }

  lemma LengthOfChar(c: char)
    ensures var v := c as int;
      |EncodeChar(c)| == if v <= 0x7F then 1 else if v <= 0x7FF then 2 else if v <= 0xFFFF then 3 else 4
    ensures c as int <= 0x7F ==> EncodeChar(c) == [c as int]
  {
  }
}
