/** The unpadded base64url text of section 5 of RFC 4648. */
module Base64Url {
  import opened Utf8
  import opened Wrappers

  type Sextet = x: int | 0 <= x < 64

  function CharOf(v: Sextet): char {
    if v < 26 then (65 + v as int) as char
    else if v < 52 then (71 + v as int) as char
    else if v < 62 then (v as int - 4) as char
    else if v == 62 then '-'
    else '_'
  }

  function ValueOf(c: char): (r: Option<Sextet>) {
    if 'A' <= c <= 'Z' then Some(c as int - 65)
    else if 'a' <= c <= 'z' then Some(c as int - 71)
    else if '0' <= c <= '9' then Some(c as int + 4)
    else if c == '-' then Some(62)
    else if c == '_' then Some(63)
    else None
  }

  /** Three bytes become four six-bit values; one or two bytes at the end become two or three. */
  function Sextets(b: seq<byte>): seq<Sextet> {
    if b == [] then []
    else if |b| == 1 then [b[0] / 4, b[0] % 4 * 16]
    else if |b| == 2 then [b[0] / 4, b[0] % 4 * 16 + b[1] / 16, b[1] % 16 * 4]
    else
      [b[0] / 4, b[0] % 4 * 16 + b[1] / 16, b[1] % 16 * 4 + b[2] / 64, b[2] % 64] + Sextets(b[3..])
  }

  function High(a: Sextet, b: Sextet): byte {
    a as int * 4 + b as int / 16
  }

  function Middle(b: Sextet, c: Sextet): byte {
    b as int % 16 * 16 + c as int / 4
  }

  function Low(c: Sextet, d: Sextet): byte {
    c as int % 4 * 64 + d as int
  }

  function Bytes(v: seq<Sextet>): Option<seq<byte>> {
    if v == [] then Some([])
    else if |v| == 1 then None
    else if |v| == 2 then Some([High(v[0], v[1])])
    else if |v| == 3 then Some([High(v[0], v[1]), Middle(v[1], v[2])])
    else match Bytes(v[4..])
      case None => None
      case Some(rest) => Some([High(v[0], v[1]), Middle(v[1], v[2]), Low(v[2], v[3])] + rest)
  }

  function Chars(v: seq<Sextet>): string {
    if v == [] then "" else [CharOf(v[0])] + Chars(v[1..])
  }

  function Values(s: string): Option<seq<Sextet>> {
    if s == "" then Some([])
    else match (ValueOf(s[0]), Values(s[1..]))
      case (Some(v), Some(rest)) => Some([v] + rest)
      case _ => None
  }

  function EncodeBytes(b: seq<byte>): string {
    Chars(Sextets(b))
  }

  function DecodeText(s: string): Option<seq<byte>> {
    match Values(s)
    case None => None
    case Some(v) => Bytes(v)
  }

  predicate IsBase64Url(s: string) {
    forall i :: 0 <= i < |s| ==> ValueOf(s[i]).Some?
  }

  lemma {:induction false} CharsReadBack(v: seq<Sextet>)
    ensures Values(Chars(v)) == Some(v) && IsBase64Url(Chars(v))
  {
    if v != [] {
      assert ValueOf(CharOf(v[0])) == Some(v[0]);
      CharsReadBack(v[1..]);
      assert Chars(v)[1..] == Chars(v[1..]) && [v[0]] + v[1..] == v;
    }
  }

  /** Four values give back their three bytes. */
  lemma GroupReadsBack(x: byte, y: byte, z: byte)
    ensures High(x / 4, x % 4 * 16 + y / 16) == x
    ensures Middle(x % 4 * 16 + y / 16, y % 16 * 4 + z / 64) == y
    ensures Low(y % 16 * 4 + z / 64, z % 64) == z
    ensures Middle(x % 4 * 16 + y / 16, y % 16 * 4) == y
    ensures High(x / 4, x % 4 * 16) == x
  {
  }

  lemma {:induction false} SextetsReadBack(b: seq<byte>)
    ensures Bytes(Sextets(b)) == Some(b)
  {
    if |b| >= 3 {
      var v := Sextets(b);
      GroupReadsBack(b[0], b[1], b[2]);
      assert v[4..] == Sextets(b[3..]) && |v| >= 4;
      SextetsReadBack(b[3..]);
      assert Bytes(v) == Some([b[0], b[1], b[2]] + b[3..]);
      assert b == [b[0], b[1], b[2]] + b[3..];
    } else if |b| == 1 {
      GroupReadsBack(b[0], 0, 0);
      assert b == [b[0]];
    } else if |b| == 2 {
      GroupReadsBack(b[0], b[1], 0);
      assert b == [b[0], b[1]];
    }
  }

  /** Decoding undoes encoding, and the text stays inside the alphabet. */
  lemma RoundTrip(b: seq<byte>)
    ensures DecodeText(EncodeBytes(b)) == Some(b)
    ensures IsBase64Url(EncodeBytes(b))
  {
    CharsReadBack(Sextets(b));
    SextetsReadBack(b);
  }


  // ---- the bits and the characters ----

  /** The number that values of six bits write, most significant first. */
  function SextetNumber(v: seq<Sextet>): nat {
    if v == [] then 0 else SextetNumber(v[..|v| - 1]) * 64 + v[|v| - 1] as nat
  }

  function ByteNumber(b: seq<byte>): nat {
    if b == [] then 0 else ByteNumber(b[..|b| - 1]) * 256 + b[|b| - 1] as nat
  }

  lemma SextetNumberOf(p: Sextet, q: Sextet, r: Sextet, s: Sextet)
    ensures SextetNumber([p, q]) == p as int * 64 + q as int
    ensures SextetNumber([p, q, r]) == (p as int * 64 + q as int) * 64 + r as int
    ensures SextetNumber([p, q, r, s]) == ((p as int * 64 + q as int) * 64 + r as int) * 64 + s as int
  {
    assert [p][..0] == [];
    assert SextetNumber([p]) == p as int;
    assert [p, q][..1] == [p];
    assert [p, q, r][..2] == [p, q] && [p, q, r, s][..3] == [p, q, r];
  }

  lemma ByteNumberOf(x: byte, y: byte, z: byte)
    ensures ByteNumber([x]) == x as int && ByteNumber([x, y]) == x as int * 256 + y as int
    ensures ByteNumber([x, y, z]) == (x as int * 256 + y as int) * 256 + z as int
  {
    assert [x][..0] == [] && [x, y][..1] == [x] && [x, y, z][..2] == [x, y];
  }

  /** A group of bytes and its group of values write the same number, but for the zero bits that fill up the last
      value of a short group. */
  lemma GroupIsNumber(b: seq<byte>)
    requires 1 <= |b| <= 3
    ensures |Sextets(b)| == |b| + 1
    ensures SextetNumber(Sextets(b)) == ByteNumber(b) * (if |b| == 1 then 16 else if |b| == 2 then 4 else 1)
  {
    if |b| == 1 {
      GroupOfOne(b[0]);
      assert b == [b[0]];
    } else if |b| == 2 {
      GroupOfTwo(b[0], b[1]);
      assert b == [b[0], b[1]];
    } else {
      GroupOfThree(b[0], b[1], b[2]);
      assert b == [b[0], b[1], b[2]];
    }
  }

  lemma GroupOfOne(x: byte)
    ensures |Sextets([x])| == 2 && SextetNumber(Sextets([x])) == ByteNumber([x]) * 16
  {
    ByteNumberOf(x, 0, 0);
    SextetNumberOf(x / 4, x % 4 * 16, 0, 0);
  }

  lemma GroupOfTwo(x: byte, y: byte)
    ensures |Sextets([x, y])| == 3 && SextetNumber(Sextets([x, y])) == ByteNumber([x, y]) * 4
  {
    ByteNumberOf(x, y, 0);
    SextetNumberOf(x / 4, x % 4 * 16 + y / 16, y % 16 * 4, 0);
    BitsOfTwo(x, y);
  }

  lemma GroupOfThree(x: byte, y: byte, z: byte)
    ensures |Sextets([x, y, z])| == 4 && SextetNumber(Sextets([x, y, z])) == ByteNumber([x, y, z])
  {
    var b := [x, y, z];
    assert b[3..] == [];
    assert Sextets(b) == [x / 4, x % 4 * 16 + y / 16, y % 16 * 4 + z / 64, z % 64];
    ByteNumberOf(x, y, z);
    SextetNumberOf(x / 4, x % 4 * 16 + y / 16, y % 16 * 4 + z / 64, z % 64);
    BitsOfThree(x, y, z);
  }

  lemma BitsOfTwo(x: int, y: int)
    ensures (x / 4 * 64 + (x % 4 * 16 + y / 16)) * 64 + y % 16 * 4 == (x * 256 + y) * 4
  {
  }

  lemma BitsOfThree(x: int, y: int, z: int)
    ensures ((x / 4 * 64 + (x % 4 * 16 + y / 16)) * 64 + (y % 16 * 4 + z / 64)) * 64 + z % 64 == (x * 256 + y) * 256 + z
  {
  }

  /** Whole groups are encoded one after the other. */
  lemma {:induction false} GroupsFollow(b: seq<byte>, c: seq<byte>)
    requires |b| % 3 == 0
    ensures EncodeBytes(b + c) == EncodeBytes(b) + EncodeBytes(c)
  {
    if b == [] {
      assert b + c == c;
    } else {
      assert (b + c)[3..] == b[3..] + c && (b + c)[..3] == b[..3];
      GroupsFollow(b[3..], c);
      FirstGroup(b);
      FirstGroup(b + c);
    }
  }

  lemma FirstGroup(b: seq<byte>)
    requires |b| >= 3
    ensures EncodeBytes(b) == EncodeBytes(b[..3]) + EncodeBytes(b[3..])
  {
    var g := b[..3];
    assert g[3..] == [];
    assert Sextets(g) == [g[0] / 4, g[0] % 4 * 16 + g[1] / 16, g[1] % 16 * 4 + g[2] / 64, g[2] % 64];
    assert Sextets(b) == Sextets(g) + Sextets(b[3..]);
    CharsAdd(Sextets(g), Sextets(b[3..]));
  }

  lemma {:induction false} CharsAdd(v: seq<Sextet>, w: seq<Sextet>)
    ensures Chars(v + w) == Chars(v) + Chars(w)
  {
    if v == [] {
      assert v + w == w;
    } else {
      assert (v + w)[1..] == v[1..] + w;
      CharsAdd(v[1..], w);
    }
  }

  /** Capitals, small letters, digits, a hyphen and an underscore, in this order. */
  lemma AlphabetInOrder(v: Sextet)
    ensures 0 <= v < 26 ==> CharOf(v) == 'A' + v as char
    ensures 26 <= v < 52 ==> CharOf(v) == 'a' + (v as int - 26) as char
    ensures 52 <= v < 62 ==> CharOf(v) == '0' + (v as int - 52) as char
    ensures CharOf(62) == '-' && CharOf(63) == '_'
  {
  }
}
