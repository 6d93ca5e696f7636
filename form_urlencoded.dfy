/**
 * The parts of `URLSearchParams` that the query builder uses: `set` on the
 * ordered name/value list and `toString`, the application/x-www-form-urlencoded
 * serializer of the WHATWG URL Standard (section 5.2), together with the
 * matching parser (section 5.1) so that the serializer's round trip can be
 * stated.
 */
module FormUrlEncoded {
  import opened JsText

  type Byte = b: int | 0 <= b < 256

  // ---------------------------------------------------------------------
  // UTF-8
  // ---------------------------------------------------------------------

  /** The UTF-8 encoding of one Unicode scalar value. */
  function Utf8(c: char): (r: seq<Byte>)
    ensures 1 <= |r| <= 4
    ensures (c as int) < 0x80 <==> |r| == 1
    ensures (c as int) < 0x80 ==> r == [c as int]
    ensures (c as int) >= 0x80 ==> forall i :: 0 <= i < |r| ==> r[i] >= 0x80
  {
    var n := c as int;
    if n < 0x80 then [n]
    else if n < 0x800 then [0xC0 + n / 64, 0x80 + n % 64]
    else if n < 0x1_0000 then [0xE0 + n / 4096, 0x80 + (n / 64) % 64, 0x80 + n % 64]
    else [0xF0 + n / 262144, 0x80 + (n / 4096) % 64, 0x80 + (n / 64) % 64, 0x80 + n % 64]
  }

  function Utf8Encode(s: string): (r: seq<Byte>)
    ensures |r| >= |s|
  {
    if s == [] then [] else Utf8(s[0]) + Utf8Encode(s[1..])
  }

  lemma {:induction false} Utf8EncodeAppend(a: string, b: string)
    ensures Utf8Encode(a + b) == Utf8Encode(a) + Utf8Encode(b)
  {
    if a == [] {
      assert a + b == b;
    } else {
      assert (a + b)[0] == a[0];
      assert (a + b)[1..] == a[1..] + b;
      Utf8EncodeAppend(a[1..], b);
    }
  }

  predicate IsAscii(s: string) {
    forall i :: 0 <= i < |s| ==> (s[i] as int) < 0x80
  }

  function AsciiBytes(s: string): (r: seq<Byte>)
    requires IsAscii(s)
    ensures |r| == |s|
    ensures forall i :: 0 <= i < |s| ==> r[i] == s[i] as int
  {
    if s == [] then [] else [s[0] as int] + AsciiBytes(s[1..])
  }

  /** An ASCII string is its own UTF-8 encoding, byte for code point. */
  lemma {:induction false} Utf8Ascii(s: string)
    requires IsAscii(s)
    ensures Utf8Encode(s) == AsciiBytes(s)
  {
    if s != [] {
      Utf8Ascii(s[1..]);
    }
  }

  // ---------------------------------------------------------------------
  // Percent-encoding (serializer, section 5.2)
  // ---------------------------------------------------------------------

  /** Bytes left as they are: ASCII alphanumerics and `*`, `-`, `.`, `_`. */
  predicate IsUnreserved(b: Byte) {
    || (0x30 <= b <= 0x39) || (0x41 <= b <= 0x5A) || (0x61 <= b <= 0x7A)
    || b == 0x2A || b == 0x2D || b == 0x2E || b == 0x5F
  }

  /** An upper-case hexadecimal digit. */
  function HexDigit(d: nat): (c: char)
    requires d < 16
    ensures (c as int) < 0x80 && IsHexByte(c as int)
    ensures HexValue(c as int) == d
  {
    if d < 10 then (('0' as int) + d) as char else (('A' as int) + d - 10) as char
  }

  predicate IsHexByte(b: Byte) {
    (0x30 <= b <= 0x39) || (0x41 <= b <= 0x46) || (0x61 <= b <= 0x66)
  }

  function HexValue(b: Byte): (v: nat)
    requires IsHexByte(b)
    ensures v < 16
  {
    if b <= 0x39 then b - 0x30 else if b <= 0x46 then b - 0x41 + 10 else b - 0x61 + 10
  }

  /** One byte of the serializer's output: space as `+`, unreserved bytes as themselves, the rest as `%XX`. */
  function EncodeByte(b: Byte): (r: string)
    ensures IsAscii(r) && '&' !in r && '=' !in r
  {
    if b == 0x20 then "+"
    else if IsUnreserved(b) then [b as char]
    else ['%', HexDigit(b / 16), HexDigit(b % 16)]
  }

  function EncodeBytes(bs: seq<Byte>): (r: string)
    ensures IsAscii(r) && '&' !in r && '=' !in r
  {
    if bs == [] then "" else EncodeByte(bs[0]) + EncodeBytes(bs[1..])
  }

  /** The percent-encoded form of a name or a value. */
  function Encode(s: string): (r: string)
    ensures IsAscii(r) && '&' !in r && '=' !in r
  {
    EncodeBytes(Utf8Encode(s))
  }

  /** Unreserved ASCII text passes through the encoder unchanged. */
  lemma {:induction false} EncodeUnreserved(s: string)
    requires forall i :: 0 <= i < |s| ==> (s[i] as int) < 0x80 && IsUnreserved(s[i] as int)
    ensures Encode(s) == s
  {
    if s != [] {
      EncodeUnreserved(s[1..]);
      assert Utf8Encode(s) == [s[0] as int] + Utf8Encode(s[1..]);
      assert Utf8Encode(s)[1..] == Utf8Encode(s[1..]);
      assert [s[0]] + s[1..] == s;
    }
  }

  // ---------------------------------------------------------------------
  // The name/value list
  // ---------------------------------------------------------------------

  type Pair = (string, string)

  function CountName(pairs: seq<Pair>, name: string): nat {
    if pairs == [] then 0 else (if pairs[0].0 == name then 1 else 0) + CountName(pairs[1..], name)
  }

  function RemoveName(pairs: seq<Pair>, name: string): (r: seq<Pair>)
    ensures CountName(r, name) == 0
    ensures forall p :: p in r <==> p in pairs && p.0 != name
  {
    if pairs == [] then []
    else if pairs[0].0 == name then RemoveName(pairs[1..], name)
    else [pairs[0]] + RemoveName(pairs[1..], name)
  }

  function ReplaceFirst(pairs: seq<Pair>, name: string, value: string): (r: seq<Pair>)
    requires CountName(pairs, name) > 0
    ensures CountName(r, name) == 1
    ensures forall p :: p in r <==> p == (name, value) || (p in pairs && p.0 != name)
  {
    if pairs[0].0 == name then [(name, value)] + RemoveName(pairs[1..], name)
    else [pairs[0]] + ReplaceFirst(pairs[1..], name, value)
  }

  /**
   * `URLSearchParams.set(name, value)`: the first pair with that name gets
   * the value and the others are removed; without such a pair, the pair is
   * appended.
   */
  function SetPair(pairs: seq<Pair>, name: string, value: string): (r: seq<Pair>)
    ensures CountName(r, name) == 1
    ensures forall p :: p in r <==> p == (name, value) || (p in pairs && p.0 != name)
    ensures CountName(pairs, name) == 0 ==> r == pairs + [(name, value)]
  {
    if CountName(pairs, name) == 0 then
      CountNameAppend(pairs, (name, value), name);
      CountNameZero(pairs, name);
      pairs + [(name, value)]
    else ReplaceFirst(pairs, name, value)
  }

  lemma {:induction false} CountNameZero(pairs: seq<Pair>, name: string)
    requires CountName(pairs, name) == 0
    ensures forall p :: p in pairs ==> p.0 != name
  {
    if pairs != [] {
      CountNameZero(pairs[1..], name);
      assert forall p :: p in pairs ==> p == pairs[0] || p in pairs[1..];
    }
  }

  lemma {:induction false} CountNameAppend(pairs: seq<Pair>, p: Pair, name: string)
    ensures CountName(pairs + [p], name) == CountName(pairs, name) + (if p.0 == name then 1 else 0)
  {
    if pairs != [] {
      assert (pairs + [p])[1..] == pairs[1..] + [p];
      CountNameAppend(pairs[1..], p, name);
    }
  }

  function EncodedPairs(pairs: seq<Pair>): (r: seq<string>)
    ensures |r| == |pairs|
    ensures forall i :: 0 <= i < |r| ==> r[i] == Encode(pairs[i].0) + "=" + Encode(pairs[i].1)
  {
    if pairs == [] then [] else [Encode(pairs[0].0) + "=" + Encode(pairs[0].1)] + EncodedPairs(pairs[1..])
  }

  /** `URLSearchParams.toString()`: `name=value` for each pair, in order, joined by `&`. */
  function Serialize(pairs: seq<Pair>): string {
    Join("&", EncodedPairs(pairs))
  }

  // ---------------------------------------------------------------------
  // The parser (section 5.1), for the round trip
  // ---------------------------------------------------------------------

  function PlusToSpace(bs: seq<Byte>): (r: seq<Byte>)
    ensures |r| == |bs|
    ensures forall i :: 0 <= i < |bs| ==> r[i] == if bs[i] == 0x2B then 0x20 else bs[i]
  {
    if bs == [] then [] else [if bs[0] == 0x2B then 0x20 else bs[0]] + PlusToSpace(bs[1..])
  }

  /** Percent-decoding: `%` and two hexadecimal digits become that byte; every other byte is kept. */
  function PercentDecode(bs: seq<Byte>): seq<Byte> {
    if bs == [] then []
    else if |bs| >= 3 && bs[0] == 0x25 && IsHexByte(bs[1]) && IsHexByte(bs[2]) then
      [16 * HexValue(bs[1]) + HexValue(bs[2])] + PercentDecode(bs[3..])
    else [bs[0]] + PercentDecode(bs[1..])
  }

  /** The bytes a serialized name or value stands for. */
  function DecodeComponent(s: string): seq<Byte> {
    PercentDecode(PlusToSpace(Utf8Encode(s)))
  }

  /** The index of the first `c` in `s`, or `|s|` when there is none. */
  function IndexOf(s: string, c: char): (i: nat)
    ensures i <= |s|
    ensures c !in s[..i]
    ensures i < |s| ==> s[i] == c
  {
    if s == [] then 0 else if s[0] == c then 0 else 1 + IndexOf(s[1..], c)
  }

  /** One `&`-separated piece: the name up to the first `=`, the value after it. */
  function ParsePiece(p: string): (seq<Byte>, seq<Byte>) {
    var i := IndexOf(p, '=');
    if i < |p| then (DecodeComponent(p[..i]), DecodeComponent(p[i + 1..]))
    else (DecodeComponent(p), [])
  }

  function ParsePieces(pieces: seq<string>): seq<(seq<Byte>, seq<Byte>)> {
    if pieces == [] then []
    else (if pieces[0] == "" then [] else [ParsePiece(pieces[0])]) + ParsePieces(pieces[1..])
  }

  /** The application/x-www-form-urlencoded parser on a string of code points. */
  function Parse(s: string): seq<(seq<Byte>, seq<Byte>)> {
    ParsePieces(Split(s, '&'))
  }

  // ---------------------------------------------------------------------
  // Round trip
  // ---------------------------------------------------------------------

  lemma {:induction false} PlusToSpaceAppend(a: seq<Byte>, b: seq<Byte>)
    ensures PlusToSpace(a + b) == PlusToSpace(a) + PlusToSpace(b)
  {
  }

  lemma {:induction false} IsAsciiAppend(a: string, b: string)
    requires IsAscii(a) && IsAscii(b)
    ensures IsAscii(a + b) && AsciiBytes(a + b) == AsciiBytes(a) + AsciiBytes(b)
  {
    if a != [] {
      assert (a + b)[1..] == a[1..] + b;
      IsAsciiAppend(a[1..], b);
    }
  }

  /** Decoding one encoded byte in front of anything yields that byte in front of the rest's decoding. */
  lemma DecodeOneByte(b: Byte, rest: seq<Byte>)
    ensures PercentDecode(PlusToSpace(AsciiBytes(EncodeByte(b))) + rest) == [b] + PercentDecode(rest)
  {
    var e := EncodeByte(b);
    var eb := PlusToSpace(AsciiBytes(e));
    if b == 0x20 {
      assert eb == [0x20];
    } else if IsUnreserved(b) {
      assert eb == [b];
    } else {
      var h1, h2 := HexDigit(b / 16), HexDigit(b % 16);
      assert eb == [0x25, h1 as int, h2 as int];
      assert (eb + rest)[3..] == rest;
    }
    assert (eb + rest)[|eb|..] == rest;
  }

  /** The serializer's byte encoding is undone by the parser's decoding. */
  lemma {:induction false} DecodeEncodeBytes(bs: seq<Byte>)
    ensures PercentDecode(PlusToSpace(AsciiBytes(EncodeBytes(bs)))) == bs
  {
    if bs != [] {
      var e := EncodeByte(bs[0]);
      var rest := EncodeBytes(bs[1..]);
      IsAsciiAppend(e, rest);
      PlusToSpaceAppend(AsciiBytes(e), AsciiBytes(rest));
      DecodeEncodeBytes(bs[1..]);
      DecodeOneByte(bs[0], PlusToSpace(AsciiBytes(rest)));
    }
  }

  /** A serialized name or value decodes to the UTF-8 bytes of the original text. */
  lemma DecodeEncode(s: string)
    ensures DecodeComponent(Encode(s)) == Utf8Encode(s)
  {
    Utf8Ascii(Encode(s));
    DecodeEncodeBytes(Utf8Encode(s));
  }

  lemma IndexOfSplit(a: string, b: string)
    requires '=' !in a
    ensures IndexOf(a + "=" + b, '=') == |a|
  {
    var s := a + "=" + b;
    assert s[|a|] == '=';
  }

  /** Each pair as the UTF-8 bytes of its name and of its value, in order. */
  function Utf8Pairs(pairs: seq<Pair>): (r: seq<(seq<Byte>, seq<Byte>)>)
    ensures |r| == |pairs|
    ensures forall i :: 0 <= i < |r| ==> r[i] == (Utf8Encode(pairs[i].0), Utf8Encode(pairs[i].1))
  {
    if pairs == [] then [] else [(Utf8Encode(pairs[0].0), Utf8Encode(pairs[0].1))] + Utf8Pairs(pairs[1..])
  }

  lemma {:induction false} ParsePiecesOfPairs(pairs: seq<Pair>)
    ensures ParsePieces(EncodedPairs(pairs)) == Utf8Pairs(pairs)
  {
    if pairs != [] {
      var pieces := EncodedPairs(pairs);
      ParsePairPiece(pairs[0]);
      assert pieces[1..] == EncodedPairs(pairs[1..]);
      ParsePiecesOfPairs(pairs[1..]);
    }
  }

  /** One encoded pair is a non-empty piece that parses back to the pair's UTF-8 bytes. */
  lemma ParsePairPiece(pair: Pair)
    ensures Encode(pair.0) + "=" + Encode(pair.1) != ""
    ensures ParsePiece(Encode(pair.0) + "=" + Encode(pair.1)) == (Utf8Encode(pair.0), Utf8Encode(pair.1))
  {
    var k, v := Encode(pair.0), Encode(pair.1);
    var piece := k + "=" + v;
    IndexOfSplit(k, v);
    assert piece[..|k|] == k;
    assert piece[|k| + 1..] == v;
    DecodeEncode(pair.0);
    DecodeEncode(pair.1);
  }

  /** Parsing a serialized list gives back every pair, in order, as UTF-8 bytes. */
  lemma SerializeRoundTrip(pairs: seq<Pair>)
    ensures Parse(Serialize(pairs)) == Utf8Pairs(pairs)
  {
    var pieces := EncodedPairs(pairs);
    if pieces == [] {
      assert Serialize(pairs) == "";
    } else {
      assert "&" == ['&'];
      SplitJoin(pieces, '&');
    }
    ParsePiecesOfPairs(pairs);
  }
}
