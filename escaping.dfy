/**
 * `Uri.EscapeDataString`: percent-encoding as in section 2.1 of RFC 3986.
 * Every character outside the unreserved set of section 2.3 is written as
 * its UTF-8 bytes, each byte as `%` and two upper-case hexadecimal digits.
 * The decoder below is the partner used to state the round trip.
 */
module Escaping {
  import opened Wrappers

  newtype byte = b: int | 0 <= b < 0x100

  /** The unreserved characters of section 2.3 of RFC 3986: ALPHA / DIGIT / "-" / "." / "_" / "~". */
  predicate IsUnreserved(c: char) {
    ('A' <= c <= 'Z') || ('a' <= c <= 'z') || ('0' <= c <= '9') || c == '-' || c == '.' || c == '_' || c == '~'
  }

  predicate IsUnreservedByte(b: byte) {
    b < 0x80 && IsUnreserved(b as int as char)
  }

  // ---------------------------------------------------------------- UTF-8

  predicate IsContinuation(b: byte) {
    0x80 <= b < 0xC0
  }

  /** The UTF-8 encoding of one Unicode scalar value (section 3 of RFC 3629). */
  function Utf8EncodeChar(c: char): (r: seq<byte>)
    ensures 1 <= |r| <= 4
    ensures |r| == 1 <==> c as int < 0x80
    ensures |r| == 1 ==> r[0] as int == c as int
    ensures |r| > 1 ==> r[0] >= 0xC2 && forall i :: 1 <= i < |r| ==> IsContinuation(r[i])
  {
    var n := c as int;
    if n < 0x80 then [n as byte]
    else if n < 0x800 then [(0xC0 + n / 0x40) as byte, (0x80 + n % 0x40) as byte]
    else if n < 0x10000 then
      [(0xE0 + n / 0x1000) as byte, (0x80 + n / 0x40 % 0x40) as byte, (0x80 + n % 0x40) as byte]
    else
      [(0xF0 + n / 0x40000) as byte, (0x80 + n / 0x1000 % 0x40) as byte,
       (0x80 + n / 0x40 % 0x40) as byte, (0x80 + n % 0x40) as byte]
  }

  function Utf8Encode(s: string): (r: seq<byte>)
    ensures |r| >= |s|
  {
    if s == [] then [] else Utf8EncodeChar(s[0]) + Utf8Encode(s[1..])
  }

  /** A decoded character and the number of bytes it took. */
  datatype Decoded = Decoded(c: char, length: nat)

  function ScalarValue(v: int): Option<char> {
    if 0 <= v < 0xD800 || 0xE000 <= v < 0x110000 then Some(v as char) else None
  }

  function Payload(b: byte): int {
    b as int % 0x40
  }

  /** Decodes the character at the front of `b`, refusing overlong forms, surrogates and truncation. */
  function Utf8DecodeChar(b: seq<byte>): (r: Option<Decoded>)
    ensures r.Some? ==> 1 <= r.value.length <= |b|
  {
    if |b| == 0 then None
    else if b[0] < 0x80 then Some(Decoded(b[0] as int as char, 1))
    else if 0xC2 <= b[0] < 0xE0 && |b| >= 2 && IsContinuation(b[1]) then
      var v := (b[0] as int - 0xC0) * 0x40 + Payload(b[1]);
      if ScalarValue(v).Some? then Some(Decoded(ScalarValue(v).value, 2)) else None
    else if 0xE0 <= b[0] < 0xF0 && |b| >= 3 && IsContinuation(b[1]) && IsContinuation(b[2]) then
      var v := (b[0] as int - 0xE0) * 0x1000 + Payload(b[1]) * 0x40 + Payload(b[2]);
      if v >= 0x800 && ScalarValue(v).Some? then Some(Decoded(ScalarValue(v).value, 3)) else None
    else if 0xF0 <= b[0] < 0xF5 && |b| >= 4 && IsContinuation(b[1]) && IsContinuation(b[2]) && IsContinuation(b[3]) then
      var v := (b[0] as int - 0xF0) * 0x40000 + Payload(b[1]) * 0x1000 + Payload(b[2]) * 0x40 + Payload(b[3]);
      if v >= 0x10000 && ScalarValue(v).Some? then Some(Decoded(ScalarValue(v).value, 4)) else None
    else None
  }

  function Utf8Decode(b: seq<byte>): Option<string>
    decreases |b|
  {
    if b == [] then Some([])
    else match Utf8DecodeChar(b)
      case None => None
      case Some(d) =>
        match Utf8Decode(b[d.length..])
        case None => None
        case Some(rest) => Some([d.c] + rest)
  }

  lemma DecodeTwoBytes(c: char, rest: seq<byte>)
    requires 0x80 <= c as int < 0x800
    ensures Utf8DecodeChar(Utf8EncodeChar(c) + rest) == Some(Decoded(c, 2))
  {
    var n := c as int;
    var b := Utf8EncodeChar(c) + rest;
    var hi, lo := n / 0x40, n % 0x40;
    assert b[0] as int == 0xC0 + hi && b[1] as int == 0x80 + lo;
    assert Payload(b[1]) == lo;
    assert (b[0] as int - 0xC0) * 0x40 + Payload(b[1]) == hi * 0x40 + lo == n;
  }

  lemma DecodeThreeBytes(c: char, rest: seq<byte>)
    requires 0x800 <= c as int < 0x10000
    ensures Utf8DecodeChar(Utf8EncodeChar(c) + rest) == Some(Decoded(c, 3))
  {
    var n := c as int;
    var b := Utf8EncodeChar(c) + rest;
    var q := n / 0x40;
    var d0, d1, d2 := q / 0x40, q % 0x40, n % 0x40;
    assert n / 0x1000 == d0;
    assert b[0] as int == 0xE0 + d0 && b[1] as int == 0x80 + d1 && b[2] as int == 0x80 + d2;
    assert Payload(b[1]) == d1 && Payload(b[2]) == d2;
    assert d0 * 0x1000 + d1 * 0x40 + d2 == (d0 * 0x40 + d1) * 0x40 + d2 == q * 0x40 + d2 == n;
  }

  lemma DecodeFourBytes(c: char, rest: seq<byte>)
    requires 0x10000 <= c as int
    ensures Utf8DecodeChar(Utf8EncodeChar(c) + rest) == Some(Decoded(c, 4))
  {
    var n := c as int;
    var b := Utf8EncodeChar(c) + rest;
    var q := n / 0x40;
    var p := q / 0x40;
    var d0, d1, d2, d3 := p / 0x40, p % 0x40, q % 0x40, n % 0x40;
    assert n / 0x1000 == p;
    assert n / 0x40000 == d0;
    assert b[0] as int == 0xF0 + d0 && b[1] as int == 0x80 + d1;
    assert b[2] as int == 0x80 + d2 && b[3] as int == 0x80 + d3;
    assert Payload(b[1]) == d1 && Payload(b[2]) == d2 && Payload(b[3]) == d3;
    assert d0 * 0x40000 + d1 * 0x1000 + d2 * 0x40 + d3 == ((d0 * 0x40 + d1) * 0x40 + d2) * 0x40 + d3;
    assert (d0 * 0x40 + d1) * 0x40 + d2 == p * 0x40 + d2 == q;
  }

  lemma Utf8DecodeEncodedChar(c: char, rest: seq<byte>)
    ensures Utf8DecodeChar(Utf8EncodeChar(c) + rest) == Some(Decoded(c, |Utf8EncodeChar(c)|))
  {
    var n := c as int;
    if n < 0x80 {
    } else if n < 0x800 {
      DecodeTwoBytes(c, rest);
    } else if n < 0x10000 {
      DecodeThreeBytes(c, rest);
    } else {
      DecodeFourBytes(c, rest);
    }
  }

  /** Decoding a UTF-8 encoding gives back the string. */
  lemma {:induction false} Utf8RoundTrip(s: string)
    ensures Utf8Decode(Utf8Encode(s)) == Some(s)
  {
    if s != [] {
      var e := Utf8EncodeChar(s[0]);
      var tail := Utf8Encode(s[1..]);
      Utf8DecodeEncodedChar(s[0], tail);
      assert Utf8Encode(s) == e + tail;
      assert (e + tail)[|e|..] == tail;
      Utf8RoundTrip(s[1..]);
      assert Utf8Decode(e + tail) == Some([s[0]] + s[1..]);
      assert [s[0]] + s[1..] == s;
    }
  }

  // ------------------------------------------------------- percent-encoding

  const HexDigits := "0123456789ABCDEF"

  function HexValue(c: char): Option<int> {
    if '0' <= c <= '9' then Some(c as int - '0' as int)
    else if 'A' <= c <= 'F' then Some(c as int - 'A' as int + 10)
    else if 'a' <= c <= 'f' then Some(c as int - 'a' as int + 10)
    else None
  }

  lemma HexValueOfDigit(d: int)
    requires 0 <= d < 16
    ensures HexValue(HexDigits[d]) == Some(d)
  {
  }

  /** One byte: itself when it is an unreserved character, otherwise `%` and two hexadecimal digits. */
  function PercentEncodeByte(b: byte): (r: string)
    ensures |r| == 1 || |r| == 3
    ensures |r| == 1 <==> IsUnreservedByte(b)
    ensures forall i :: 0 <= i < |r| ==> IsUnreserved(r[i]) || r[i] == '%'
  {
    if IsUnreservedByte(b) then [b as int as char]
    else ['%', HexDigits[b / 16], HexDigits[b % 16]]
  }

  function PercentEncode(b: seq<byte>): (r: string)
    ensures |r| >= |b|
    ensures forall i :: 0 <= i < |r| ==> IsUnreserved(r[i]) || r[i] == '%'
  {
    if b == [] then [] else PercentEncodeByte(b[0]) + PercentEncode(b[1..])
  }

  lemma {:induction false} PercentEncodeAppend(a: seq<byte>, b: seq<byte>)
    ensures PercentEncode(a + b) == PercentEncode(a) + PercentEncode(b)
  {
    if a != [] {
      assert (a + b)[1..] == a[1..] + b;
      PercentEncodeAppend(a[1..], b);
    } else {
      assert a + b == b;
    }
  }

  /**
   * Percent-decoding: `%` and two hexadecimal digits (either case) give one
   * byte; any other character, including a `%` not followed by two digits,
   * stands for its own UTF-8 bytes.
   */
  function PercentDecode(s: string): seq<byte>
    decreases |s|
  {
    if s == [] then []
    else if s[0] == '%' && |s| >= 3 && HexValue(s[1]).Some? && HexValue(s[2]).Some? then
      [(HexValue(s[1]).value * 16 + HexValue(s[2]).value) as byte] + PercentDecode(s[3..])
    else Utf8EncodeChar(s[0]) + PercentDecode(s[1..])
  }

  /** Percent-decoding undoes percent-encoding for every byte sequence. */
  lemma {:induction false} PercentRoundTrip(b: seq<byte>)
    ensures PercentDecode(PercentEncode(b)) == b
  {
    if b != [] {
      var head := PercentEncodeByte(b[0]);
      var tail := PercentEncode(b[1..]);
      if IsUnreservedByte(b[0]) {
        assert (head + tail)[1..] == tail;
      } else {
        HexValueOfDigit(b[0] as int / 16);
        HexValueOfDigit(b[0] as int % 16);
        assert (head + tail)[3..] == tail;
      }
      PercentRoundTrip(b[1..]);
    }
  }

  // ------------------------------------------------------ EscapeDataString

  function EscapeChar(c: char): (r: string)
    ensures IsUnreserved(c) ==> r == [c]
    ensures !IsUnreserved(c) ==> |r| >= 3 && r[0] == '%'
  {
    if IsUnreserved(c) then [c] else PercentEncode(Utf8EncodeChar(c))
  }

  /**
   * `Uri.EscapeDataString(s)`, character by character. Its result consists
   * only of unreserved characters and `%`, so it never holds a raw query
   * delimiter, and it is never shorter than `s`.
   */
  function EscapeDataString(s: string): (r: string)
    ensures |r| >= |s|
    ensures forall i :: 0 <= i < |r| ==> IsUnreserved(r[i]) || r[i] == '%'
  {
    if s == [] then [] else EscapeChar(s[0]) + EscapeDataString(s[1..])
  }

  /** The character-wise escaper is percent-encoding of the whole string's UTF-8 bytes. */
  lemma {:induction false} EscapeIsPercentEncodedUtf8(s: string)
    ensures EscapeDataString(s) == PercentEncode(Utf8Encode(s))
  {
    if s != [] {
      var e := Utf8EncodeChar(s[0]);
      PercentEncodeAppend(e, Utf8Encode(s[1..]));
      if IsUnreserved(s[0]) {
        assert e == [s[0] as int as byte];
        assert PercentEncode(e) == PercentEncodeByte(e[0]) + PercentEncode([]);
      }
      EscapeIsPercentEncodedUtf8(s[1..]);
    }
  }

  /**
   * Strict percent-decoding followed by strict UTF-8 decoding: the decoder the
   * round trip is stated against. It is not the framework's query decoding,
   * which also reads `+` as a space and substitutes U+FFFD for bad UTF-8.
   */
  function UnescapeDataString(s: string): Option<string> {
    Utf8Decode(PercentDecode(s))
  }

  /** Whatever is escaped is recovered exactly by the receiver. */
  lemma EscapeRoundTrip(s: string)
    ensures UnescapeDataString(EscapeDataString(s)) == Some(s)
  {
    EscapeIsPercentEncodedUtf8(s);
    PercentRoundTrip(Utf8Encode(s));
    Utf8RoundTrip(s);
  }

  predicate AllUnreserved(s: string) {
    forall i :: 0 <= i < |s| ==> IsUnreserved(s[i])
  }

  /** Escaping leaves `s` as it is exactly when every character of `s` is unreserved. */
  lemma {:induction false} EscapeIdentityIff(s: string)
    ensures EscapeDataString(s) == s <==> AllUnreserved(s)
  {
    if s != [] {
      EscapeIdentityIff(s[1..]);
      if IsUnreserved(s[0]) {
        assert EscapeDataString(s) == [s[0]] + EscapeDataString(s[1..]);
        if AllUnreserved(s) {
          assert AllUnreserved(s[1..]) by {
            forall i | 0 <= i < |s[1..]| ensures IsUnreserved(s[1..][i]) { assert s[1..][i] == s[i + 1]; }
          }
        } else {
          var i :| 0 <= i < |s| && !IsUnreserved(s[i]);
          assert !IsUnreserved(s[1..][i - 1]);
          assert EscapeDataString(s[1..]) != s[1..];
          assert EscapeDataString(s)[1..] == EscapeDataString(s[1..]);
        }
      } else {
        assert |EscapeDataString(s)| >= 3 + |s[1..]| > |s|;
      }
    }
  }

  lemma {:induction false} EscapeAppend(a: string, b: string)
    ensures EscapeDataString(a + b) == EscapeDataString(a) + EscapeDataString(b)
  {
    if a == [] {
      assert a + b == b;
    } else {
      assert (a + b)[1..] == a[1..] + b;
      EscapeAppend(a[1..], b);
    }
  }

  lemma EscapeSpace()
    ensures EscapeDataString(" ") == "%20"
  {
    assert Utf8EncodeChar(' ') == [32 as byte];
    assert PercentEncode([32 as byte]) == PercentEncodeByte(32 as byte) + PercentEncode([]);
  }

  /** The escaped form never carries a raw `&`, `?`, `#`, `=` or space into a query string. */
  lemma EscapedHasNoDelimiters(s: string)
    ensures forall i :: 0 <= i < |EscapeDataString(s)| ==> EscapeDataString(s)[i] !in "&?#= "
  {
  }
}
