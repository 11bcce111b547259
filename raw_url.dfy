/**
 * PHP's `rawurlencode`: percent-encoding as in RFC 3986. The unreserved
 * characters of section 2.3 pass through unchanged; every other byte becomes
 * "%" followed by two upper-case hexadecimal digits (section 2.1).
 * `Decode` is PHP's `rawurldecode`, the partner the encoder is proved against.
 */
module RawUrl {
  import opened PhpString

  /** ALPHA / DIGIT / "-" / "." / "_" / "~" (section 2.3 of RFC 3986). */
  predicate IsUnreserved(c: Byte) {
    'A' <= c <= 'Z' || 'a' <= c <= 'z' || '0' <= c <= '9' || c == '-' || c == '_' || c == '.' || c == '~'
  }

  predicate AllUnreserved(s: Bytes) {
    forall k :: 0 <= k < |s| ==> IsUnreserved(s[k])
  }

  predicate IsUpperHexDigit(c: Byte) {
    '0' <= c <= '9' || 'A' <= c <= 'F'
  }

  predicate IsHexDigit(c: Byte) {
    IsUpperHexDigit(c) || 'a' <= c <= 'f'
  }

  /** The digits `rawurlencode` writes. */
  const HexDigits: Bytes := "0123456789ABCDEF"

  function HexValue(c: Byte): (v: nat)
    requires IsHexDigit(c)
    ensures v < 16
  {
    if '0' <= c <= '9' then c as int - '0' as int
    else if 'A' <= c <= 'F' then c as int - 'A' as int + 10
    else c as int - 'a' as int + 10
  }

  lemma HexDigitValue(n: nat)
    requires n < 16
    ensures IsUpperHexDigit(HexDigits[n]) && HexValue(HexDigits[n]) == n
  {
  }

  /** The encoding of one byte: itself, or a "%HH" triple whose digits spell its code. */
  function EncodeByte(c: Byte): (r: Bytes)
    ensures IsUnreserved(c) ==> r == [c]
    ensures !IsUnreserved(c) ==>
      |r| == 3 && r[0] == '%' && IsUpperHexDigit(r[1]) && IsUpperHexDigit(r[2])
      && HexValue(r[1]) * 16 + HexValue(r[2]) == c as int
  {
    if IsUnreserved(c) then [c]
    else
      var hi, lo := c as int / 16, c as int % 16;
      HexDigitValue(hi);
      HexDigitValue(lo);
      ['%', HexDigits[hi], HexDigits[lo]]
  }

  /** `rawurlencode($s)`, byte by byte from the left. */
  function Encode(s: Bytes): (r: Bytes)
    ensures forall k :: 0 <= k < |r| ==> IsUnreserved(r[k]) || r[k] == '%'
    ensures |s| <= |r| <= 3 * |s|
    decreases |s|
  {
    if s == [] then [] else EncodeByte(s[0]) + Encode(s[1..])
  }

  /** `rawurldecode($t)`: a "%" followed by two hex digits (either case) is one byte; anything else is copied. */
  function Decode(t: Bytes): Bytes
    decreases |t|
  {
    if t == [] then []
    else if |t| >= 3 && t[0] == '%' && IsHexDigit(t[1]) && IsHexDigit(t[2]) then
      [(HexValue(t[1]) * 16 + HexValue(t[2])) as char] + Decode(t[3..])
    else [t[0]] + Decode(t[1..])
  }

  /** Output of the encoder: unreserved characters and "%HH" triples, nothing else. */
  predicate IsEncoded(t: Bytes)
    decreases |t|
  {
    if t == [] then true
    else if IsUnreserved(t[0]) then IsEncoded(t[1..])
    else |t| >= 3 && t[0] == '%' && IsUpperHexDigit(t[1]) && IsUpperHexDigit(t[2]) && IsEncoded(t[3..])
  }

  lemma {:induction false} EncodeIsEncoded(s: Bytes)
    ensures IsEncoded(Encode(s))
    decreases |s|
  {
    if s != [] {
      var e, rest := EncodeByte(s[0]), Encode(s[1..]);
      EncodeIsEncoded(s[1..]);
      var t := e + rest;
      if IsUnreserved(s[0]) {
        assert t[1..] == rest;
      } else {
        assert t[3..] == rest;
      }
    }
  }

  lemma DecodeEncodeByte(c: Byte, rest: Bytes)
    ensures Decode(EncodeByte(c) + rest) == [c] + Decode(rest)
  {
  }

  /** Percent-decoding the encoder's output gives back the original bytes. */
  lemma {:induction false} DecodeEncode(s: Bytes)
    ensures Decode(Encode(s)) == s
    decreases |s|
  {
    if s != [] {
      DecodeEncodeByte(s[0], Encode(s[1..]));
      DecodeEncode(s[1..]);
      assert [s[0]] + s[1..] == s;
    }
  }

  lemma EncodeInjective(a: Bytes, b: Bytes)
    requires Encode(a) == Encode(b)
    ensures a == b
  {
    DecodeEncode(a);
    DecodeEncode(b);
  }

  /** A string of unreserved characters, such as a digits-only phone number, is encoded verbatim. */
  lemma {:induction false} EncodeUnreserved(s: Bytes)
    requires AllUnreserved(s)
    ensures Encode(s) == s
    decreases |s|
  {
    if s != [] {
      assert AllUnreserved(s[1..]) by {
        forall k | 0 <= k < |s| - 1 ensures IsUnreserved(s[1..][k]) { assert s[1..][k] == s[k + 1]; }
      }
      EncodeUnreserved(s[1..]);
      assert [s[0]] + s[1..] == s;
    }
  }

  /** Encoding works byte by byte: it distributes over concatenation. */
  lemma {:induction false} EncodeAppend(a: Bytes, b: Bytes)
    ensures Encode(a + b) == Encode(a) + Encode(b)
    decreases |a|
  {
    if a != [] {
      assert (a + b)[0] == a[0] && (a + b)[1..] == a[1..] + b;
      EncodeAppend(a[1..], b);
    } else {
      assert a + b == b;
    }
  }
}
