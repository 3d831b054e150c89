/**
 * Percent-encoding of a URI path segment (section 2.1 of RFC 3986), as the
 * `urlencoding` crate's `decode` applies it in server.rs: every `%` followed
 * by two hexadecimal digits becomes the byte they denote; any other `%` is
 * kept literally; `+` is not special. The decoded bytes must then be UTF-8.
 */
module PercentCoding {
  import opened Wrappers
  import Utf8

  type Byte = Utf8.Byte

  const Percent: Byte := 0x25
  const Slash: Byte := 0x2F

  predicate IsHexDigit(b: Byte)
  {
    (0x30 <= b <= 0x39) || (0x41 <= b <= 0x46) || (0x61 <= b <= 0x66)
  }

  function HexValue(b: Byte): (v: int)
    requires IsHexDigit(b)
    ensures 0 <= v < 16
  {
    if b <= 0x39 then b - 0x30 else if b <= 0x46 then b - 0x41 + 10 else b - 0x61 + 10
  }

  /** The byte-level decoder; malformed escapes pass through unchanged. */
  function DecodeBytes(b: seq<Byte>): (r: seq<Byte>)
    ensures |r| <= |b|
  {
    if b == [] then []
    else if b[0] == Percent && |b| >= 3 && IsHexDigit(b[1]) && IsHexDigit(b[2]) then
      [HexValue(b[1]) * 16 + HexValue(b[2])] + DecodeBytes(b[3..])
    else [b[0]] + DecodeBytes(b[1..])
  }

  /** `urlencoding::decode` on a path segment: None where the Rust code would get a UTF-8 error. */
  function DecodeSegment(segment: string): Option<string>
  {
    Utf8.Decode(DecodeBytes(Utf8.Encode(segment)))
  }

  /** Unreserved characters (section 2.3 of RFC 3986) need no escaping. */
  predicate IsUnreserved(b: Byte)
  {
    (0x41 <= b <= 0x5A) || (0x61 <= b <= 0x7A) || (0x30 <= b <= 0x39)
      || b == 0x2D || b == 0x2E || b == 0x5F || b == 0x7E
  }

  function HexDigit(v: int): (d: Byte)
    requires 0 <= v < 16
    ensures IsHexDigit(d) && HexValue(d) == v
  {
    if v < 10 then 0x30 + v else 0x41 + v - 10
  }

  /** The encoder a client uses: every byte that is not unreserved becomes `%XX`. */
  function EncodeBytes(b: seq<Byte>): (r: seq<Byte>)
    ensures forall k :: 0 <= k < |r| ==> r[k] < 0x80 && r[k] != Slash
  {
    if b == [] then []
    else
      (if IsUnreserved(b[0]) then [b[0]] else [Percent, HexDigit(b[0] / 16), HexDigit(b[0] % 16)])
        + EncodeBytes(b[1..])
  }

  /** Decoding undoes encoding. */
  lemma {:induction false} DecodeEncodeBytes(b: seq<Byte>)
    ensures DecodeBytes(EncodeBytes(b)) == b
  {
    if b != [] {
      var tail := EncodeBytes(b[1..]);
      DecodeEncodeBytes(b[1..]);
      if IsUnreserved(b[0]) {
        DecodePlainByte(b[0], tail);
      } else {
        DecodeEscape(b[0], tail);
      }
      assert [b[0]] + b[1..] == b;
    }
  }

  lemma DecodePlainByte(x: Byte, tail: seq<Byte>)
    requires x != Percent
    ensures DecodeBytes([x] + tail) == [x] + DecodeBytes(tail)
  {
    assert ([x] + tail)[1..] == tail;
  }

  lemma DecodeEscape(x: Byte, tail: seq<Byte>)
    ensures DecodeBytes([Percent, HexDigit(x / 16), HexDigit(x % 16)] + tail) == [x] + DecodeBytes(tail)
  {
    var e := [Percent, HexDigit(x / 16), HexDigit(x % 16)] + tail;
    assert e[3..] == tail;
    assert HexValue(e[1]) * 16 + HexValue(e[2]) == x;
  }

  /** The characters a byte sequence below 0x80 stands for. */
  function AsciiText(b: seq<Byte>): (s: string)
    requires forall k :: 0 <= k < |b| ==> b[k] < 0x80
    ensures |s| == |b| && forall k :: 0 <= k < |b| ==> s[k] as int == b[k]
  {
    if b == [] then [] else [b[0] as char] + AsciiText(b[1..])
  }

  /** The path segment a client sends for feed `name`. */
  function EncodeSegment(name: string): (segment: string)
    ensures '/' !in segment && Utf8.IsAscii(segment)
  {
    AsciiText(EncodeBytes(Utf8.Encode(name)))
  }

  /** Every name survives the trip through an encoded path segment. */
  lemma DecodeEncodeSegment(name: string)
    ensures DecodeSegment(EncodeSegment(name)) == Some(name)
  {
    var bytes := EncodeBytes(Utf8.Encode(name));
    var seg := EncodeSegment(name);
    Utf8.EncodeAscii(seg);
    assert Utf8.Encode(seg) == bytes;
    DecodeEncodeBytes(Utf8.Encode(name));
    Utf8.DecodeEncode(name);
  }

  /** A segment with no `%` decodes to itself. */
  lemma {:induction false} DecodeBytesPlain(b: seq<Byte>)
    requires Percent !in b
    ensures DecodeBytes(b) == b
  {
    if b != [] {
      assert Percent !in b[1..];
      DecodeBytesPlain(b[1..]);
      assert [b[0]] + b[1..] == b;
    }
  }

  /** Text without `%` in it decodes to itself. */
  lemma DecodeSegmentPlain(segment: string)
    requires '%' !in segment
    ensures DecodeSegment(segment) == Some(segment)
  {
    PercentFree(segment);
    DecodeBytesPlain(Utf8.Encode(segment));
    Utf8.DecodeEncode(segment);
  }

  lemma {:induction false} PercentFree(s: string)
    requires '%' !in s
    ensures Percent !in Utf8.Encode(s)
  {
    if s != [] {
      assert '%' !in s[1..];
      PercentFree(s[1..]);
    }
  }
}
