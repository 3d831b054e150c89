/**
 * UTF-8 as defined by RFC 3629: the encoding Rust uses for every `String`,
 * and the strict decoder behind `String::from_utf8` (overlong forms,
 * surrogates and values above U+10FFFF are rejected).
 */
module Utf8 {
  import opened Wrappers

  type Byte = b: int | 0 <= b < 256

  predicate IsContinuation(b: Byte) { 0x80 <= b < 0xC0 }

  /** The one to four bytes that encode scalar value `c`. */
  function EncodeScalar(c: char): (r: seq<Byte>)
    ensures 1 <= |r| <= 4
    ensures (c as int < 0x80) <==> |r| == 1
    ensures |r| == 1 ==> r[0] == c as int
    ensures |r| > 1 ==> 0xC2 <= r[0] && forall k :: 1 <= k < |r| ==> IsContinuation(r[k])
  {
    var n := c as int;
    var q1 := n / 64;
    var q2 := q1 / 64;
    var q3 := q2 / 64;
    if n < 0x80 then [n]
    else if n < 0x800 then [0xC0 + q1, 0x80 + n % 64]
    else if n < 0x1_0000 then [0xE0 + q2, 0x80 + q1 % 64, 0x80 + n % 64]
    else [0xF0 + q3, 0x80 + q2 % 64, 0x80 + q1 % 64, 0x80 + n % 64]
  }

  function Encode(s: string): (r: seq<Byte>)
    ensures |r| >= |s|
  {
    if s == [] then [] else EncodeScalar(s[0]) + Encode(s[1..])
  }

  /** The scalar value that starts `b` and the number of bytes it takes, if well formed. */
  function DecodeFirst(b: seq<Byte>): (r: Option<(char, nat)>)
    requires |b| > 0
    ensures r.Some? ==> 1 <= r.value.1 <= |b|
  {
    var b0: int := b[0];
    if b0 < 0x80 then Some((b0 as char, 1))
    else if 0xC2 <= b0 < 0xE0 && |b| >= 2 && IsContinuation(b[1]) then
      Some((((b0 - 0xC0) * 64 + (b[1] as int - 0x80)) as char, 2))
    else if 0xE0 <= b0 < 0xF0 && |b| >= 3 && IsContinuation(b[1]) && IsContinuation(b[2]) then
      var n := ((b0 - 0xE0) * 64 + (b[1] as int - 0x80)) * 64 + (b[2] as int - 0x80);
      if 0x800 <= n < 0xD800 || 0xE000 <= n then Some((n as char, 3)) else None
    else if 0xF0 <= b0 < 0xF5 && |b| >= 4 && IsContinuation(b[1]) && IsContinuation(b[2]) && IsContinuation(b[3]) then
      var n := (((b0 - 0xF0) * 64 + (b[1] as int - 0x80)) * 64 + (b[2] as int - 0x80)) * 64 + (b[3] as int - 0x80);
      if 0x1_0000 <= n < 0x11_0000 then Some((n as char, 4)) else None
    else None
  }

  /** `String::from_utf8`: the text `b` encodes, or None when it is not well-formed UTF-8. */
  function Decode(b: seq<Byte>): Option<string>
    decreases |b|
  {
    if b == [] then Some("")
    else match DecodeFirst(b)
      case None => None
      case Some((c, k)) =>
        match Decode(b[k..])
        case None => None
        case Some(s) => Some([c] + s)
  }

  /** Decoding the encoding of one scalar recovers it, whatever follows. */
  lemma DecodeEncodeScalar(c: char, rest: seq<Byte>)
    ensures DecodeFirst(EncodeScalar(c) + rest) == Some((c, |EncodeScalar(c)|))
  {
    var n := c as int;
    var q1 := n / 64;
    var q2 := q1 / 64;
    var q3 := q2 / 64;
    assert n == q1 * 64 + n % 64;
    assert q1 == q2 * 64 + q1 % 64;
    assert q2 == q3 * 64 + q2 % 64;
  }

  /** One well-formed scalar decoded from `b` encodes back to exactly its bytes. */
  lemma EncodeDecodeFirst(b: seq<Byte>)
    requires |b| > 0 && DecodeFirst(b).Some?
    ensures EncodeScalar(DecodeFirst(b).value.0) == b[..DecodeFirst(b).value.1]
  {
    var b0: int := b[0];
    if b0 < 0x80 {
    } else if 0xC2 <= b0 < 0xE0 {
      var n := (b0 - 0xC0) * 64 + (b[1] as int - 0x80);
      DivMod64(b0 - 0xC0, b[1] - 0x80);
      assert EncodeScalar(n as char) == [b[0], b[1]];
    } else if 0xE0 <= b0 < 0xF0 {
      var m := (b0 - 0xE0) * 64 + (b[1] as int - 0x80);
      var n := m * 64 + (b[2] as int - 0x80);
      DivMod64(m, b[2] - 0x80);
      DivMod64(b0 - 0xE0, b[1] - 0x80);
      assert EncodeScalar(n as char) == [b[0], b[1], b[2]];
    } else {
      var m1 := (b0 - 0xF0) * 64 + (b[1] as int - 0x80);
      var m2 := m1 * 64 + (b[2] as int - 0x80);
      var n := m2 * 64 + (b[3] as int - 0x80);
      DivMod64(m2, b[3] - 0x80);
      DivMod64(m1, b[2] - 0x80);
      DivMod64(b0 - 0xF0, b[1] - 0x80);
      assert EncodeScalar(n as char) == [b[0], b[1], b[2], b[3]];
    }
  }

  lemma DivMod64(q: int, r: int)
    requires 0 <= r < 64
    ensures (q * 64 + r) / 64 == q && (q * 64 + r) % 64 == r
  {
  }

  /** Round trip one way: every string decodes from its own encoding. */
  lemma {:induction false} DecodeEncode(s: string)
    ensures Decode(Encode(s)) == Some(s)
  {
    if s != [] {
      var e := EncodeScalar(s[0]);
      DecodeEncodeScalar(s[0], Encode(s[1..]));
      assert (e + Encode(s[1..]))[|e|..] == Encode(s[1..]);
      DecodeEncode(s[1..]);
      assert [s[0]] + s[1..] == s;
    }
  }

  /** Round trip the other way: bytes that decode are the encoding of what they decode to. */
  lemma {:induction false} EncodeDecode(b: seq<Byte>, s: string)
    requires Decode(b) == Some(s)
    ensures Encode(s) == b
    decreases |b|
  {
    if b != [] {
      var c, k, rest := DecodeStep(b);
      EncodeDecodeFirst(b);
      EncodeDecode(b[k..], rest);
      assert Encode(s) == EncodeScalar(c) + Encode(rest);
      assert b == b[..k] + b[k..];
    }
  }

  /** A successful decode of non-empty bytes is its first scalar followed by the decode of the rest. */
  lemma DecodeStep(b: seq<Byte>) returns (c: char, k: nat, rest: string)
    requires b != [] && Decode(b).Some?
    ensures DecodeFirst(b) == Some((c, k)) && 1 <= k <= |b|
    ensures Decode(b[k..]) == Some(rest) && Decode(b).value == [c] + rest
  {
    c, k := DecodeFirst(b).value.0, DecodeFirst(b).value.1;
    rest := Decode(b[k..]).value;
  }

  /** Decoding is all-or-nothing per string: it succeeds exactly on encodings. */
  lemma DecodeSucceedsIff(b: seq<Byte>)
    ensures Decode(b).Some? <==> exists s :: Encode(s) == b
  {
    if Decode(b).Some? {
      EncodeDecode(b, Decode(b).value);
    }
    if exists s :: Encode(s) == b {
      var s :| Encode(s) == b;
      DecodeEncode(s);
    }
  }

  /** Text made only of ASCII characters. */
  predicate IsAscii(s: string) { forall k :: 0 <= k < |s| ==> s[k] as int < 0x80 }

  /** ASCII text encodes to its character codes, one byte each. */
  lemma {:induction false} EncodeAscii(s: string)
    requires IsAscii(s)
    ensures |Encode(s)| == |s| && forall k :: 0 <= k < |s| ==> Encode(s)[k] == s[k] as int
  {
    if s != [] {
      EncodeAscii(s[1..]);
    }
  }
}
