/**
 * UTF-8 (RFC 3629) between Unicode scalar values and octets, as used by
 * `String(data:encoding: .utf8)`: decoding accepts exactly the well-formed
 * sequences of section 4 of RFC 3629 (no overlong forms, no surrogates,
 * nothing above U+10FFFF) and fails on anything else.
 */
module Utf8 {
  import opened Wrappers
  import opened Bytes

  /** The one to four octets of a scalar value. */
  function EncodeScalar(c: char): (r: seq<byte>)
    ensures 1 <= |r| <= 4
  {
    var n := c as int;
    var q1, r1 := n / 64, n % 64;
    var q2, r2 := q1 / 64, q1 % 64;
    var q3, r3 := q2 / 64, q2 % 64;
    if n < 0x80 then [n]
    else if n < 0x800 then [0xC0 + q1, 0x80 + r1]
    else if n < 0x10000 then [0xE0 + q2, 0x80 + r2, 0x80 + r1]
    else [0xF0 + q3, 0x80 + r3, 0x80 + r2, 0x80 + r1]
  }

  function Encode(s: string): seq<byte>
    decreases |s|
  {
    if |s| == 0 then [] else EncodeScalar(s[0]) + Encode(s[1..])
  }

  predicate IsContinuation(b: byte) {
    0x80 <= b < 0xC0
  }

  /** The scalar value at the front of `b` and the number of octets it takes. */
  function DecodeScalar(b: seq<byte>): (r: Option<(char, nat)>)
    requires |b| > 0
    ensures r.Some? ==> 1 <= r.value.1 <= |b| && r.value.1 <= 4
  {
    var b0: int := b[0];
    if b0 < 0x80 then Some((b0 as char, 1))
    else if 0xC2 <= b0 < 0xE0 then
      if |b| >= 2 && IsContinuation(b[1]) then
        Some((((b0 - 0xC0) * 64 + (b[1] as int - 0x80)) as char, 2))
      else None
    else if 0xE0 <= b0 < 0xF0 then
      if |b| >= 3 && IsContinuation(b[1]) && IsContinuation(b[2]) then
        var cp := ((b0 - 0xE0) * 64 + (b[1] as int - 0x80)) * 64 + (b[2] as int - 0x80);
        if 0x800 <= cp && !(0xD800 <= cp < 0xE000) then Some((cp as char, 3)) else None
      else None
    else if 0xF0 <= b0 < 0xF5 then
      if |b| >= 4 && IsContinuation(b[1]) && IsContinuation(b[2]) && IsContinuation(b[3]) then
        var cp := (((b0 - 0xF0) * 64 + (b[1] as int - 0x80)) * 64 + (b[2] as int - 0x80)) * 64 + (b[3] as int - 0x80);
        if 0x10000 <= cp < 0x110000 then Some((cp as char, 4)) else None
      else None
    else None
  }

  /** The text `b` encodes, or None when `b` is not well-formed UTF-8. */
  function Decode(b: seq<byte>): Option<string>
    decreases |b|
  {
    if |b| == 0 then Some([])
    else
      match DecodeScalar(b)
      case None => None
      case Some((c, n)) =>
        match Decode(b[n..])
        case None => None
        case Some(rest) => Some([c] + rest)
  }

  lemma EncodeScalarDecodes(c: char, rest: seq<byte>)
    ensures var e := EncodeScalar(c); DecodeScalar(e + rest) == Some((c, |e|))
  {
    var e := EncodeScalar(c);
    var b := e + rest;
    var n := c as int;
    var q1, r1 := n / 64, n % 64;
    var q2, r2 := q1 / 64, q1 % 64;
    var q3, r3 := q2 / 64, q2 % 64;
    if n < 0x80 {
    } else if n < 0x800 {
      assert b[0] == 0xC0 + q1 && b[1] == 0x80 + r1;
      assert (b[0] as int - 0xC0) * 64 + (b[1] as int - 0x80) == n;
    } else if n < 0x10000 {
      assert b[0] == 0xE0 + q2 && b[1] == 0x80 + r2 && b[2] == 0x80 + r1;
      assert ((b[0] as int - 0xE0) * 64 + (b[1] as int - 0x80)) * 64 + (b[2] as int - 0x80) == n;
    } else {
      assert b[0] == 0xF0 + q3 && b[1] == 0x80 + r3 && b[2] == 0x80 + r2 && b[3] == 0x80 + r1;
      assert (((b[0] as int - 0xF0) * 64 + (b[1] as int - 0x80)) * 64 + (b[2] as int - 0x80)) * 64 + (b[3] as int - 0x80) == n;
    }
  }

  lemma DecodedScalarEncodes(b: seq<byte>)
    requires |b| > 0 && DecodeScalar(b).Some?
    ensures var (c, n) := DecodeScalar(b).value; EncodeScalar(c) == b[..n]
  {
    var (c, k) := DecodeScalar(b).value;
    var n := c as int;
    var q1, r1 := n / 64, n % 64;
    var q2, r2 := q1 / 64, q1 % 64;
    var q3, r3 := q2 / 64, q2 % 64;
    if k == 2 {
      assert q1 == b[0] as int - 0xC0 && r1 == b[1] as int - 0x80;
    } else if k == 3 {
      assert q1 == (b[0] as int - 0xE0) * 64 + (b[1] as int - 0x80) && r1 == b[2] as int - 0x80;
      assert q2 == b[0] as int - 0xE0 && r2 == b[1] as int - 0x80;
    } else if k == 4 {
      assert q1 == ((b[0] as int - 0xF0) * 64 + (b[1] as int - 0x80)) * 64 + (b[2] as int - 0x80) && r1 == b[3] as int - 0x80;
      assert q2 == (b[0] as int - 0xF0) * 64 + (b[1] as int - 0x80) && r2 == b[2] as int - 0x80;
      assert q3 == b[0] as int - 0xF0 && r3 == b[1] as int - 0x80;
    }
  }

  /** Decoding undoes encoding, for every string. */
  lemma {:induction false} DecodeEncode(s: string)
    ensures Decode(Encode(s)) == Some(s)
    decreases |s|
  {
    if |s| > 0 {
      var e := EncodeScalar(s[0]);
      var b := Encode(s);
      EncodeScalarDecodes(s[0], Encode(s[1..]));
      assert b[|e|..] == Encode(s[1..]);
      DecodeEncode(s[1..]);
      assert s == [s[0]] + s[1..];
    }
  }

  /** Encoding undoes decoding: only the encoding of a string decodes to it. */
  lemma {:induction false} EncodeDecode(b: seq<byte>)
    requires Decode(b).Some?
    ensures Encode(Decode(b).value) == b
    decreases |b|
  {
    if |b| > 0 {
      var (c, n) := DecodeScalar(b).value;
      var rest := Decode(b[n..]).value;
      DecodedScalarEncodes(b);
      EncodeDecode(b[n..]);
      var s := [c] + rest;
      assert s[0] == c && s[1..] == rest;
      assert b == b[..n] + b[n..];
    }
  }
}
