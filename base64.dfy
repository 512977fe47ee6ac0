/**
 * Standard base64 (section 4 of RFC 4648), as Foundation's `Data(base64Encoded:)`
 * decodes it with no options: the length must be a multiple of four, every
 * character must be in the alphabet, and `=` padding may only close the last
 * quantum ("xx==" or "xxx="). Non-zero bits under the padding are not rejected
 * (section 3.5 of RFC 4648 leaves that to the decoder).
 */
module Base64 {
  import opened Wrappers
  import opened Bytes

  predicate IsBase64Char(c: char) {
    ('A' <= c <= 'Z') || ('a' <= c <= 'z') || ('0' <= c <= '9') || c == '+' || c == '/'
  }

  /** The alphabet character of one 6-bit group. */
  function SextetChar(v: int): char
    requires 0 <= v < 64
  {
    if v < 26 then ('A' as int + v) as char
    else if v < 52 then ('a' as int + (v - 26)) as char
    else if v < 62 then ('0' as int + (v - 52)) as char
    else if v == 62 then '+'
    else '/'
  }

  /** The 6-bit group an alphabet character stands for. */
  function CharSextet(c: char): (v: int)
    requires IsBase64Char(c)
    ensures 0 <= v < 64
  {
    if 'A' <= c <= 'Z' then c as int - 'A' as int
    else if 'a' <= c <= 'z' then c as int - 'a' as int + 26
    else if '0' <= c <= '9' then c as int - '0' as int + 52
    else if c == '+' then 62
    else 63
  }

  lemma SextetCharRoundTrip(v: int)
    requires 0 <= v < 64
    ensures IsBase64Char(SextetChar(v)) && CharSextet(SextetChar(v)) == v
    ensures SextetChar(v) != '='
  {
  }

  function EncodeBlock(b0: byte, b1: byte, b2: byte): string {
    [SextetChar(b0 / 4), SextetChar((b0 % 4) * 16 + b1 / 16),
     SextetChar((b1 % 16) * 4 + b2 / 64), SextetChar(b2 % 64)]
  }

  /** Base64 text of `data`, padded with `=` to a multiple of four characters. */
  function Encode(data: seq<byte>): (s: string)
    ensures |s| % 4 == 0 && (|s| == 0 <==> |data| == 0)
    decreases |data|
  {
    if |data| == 0 then []
    else if |data| == 1 then
      [SextetChar(data[0] / 4), SextetChar((data[0] % 4) * 16), '=', '=']
    else if |data| == 2 then
      [SextetChar(data[0] / 4), SextetChar((data[0] % 4) * 16 + data[1] / 16),
       SextetChar((data[1] % 16) * 4), '=']
    else
      EncodeBlock(data[0], data[1], data[2]) + Encode(data[3..])
  }

  function DecodeBlock(c0: int, c1: int, c2: int, c3: int): seq<byte>
    requires 0 <= c0 < 64 && 0 <= c1 < 64 && 0 <= c2 < 64 && 0 <= c3 < 64
  {
    [c0 * 4 + c1 / 16, (c1 % 16) * 16 + c2 / 4, (c2 % 4) * 64 + c3]
  }

  /** A quantum of four alphabet characters: three octets. */
  function DecodeFullQuad(q: string): Option<seq<byte>>
    requires |q| == 4
  {
    if IsBase64Char(q[0]) && IsBase64Char(q[1]) && IsBase64Char(q[2]) && IsBase64Char(q[3]) then
      Some(DecodeBlock(CharSextet(q[0]), CharSextet(q[1]), CharSextet(q[2]), CharSextet(q[3])))
    else None
  }

  /** The last quantum, which may carry one or two `=` characters of padding. */
  function DecodeFinalQuad(q: string): Option<seq<byte>>
    requires |q| == 4
  {
    if q[2] == '=' && q[3] == '=' then
      if IsBase64Char(q[0]) && IsBase64Char(q[1]) then
        Some([CharSextet(q[0]) * 4 + CharSextet(q[1]) / 16])
      else None
    else if q[3] == '=' then
      if IsBase64Char(q[0]) && IsBase64Char(q[1]) && IsBase64Char(q[2]) then
        var c0, c1, c2 := CharSextet(q[0]), CharSextet(q[1]), CharSextet(q[2]);
        Some([c0 * 4 + c1 / 16, (c1 % 16) * 16 + c2 / 4])
      else None
    else DecodeFullQuad(q)
  }

  function DecodeQuads(s: string): Option<seq<byte>>
    requires |s| % 4 == 0
    decreases |s|
  {
    if |s| == 0 then Some([])
    else if |s| == 4 then DecodeFinalQuad(s)
    else
      match DecodeFullQuad(s[..4])
      case None => None
      case Some(head) =>
        match DecodeQuads(s[4..])
        case None => None
        case Some(tail) => Some(head + tail)
  }

  /** The octets `s` encodes, or None when `s` is not base64 text. */
  function Decode(s: string): Option<seq<byte>> {
    if |s| % 4 != 0 then None else DecodeQuads(s)
  }

  /** The four 6-bit groups of three octets are in range and recombine to the octets. */
  lemma BlockArith(b0: int, b1: int, b2: int)
    requires 0 <= b0 < 256 && 0 <= b1 < 256 && 0 <= b2 < 256
    ensures var c0, c1, c2, c3 := b0 / 4, (b0 % 4) * 16 + b1 / 16, (b1 % 16) * 4 + b2 / 64, b2 % 64;
      && 0 <= c0 < 64 && 0 <= c1 < 64 && 0 <= c2 < 64 && 0 <= c3 < 64
      && c0 * 4 + c1 / 16 == b0 && (c1 % 16) * 16 + c2 / 4 == b1 && (c2 % 4) * 64 + c3 == b2
  {
    var c1, c2 := (b0 % 4) * 16 + b1 / 16, (b1 % 16) * 4 + b2 / 64;
    assert c1 / 16 == b0 % 4 && c1 % 16 == b1 / 16;
    assert c2 / 4 == b1 % 16 && c2 % 4 == b2 / 64;
  }

  lemma EncodeBlockRoundTrip(b0: byte, b1: byte, b2: byte)
    ensures DecodeFullQuad(EncodeBlock(b0, b1, b2)) == Some([b0, b1, b2])
  {
    var c0, c1, c2, c3 := b0 / 4, (b0 % 4) * 16 + b1 / 16, (b1 % 16) * 4 + b2 / 64, b2 % 64;
    BlockArith(b0, b1, b2);
    SextetCharRoundTrip(c0);
    SextetCharRoundTrip(c1);
    SextetCharRoundTrip(c2);
    SextetCharRoundTrip(c3);
  }

  lemma EncodeOneRoundTrip(b0: byte)
    ensures Decode(Encode([b0])) == Some([b0])
  {
    var c0, c1 := b0 / 4, (b0 % 4) * 16;
    SextetCharRoundTrip(c0);
    SextetCharRoundTrip(c1);
    var q := [SextetChar(c0), SextetChar(c1), '=', '='];
    assert Encode([b0]) == q;
    assert DecodeFinalQuad(q) == Some([c0 * 4 + c1 / 16]);
  }

  lemma EncodeTwoRoundTrip(b0: byte, b1: byte)
    ensures Decode(Encode([b0, b1])) == Some([b0, b1])
  {
    var c0, c1, c2 := b0 / 4, (b0 % 4) * 16 + b1 / 16, (b1 % 16) * 4;
    SextetCharRoundTrip(c0);
    SextetCharRoundTrip(c1);
    SextetCharRoundTrip(c2);
    var q := [SextetChar(c0), SextetChar(c1), SextetChar(c2), '='];
    assert Encode([b0, b1]) == q;
    assert c1 / 16 == b0 % 4 && c1 % 16 == b1 / 16;
    assert DecodeFinalQuad(q) == Some([c0 * 4 + c1 / 16, (c1 % 16) * 16 + c2 / 4]);
  }

  /** A block without padding is decoded as a full quantum when it comes last. */
  lemma FullQuadNotFinal(b0: byte, b1: byte, b2: byte)
    ensures DecodeFinalQuad(EncodeBlock(b0, b1, b2)) == DecodeFullQuad(EncodeBlock(b0, b1, b2))
  {
    SextetCharRoundTrip((b1 % 16) * 4 + b2 / 64);
    SextetCharRoundTrip(b2 % 64);
  }

  lemma EncodeThreeRoundTrip(b0: byte, b1: byte, b2: byte)
    ensures Decode(Encode([b0, b1, b2])) == Some([b0, b1, b2])
  {
    var q := EncodeBlock(b0, b1, b2);
    assert [b0, b1, b2][3..] == [];
    assert Encode([b0, b1, b2]) == q + [] == q;
    EncodeBlockRoundTrip(b0, b1, b2);
    FullQuadNotFinal(b0, b1, b2);
  }

  /** Data of one, two or three octets: a single, final quantum. */
  lemma DecodeEncodeOne(data: seq<byte>)
    requires |data| == 1
    ensures Decode(Encode(data)) == Some(data)
  {
    assert data == [data[0]];
    EncodeOneRoundTrip(data[0]);
  }

  lemma DecodeEncodeTwo(data: seq<byte>)
    requires |data| == 2
    ensures Decode(Encode(data)) == Some(data)
  {
    assert data == [data[0], data[1]];
    EncodeTwoRoundTrip(data[0], data[1]);
  }

  lemma DecodeEncodeThree(data: seq<byte>)
    requires |data| == 3
    ensures Decode(Encode(data)) == Some(data)
  {
    assert data == [data[0], data[1], data[2]];
    EncodeThreeRoundTrip(data[0], data[1], data[2]);
  }

  /** A full quantum followed by more quanta decodes to its octets followed by theirs. */
  lemma DecodeQuadsCons(head: string, tail: string, h: seq<byte>, t: seq<byte>)
    requires |head| == 4 && |tail| > 0 && |tail| % 4 == 0
    requires DecodeFullQuad(head) == Some(h) && DecodeQuads(tail) == Some(t)
    ensures DecodeQuads(head + tail) == Some(h + t)
  {
    assert (head + tail)[..4] == head && (head + tail)[4..] == tail;
  }

  /** Decoding undoes encoding, for every octet string. */
  lemma {:induction false} DecodeEncode(data: seq<byte>)
    ensures Decode(Encode(data)) == Some(data)
    decreases |data|
  {
    if |data| == 1 {
      DecodeEncodeOne(data);
    } else if |data| == 2 {
      DecodeEncodeTwo(data);
    } else if |data| == 3 {
      DecodeEncodeThree(data);
    } else if |data| > 3 {
      DecodeEncode(data[3..]);
      DecodeEncodeLong(data);
    }
  }

  lemma ConsThree(data: seq<byte>)
    requires |data| >= 3
    ensures data == [data[0], data[1], data[2]] + data[3..]
  {
  }

  /** A leading block of three octets in front of data that round-trips. */
  lemma DecodeEncodeLong(data: seq<byte>)
    requires |data| > 3 && Decode(Encode(data[3..])) == Some(data[3..])
    ensures Decode(Encode(data)) == Some(data)
  {
    var rest := data[3..];
    ConsThree(data);
    var head := EncodeBlock(data[0], data[1], data[2]);
    var tail := Encode(rest);
    assert Encode(data) == head + tail;
    EncodeBlockRoundTrip(data[0], data[1], data[2]);
    assert |tail| > 0 && |tail| % 4 == 0;
    assert DecodeQuads(tail) == Some(rest);
    DecodeQuadsCons(head, tail, [data[0], data[1], data[2]], rest);
  }

  /** Only text made of alphabet characters and `=`, in whole quanta, decodes. */
  lemma {:induction false} DecodedTextShape(s: string)
    requires Decode(s).Some?
    ensures |s| % 4 == 0
    ensures forall i :: 0 <= i < |s| ==> IsBase64Char(s[i]) || s[i] == '='
  {
    DecodeQuadsShape(s);
  }

  lemma {:induction false} DecodeQuadsShape(s: string)
    requires |s| % 4 == 0 && DecodeQuads(s).Some?
    ensures forall i :: 0 <= i < |s| ==> IsBase64Char(s[i]) || s[i] == '='
    decreases |s|
  {
    if |s| > 4 {
      DecodeQuadsShape(s[4..]);
      forall i | 4 <= i < |s| ensures IsBase64Char(s[i]) || s[i] == '=' {
        assert s[i] == s[4..][i - 4];
      }
    }
  }

  /**
   * Padding may only close the text: in text that decodes, `=` appears only
   * among the last two characters, and the second-to-last is `=` only when
   * the last is too ("xx==" or "xxx=").
   */
  lemma {:induction false} DecodedPaddingPlacement(s: string)
    requires Decode(s).Some?
    ensures forall i :: 0 <= i < |s| && s[i] == '=' ==>
      |s| - 2 <= i && (i == |s| - 2 ==> s[|s| - 1] == '=')
  {
    DecodeQuadsPadding(s);
  }

  lemma {:induction false} DecodeQuadsPadding(s: string)
    requires |s| % 4 == 0 && DecodeQuads(s).Some?
    ensures forall i :: 0 <= i < |s| && s[i] == '=' ==>
      |s| - 2 <= i && (i == |s| - 2 ==> s[|s| - 1] == '=')
    decreases |s|
  {
    if |s| > 4 {
      var head := s[..4];
      assert DecodeFullQuad(head).Some?;
      assert forall i :: 0 <= i < 4 ==> s[i] == head[i] && IsBase64Char(head[i]);
      DecodeQuadsPadding(s[4..]);
      forall i | 4 <= i < |s| && s[i] == '='
        ensures |s| - 2 <= i && (i == |s| - 2 ==> s[|s| - 1] == '=')
      {
        assert s[i] == s[4..][i - 4];
        assert s[|s| - 1] == s[4..][|s[4..]| - 1];
      }
    }
  }
}
