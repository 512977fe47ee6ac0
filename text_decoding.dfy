/**
 * `String.decodeBase64()`: base64 text is decoded to octets and the octets to
 * UTF-8 text; when either step fails the string comes back unchanged.
 */
module TextDecoding {
  import opened Wrappers
  import Base64
  import Utf8

  /**
   * Never fails: the result is either the input itself, or a text whose UTF-8
   * octets are exactly what the input decodes to as base64.
   */
  function DecodeBase64(s: string): (r: string)
    ensures r == s || Base64.Decode(s) == Some(Utf8.Encode(r))
  {
    match Base64.Decode(s)
    case None => s
    case Some(data) =>
      match Utf8.Decode(data)
      case None => s
      case Some(text) => Utf8.EncodeDecode(data); text
  }

  /** The transport encoding the quiz API applies to every text field. */
  function EncodeBase64(s: string): string {
    Base64.Encode(Utf8.Encode(s))
  }

  /** Every string survives the API's encoding followed by `decodeBase64`. */
  lemma DecodeEncodedText(s: string)
    ensures DecodeBase64(EncodeBase64(s)) == s
  {
    Base64.DecodeEncode(Utf8.Encode(s));
    Utf8.DecodeEncode(s);
  }

  /** Text that is not base64 is returned unchanged: a wrong length... */
  lemma UnchangedWhenLengthIsNotQuanta(s: string)
    requires |s| % 4 != 0
    ensures DecodeBase64(s) == s
  {
  }

  /** ... or a character outside the alphabet and `=` (a space, say). */
  lemma UnchangedWhenForeignCharacter(s: string, i: int)
    requires 0 <= i < |s| && !Base64.IsBase64Char(s[i]) && s[i] != '='
    ensures DecodeBase64(s) == s
  {
    if Base64.Decode(s).Some? {
      Base64.DecodedTextShape(s);
    }
  }

  /**
   * ... or padding that does not close the text: an `=` before the last two
   * characters (as in "E=mc"), or second-to-last but followed by something
   * else.
   */
  lemma UnchangedWhenMisplacedPadding(s: string, i: int)
    requires 0 <= i < |s| && s[i] == '='
    requires i < |s| - 2 || (i == |s| - 2 && s[|s| - 1] != '=')
    ensures DecodeBase64(s) == s
  {
    if Base64.Decode(s).Some? {
      Base64.DecodedPaddingPlacement(s);
    }
  }

  /** Base64 text whose octets are not UTF-8 is returned unchanged too. */
  lemma UnchangedWhenNotUtf8(s: string)
    requires Base64.Decode(s).Some? && Utf8.Decode(Base64.Decode(s).value).None?
    ensures DecodeBase64(s) == s
  {
  }

  /**
   * Plain text that happens to be base64 is decoded anyway: "QUJD" becomes
   * "ABC", so the decoder is not the identity on unencoded text.
   */
  lemma PlainTextThatIsBase64IsDecoded()
    ensures DecodeBase64("QUJD") == "ABC"
  {
    var q := "QUJD";
    assert q[0] == 'Q' && q[1] == 'U' && q[2] == 'J' && q[3] == 'D';
    assert Base64.DecodeFullQuad(q) == Some(Base64.DecodeBlock(16, 20, 9, 3));
    assert Base64.Decode(q) == Some([65, 66, 67]);
    assert Utf8.Encode("ABC") == Utf8.EncodeScalar('A') + Utf8.Encode("BC");
    assert Utf8.Encode("BC") == Utf8.EncodeScalar('B') + Utf8.Encode("C");
    assert Utf8.Encode("ABC") == [65, 66, 67];
    Utf8.DecodeEncode("ABC");
  }
}
