/**
 * Two hexadecimal digits per byte, as written by ByteArray.toHexString
 * (`%02X`, upper case) and MQByteArrayHolder.getHexString (lower case), and
 * read back by Integer.parseInt(pair, 16).
 */
module HexText {
  import opened JavaLang

  /** One byte as two hex digits, high nibble first. */
  function HexPair(b: byte, upper: bool): (s: string)
    ensures |s| == 2
  {
    [HexDigit(b / 16, upper), HexDigit(b % 16, upper)]
  }

  /** The bytes in order, two hex digits each. */
  function HexString(bytes: seq<byte>, upper: bool): (s: string)
    ensures |s| == 2 * |bytes|
  {
    if bytes == [] then "" else HexString(bytes[..|bytes| - 1], upper) + HexPair(bytes[|bytes| - 1], upper)
  }

  lemma HexStringSnoc(bytes: seq<byte>, b: byte, upper: bool)
    ensures HexString(bytes + [b], upper) == HexString(bytes, upper) + HexPair(b, upper)
  {
    assert (bytes + [b])[..|bytes|] == bytes;
  }

  /** Characters 2i and 2i+1 spell byte i. */
  lemma {:induction false} HexStringAt(bytes: seq<byte>, upper: bool, i: nat)
    requires i < |bytes|
    ensures HexString(bytes, upper)[2 * i..2 * i + 2] == HexPair(bytes[i], upper)
  {
    var init := bytes[..|bytes| - 1];
    if i < |init| {
      HexStringAt(init, upper, i);
      assert HexString(bytes, upper)[2 * i..2 * i + 2] == HexString(init, upper)[2 * i..2 * i + 2];
    } else {
      assert HexString(bytes, upper)[2 * i..2 * i + 2] == HexPair(bytes[i], upper);
    }
  }

  /** Integer.parseInt(pair, 16) reads each pair back as its byte. */
  lemma HexPairParses(b: byte, upper: bool)
    ensures ParseInteger(HexPair(b, upper), 16, INT_MIN, INT_MAX) == Ok(b as int)
  {
    var s := HexPair(b, upper);
    assert s[..1][..0] == [];
    assert DigitValue(s[0], 16) == b / 16 && DigitValue(s[1], 16) == b % 16;
    assert DigitsValue(s[..1], 16) == b / 16;
    assert s[..|s| - 1] == s[..1];
    assert DigitsValue(s, 16) == b;
  }

  /** Different byte sequences give different hex strings. */
  lemma HexStringInjective(a: seq<byte>, b: seq<byte>, upper: bool)
    requires HexString(a, upper) == HexString(b, upper)
    ensures a == b
  {
    forall i | 0 <= i < |a|
      ensures a[i] == b[i]
    {
      HexStringAt(a, upper, i);
      HexStringAt(b, upper, i);
      HexPairParses(a[i], upper);
      HexPairParses(b[i], upper);
    }
  }
}
