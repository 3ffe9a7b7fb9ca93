/**
 * A wrapper that lets a 24-byte MQ correlation id serve as a hash-map key:
 * content equality, a cached Arrays.hashCode and a lower-case hex rendering.
 */
module CorrelId {
  import opened JavaLang
  import opened HexText

  /** A byte as Java stores it: -128..127. */
  function Signed(b: byte): int {
    if b >= 128 then b - 256 else b
  }

  /** java.util.Arrays.hashCode(byte[]): 31 * h + element, from 1, in int arithmetic. */
  function ArraysHashCode(s: seq<byte>): int32 {
    if s == [] then 1 else Wrap32(31 * ArraysHashCode(s[..|s| - 1]) as int + Signed(s[|s| - 1]))
  }

  /** getHexString: two lower-case hex digits per byte, built by concatenation. */
  method GetHexString(b: array<byte>) returns (result: string)
    ensures result == HexString(b[..], false)
  {
    result := "";
    var i := 0;
    while i < b.Length
      invariant 0 <= i <= b.Length
      invariant result == HexString(b[..i], false)
    {
      assert b[..i + 1] == b[..i] + [b[i]];
      HexStringSnoc(b[..i], b[i], false);
      result := result + HexPair(b[i], false);
      i := i + 1;
    }
    assert b[..i] == b[..];
  }

  class MQByteArrayHolder {
    var data: array<byte>
    var dataHashCode: int32

    constructor(capacity: int32)
      requires 0 <= capacity
      ensures fresh(data) && data.Length == capacity as int && dataHashCode == -1
      ensures forall i :: 0 <= i < data.Length ==> data[i] == 0
    {
      data := new byte[capacity](_ => 0);
      dataHashCode := -1;
    }

    /**
     * setData: copies b over the front of data, leaving later bytes, and caches
     * the hash of the whole array. An id longer than the array throws before copying.
     */
    method SetData(b: array<byte>) returns (r: Result<()>)
      modifies this, data
      ensures data == old(data)
      ensures b.Length <= data.Length ==>
        r == Ok(()) && data[..] == old(b[..]) + old(data[b.Length..]) && dataHashCode == ArraysHashCode(data[..])
      ensures b.Length > data.Length ==>
        r == Err(IndexOutOfBounds) && data[..] == old(data[..]) && dataHashCode == old(dataHashCode)
    {
      if b.Length > data.Length {
        return Err(IndexOutOfBounds);
      }
      var src := b[..];
      forall i | 0 <= i < |src| {
        data[i] := src[i];
      }
      assert data[..] == src + old(data[b.Length..]);
      dataHashCode := ArraysHashCode(data[..]);
      return Ok(());
    }

    method ToString() returns (s: string)
      ensures s == HexString(data[..], false)
    {
      s := GetHexString(data);
    }

    function HashCode(): int32
      reads this
    {
      dataHashCode
    }

    /** equals: another holder whose array has the same contents. */
    predicate Equals(other: MQByteArrayHolder?)
      reads this, data, other, if other != null then {other.data} else {}
    {
      other != null && data[..] == other.data[..]
    }
  }

  // ---------------------------------------------------------------------------
  // What the key operations agree on

  /** Two holders are equal exactly when their hex strings are. */
  lemma EqualsIffSameString(a: MQByteArrayHolder, b: MQByteArrayHolder)
    ensures a.Equals(b) <==> HexString(a.data[..], false) == HexString(b.data[..], false)
  {
    if HexString(a.data[..], false) == HexString(b.data[..], false) {
      HexStringInjective(a.data[..], b.data[..], false);
    }
  }

  /** Ids that differ only in their last byte hash differently. */
  lemma LastByteChangesHash(prefix: seq<byte>, x: byte, y: byte)
    requires x != y
    ensures ArraysHashCode(prefix + [x]) != ArraysHashCode(prefix + [y])
  {
    assert (prefix + [x])[..|prefix|] == prefix;
    assert (prefix + [y])[..|prefix|] == prefix;
    var h := 31 * ArraysHashCode(prefix) as int;
    if Wrap32(h + Signed(x)) == Wrap32(h + Signed(y)) {
      Wrap32Injective(h + Signed(x), h + Signed(y));
    }
  }

  /** n zero bytes print as 2n zeros. */
  lemma {:induction false} HexOfZeros(n: nat)
    ensures HexString(seq(n, _ => 0), false) == seq(2 * n, _ => '0')
  {
    if n > 0 {
      HexOfZeros(n - 1);
      assert seq(n, _ => 0) == seq(n - 1, _ => 0) + [0];
      HexStringSnoc(seq(n - 1, _ => 0), 0, false);
      assert seq(2 * n, _ => '0') == seq(2 * (n - 1), _ => '0') + "00";
    }
  }

  /** The 24-byte id ending in 1 prints as 47 zeros and a 1. */
  lemma IdOnePrints()
    ensures HexString(seq(23, _ => 0) + [1], false) == seq(47, _ => '0') + "1"
  {
    HexOfZeros(23);
    HexStringSnoc(seq(23, _ => 0), 1, false);
    assert HexPair(1, false) == "01";
    assert seq(46, _ => '0') + "01" == seq(47, _ => '0') + "1";
  }
}
