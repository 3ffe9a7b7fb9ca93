/** An expandable byte array: a buffer and the count of its bytes in use. */
module Bytes {
  import opened JavaLang
  import opened HexText

  class ByteArray {
    var length: int32
    var buf: array<byte>

    /** ByteArray(int capacity): an empty, zero-filled buffer. */
    constructor WithCapacity(capacity: int32)
      requires 0 <= capacity
      ensures length == 0 && fresh(buf) && buf.Length == capacity as int
      ensures forall i :: 0 <= i < buf.Length ==> buf[i] == 0
    {
      buf := new byte[capacity](_ => 0);
      length := 0;
    }

    /** ByteArray(byte[] bytes): wraps the caller's array itself, all of it in use. */
    constructor(bytes: array<byte>)
      requires bytes.Length <= INT_MAX
      ensures buf == bytes && length as int == bytes.Length
    {
      buf := bytes;
      length := bytes.Length as int32;
    }

    /**
     * Makes room for `size` bytes: a smaller buffer is replaced by one of
     * max(size, 2 * old size) bytes holding the old contents; length stays.
     */
    method EnsureCapacity(size: int32)
      requires buf.Length <= INT_MAX
      modifies this
      ensures length == old(length)
      ensures buf.Length >= size as int
      ensures old(buf.Length) >= size as int ==> buf == old(buf)
      ensures old(buf.Length) < size as int ==>
        fresh(buf) && buf.Length == Max(size as int, Wrap32(old(buf.Length) * 2)) &&
        buf[..old(buf.Length)] == old(buf[..]) &&
        forall i :: old(buf.Length) <= i < buf.Length ==> buf[i] == 0
    {
      if buf.Length < size as int {
        var newbuf := new byte[Max(size as int, Wrap32(buf.Length * 2))](_ => 0);
        forall i | 0 <= i < buf.Length {
          newbuf[i] := buf[i];
        }
        buf := newbuf;
      }
    }
  }

  /**
   * ByteArray.toHexString(a, start, length): two upper-case digits for each of
   * a[start], ..., a[length - 1]. The end bound is the index `length`, not
   * start + length; an index outside the array throws.
   */
  method ToHexString(a: array<byte>, start: int32, length: int32) returns (r: Result<string>)
    ensures start >= length ==> r == Ok("")
    ensures start < length && (start < 0 || length as int > a.Length) ==> r == Err(IndexOutOfBounds)
    ensures 0 <= start < length && length as int <= a.Length ==> r == Ok(HexString(a[start..length], true))
  {
    var sb := "";
    var i := start;
    while i < length
      invariant start < length ==> start <= i <= length
      invariant start >= length || start < 0 ==> i == start && sb == ""
      invariant 0 <= start < length && i != start ==> i as int <= a.Length
      invariant 0 <= start <= i <= a.Length ==> sb == HexString(a[start..i], true)
    {
      if i < 0 || i as int >= a.Length {
        return Err(IndexOutOfBounds);
      }
      assert a[start..i + 1] == a[start..i] + [a[i]];
      HexStringSnoc(a[start..i], a[i], true);
      sb := sb + HexPair(a[i], true);
      i := i + 1;
    }
    return Ok(sb);
  }

  /** ByteArray.toHexString(a): the whole array. */
  method ToHexStringAll(a: array<byte>) returns (r: string)
    requires a.Length <= INT_MAX
    ensures r == HexString(a[..], true)
  {
    var res := ToHexString(a, 0, a.Length as int32);
    if a.Length == 0 {
      assert a[..] == [];
    } else {
      assert a[0..a.Length] == a[..];
    }
    r := res.value;
  }
}
