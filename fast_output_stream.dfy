/**
 * An unsynchronised byte output stream that appends into a ByteArray it owns
 * and hands that ByteArray out by reference.
 */
module FastOutput {
  import opened JavaLang
  import opened Bytes

  class FastByteArrayOutputStream {
    const data: ByteArray

    /** The count of bytes in use lies within the buffer, whose size is a Java int. */
    ghost predicate Valid()
      reads this, data
    {
      0 <= data.length as int <= data.buf.Length <= INT_MAX
    }

    /** The bytes written since the last reset. */
    function Contents(): seq<byte>
      reads this, data, data.buf
      requires Valid()
    {
      data.buf[..data.length]
    }

    constructor(initialSize: int32)
      requires 0 <= initialSize
      ensures Valid() && Contents() == [] && fresh(data) && fresh(data.buf)
      ensures data.buf.Length == initialSize as int
    {
      data := new ByteArray.WithCapacity(initialSize);
    }

    /**
     * write(int): appends the low byte. A stream already holding 2^31 - 1 bytes
     * cannot grow: the index is out of bounds after `length++` has wrapped.
     */
    method Write(b: int32) returns (r: Result<()>)
      requires Valid()
      modifies data, data.buf
      ensures old(data.length) < INT_MAX as int32 ==>
        r == Ok(()) && Valid() && Contents() == old(Contents()) + [LowByte(b as int)]
      ensures old(data.length) == INT_MAX as int32 ==>
        r == Err(IndexOutOfBounds) && data.length == INT_MIN as int32
    {
      ghost var before := Contents();
      data.EnsureCapacity(Wrap32(data.length as int + 1));
      var index := data.length;
      data.length := Wrap32(data.length as int + 1);
      if index as int >= data.buf.Length {
        return Err(IndexOutOfBounds);
      }
      data.buf[index] := LowByte(b as int);
      assert data.buf[..index] == before;
      return Ok(());
    }

    /**
     * write(b, off, len): appends b[off .. off + len). A range outside `b`, or a
     * total over 2^31 - 1 bytes, throws after the buffer may have grown.
     */
    method WriteRange(b: array<byte>, off: int32, len: int32) returns (r: Result<()>)
      requires Valid()
      modifies data, data.buf
      ensures Valid()
      ensures var ok := 0 <= off && 0 <= len && off as int + len as int <= b.Length &&
                        old(data.length) as int + len as int <= INT_MAX;
        (ok ==> r == Ok(()) && Contents() == old(Contents()) + old(b[off..off as int + len as int])) &&
        (!ok ==> r == Err(IndexOutOfBounds) && Contents() == old(Contents()))
    {
      ghost var before := Contents();
      var oldLength := data.length;
      var ok := 0 <= off && 0 <= len && off as int + len as int <= b.Length;
      var src: seq<byte> := if ok then b[off..off as int + len as int] else [];
      data.EnsureCapacity(Wrap32(data.length as int + len as int));
      assert data.buf[..oldLength] == before;
      if !ok || oldLength as int + len as int > data.buf.Length {
        return Err(IndexOutOfBounds);
      }
      forall i | 0 <= i < len as int {
        data.buf[oldLength as int + i] := src[i];
      }
      data.length := (oldLength as int + len as int) as int32;
      assert data.buf[..oldLength] == before;
      assert data.buf[oldLength..data.length] == src;
      assert Contents() == data.buf[..oldLength] + data.buf[oldLength..data.length];
      return Ok(());
    }

    /** getFastByteArray: the internal ByteArray itself. */
    function GetFastByteArray(): (a: ByteArray)
      ensures a == data
    {
      data
    }

    /** How many bytes of the buffer hold content. */
    function Size(): (n: int32)
      reads this, data, data.buf
      requires Valid()
      ensures n as int == |Contents()|
    {
      data.length
    }

    /** reset: empties the stream but keeps the buffer. */
    method Reset()
      requires Valid()
      modifies data
      ensures Valid() && Contents() == [] && data.buf == old(data.buf)
    {
      data.length := 0;
    }
  }
}
