/**
 * An unsynchronised byte input stream over a shared ByteArray, reading from
 * `position` up to the ByteArray's `length`, with mark and reset.
 */
module FastInput {
  import opened JavaLang
  import opened Bytes

  /**
   * skip(n) as written: `position + n` is a long sum that can wrap, and
   * `position += n` narrows the long result back to an int.
   */
  function SkipAsWritten(position: int32, length: int32, n: int64): (r: (int64, int32))
    ensures IsInt64(position as int + n as int) ==>
      r.0 == Max(0, Min(n as int, length as int - position as int))
    ensures IsInt64(position as int + n as int) && r.0 > 0 ==> r.1 as int == position as int + r.0 as int
    ensures r.0 <= 0 ==> r.1 == position
  {
    var k: int64 := if Wrap64(position as int + n as int) > length as int then length as int - position as int else n;
    if k < 0 then (0, position)
    else (k, Wrap32(Wrap64(position as int + k as int)))
  }

  /** skip(n) as evidently intended: never more than the bytes available. */
  function SkipClamped(position: int32, length: int32, n: int64): (r: (int64, int32))
    requires 0 <= position <= length
    ensures 0 <= r.0 as int <= length as int - position as int
    ensures r.1 as int == position as int + r.0 as int
    ensures n >= 0 ==> r.0 as int == Min(n as int, length as int - position as int)
    ensures n as int >= length as int - position as int ==> r.1 == length
  {
    var k := if n as int > length as int - position as int then length as int - position as int else n as int;
    if k < 0 then (0, position) else (k as int64, (position as int + k) as int32)
  }

  class FastByteArrayInputStream {
    const data: ByteArray
    var position: int32
    var mark: int32

    /** The positions are not negative and the shared ByteArray's length lies within its buffer. */
    ghost predicate Valid()
      reads this, data
    {
      0 <= position && 0 <= mark && 0 <= data.length as int <= data.buf.Length
    }

    constructor(byteArray: ByteArray)
      requires 0 <= byteArray.length as int <= byteArray.buf.Length
      ensures data == byteArray && position == 0 && mark == 0 && Valid()
    {
      data := byteArray;
      position := 0;
      mark := 0;
    }

    /** read(): the next byte as 0..255, or -1 at the end without moving. */
    method Read() returns (r: int32)
      requires Valid()
      modifies this
      ensures Valid() && mark == old(mark)
      ensures old(position) <= data.length ==> position <= data.length
      ensures old(position) < data.length ==> r == data.buf[old(position)] as int32 && position == old(position) + 1
      ensures old(position) >= data.length ==> r == -1 && position == old(position)
    {
      if position < data.length {
        r := data.buf[position] as int32;
        position := position + 1;
      } else {
        r := -1;
      }
    }

    /**
     * read(b, off, len): -1 at the end; otherwise copies min(len, available)
     * bytes into b[off..] and advances past them. A copy outside either array throws.
     * When position + len wraps, len is not clamped and the copy is checked against the buffer only.
     */
    method ReadInto(b: array<byte>, off: int32, len: int32) returns (r: Result<int32>)
      requires Valid()
      modifies this, b
      ensures mark == old(mark)
      ensures old(position) >= data.length ==> r == Ok(-1) && position == old(position) && b[..] == old(b[..])
      ensures old(position) < data.length && len <= 0 ==> r == Ok(0) && position == old(position) && b[..] == old(b[..])
      ensures var n := Min(len as int, data.length as int - old(position) as int);
        old(position) < data.length && 0 < len && old(position) as int + len as int <= INT_MAX &&
        0 <= off && off as int + n <= b.Length ==>
          r == Ok(n as int32) && position as int == old(position) as int + n && Valid() &&
          b[off..off as int + n] == old(data.buf[position..position as int + n]) &&
          b[..off] == old(b[..off]) && b[off as int + n..] == old(b[off as int + n..])
      ensures old(position) < data.length && 0 < len && old(position) as int + len as int <= INT_MAX && (off < 0 || off as int + Min(len as int, data.length as int - old(position) as int) > b.Length) ==>
        r == Err(IndexOutOfBounds) && position == old(position) && b[..] == old(b[..])
    {
      if position >= data.length {
        return Ok(-1);
      }
      var n := len;
      if Wrap32(position as int + len as int) > data.length {
        n := data.length - position;
      }
      if n <= 0 {
        return Ok(0);
      }
      if off < 0 || off as int + n as int > b.Length || position as int + n as int > data.buf.Length {
        return Err(IndexOutOfBounds);
      }
      var src := data.buf[position..position as int + n as int];
      forall i | 0 <= i < n as int {
        b[off as int + i] := src[i];
      }
      position := Wrap32(position as int + n as int);
      return Ok(n);
    }

    /** skip(n), as written. */
    method Skip(n: int64) returns (r: int64)
      requires Valid()
      modifies this
      ensures (r, position) == SkipAsWritten(old(position), data.length, n)
      ensures mark == old(mark) && Valid()
      ensures old(position) <= data.length ==> position <= data.length
    {
      SkipStaysInside(position, data.length, n);
      var k := n;
      if Wrap64(position as int + k as int) > data.length as int {
        k := data.length as int - position as int;
      }
      if k < 0 {
        return 0;
      }
      position := Wrap32(Wrap64(position as int + k as int));
      return k;
    }

    function Available(): (n: int32)
      reads this, data
      requires Valid()
      ensures position <= data.length ==> n as int == data.length as int - position as int
    {
      Wrap32(data.length as int - position as int)
    }

    predicate MarkSupported() { true }

    method Mark(readAheadLimit: int32)
      modifies this
      ensures mark == position && position == old(position)
    {
      mark := position;
    }

    method Reset()
      modifies this
      ensures position == old(mark) && mark == old(mark)
    {
      position := mark;
    }
  }

  // ---------------------------------------------------------------------------
  // skip past the end

  /**
   * Skipping Long.MAX_VALUE from any position after the first byte overflows the
   * long sum: the whole amount is reported as skipped and the stream moves back
   * one byte instead of to the end.
   */
  lemma SkipMaxMovesBack(position: int32, length: int32)
    requires 1 <= position <= length
    ensures SkipAsWritten(position, length, LONG_MAX as int64) == (LONG_MAX as int64, position - 1)
  {
    var sum := position as int + LONG_MAX;
    assert Wrap64(sum) == sum - 0x1_0000_0000_0000_0000;
    Wrap32Shift(position - 1, -0x8000_0000);
  }

  /**
   * Whatever n is, skip never makes the position negative, and from a
   * position within the data it never leaves it: a wrapped long sum narrows
   * to a position before the old one.
   */
  lemma SkipStaysInside(position: int32, length: int32, n: int64)
    requires 0 <= position
    ensures 0 <= SkipAsWritten(position, length, n).1
    ensures position <= length ==> SkipAsWritten(position, length, n).1 <= length
  {
    var sum := position as int + n as int;
    if n >= 0 && sum > LONG_MAX && Wrap64(sum) <= length as int {
      var y := sum - 0x1_0000_0000_0000_0000 + 0x8000_0000_0000_0000;
      assert Wrap64(sum) == sum - 0x1_0000_0000_0000_0000;
      assert 0 <= y < position;
      Wrap32Shift(y, -0x8000_0000);
    }
  }

  /** The clamped skip from the same state lands on the end of the data. */
  lemma SkipMaxClampedReachesEnd(position: int32, length: int32)
    requires 0 <= position <= length
    ensures SkipClamped(position, length, LONG_MAX as int64) == ((length - position) as int64, length)
  {
  }
}
