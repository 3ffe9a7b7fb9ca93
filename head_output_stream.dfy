/**
 * An output stream that keeps only the head of what is written to it: bytes
 * go into a fixed array until it is full, and the rest are dropped.
 */
module Head {
  import opened JavaLang

  class HeadOutputStream {
    const buf: array<byte>
    var ofs: int32
    var overflow: bool
    /** Every byte presented to the stream so far, kept or not. */
    ghost var written: seq<byte>

    /** The array holds the first ofs = min(capacity, |written|) bytes written; overflow stays clear. */
    ghost predicate Valid()
      reads this, buf
    {
      buf.Length <= INT_MAX && ofs as int == Min(buf.Length, |written|) &&
      buf[..ofs] == written[..ofs] && !overflow
    }

    constructor(b: array<byte>)
      requires b.Length <= INT_MAX
      ensures buf == b && ofs == 0 && written == [] && Valid()
    {
      ofs := 0;
      overflow := false;
      buf := b;
      written := [];
    }

    function GetOffset(): (n: int32)
      reads this, buf
      requires Valid()
      ensures 0 <= n as int <= buf.Length
    {
      ofs
    }

    /** No method ever sets the overflow flag. */
    function GetOverflow(): (o: bool)
      reads this, buf
      requires Valid()
      ensures !o
    {
      overflow
    }

    /** System.arraycopy of `src` to the offset, which then moves past it. */
    method Place(src: seq<byte>)
      requires buf.Length <= INT_MAX && 0 <= ofs as int && ofs as int + |src| <= buf.Length
      modifies this, buf
      ensures ofs as int == old(ofs) as int + |src| && written == old(written) && overflow == old(overflow)
      ensures buf[..ofs] == old(buf[..ofs]) + src && buf[ofs..] == old(buf[..])[ofs..]
    {
      forall i | 0 <= i < |src| {
        buf[ofs as int + i] := src[i];
      }
      assert buf[ofs..ofs as int + |src|] == src;
      assert buf[..ofs as int + |src|] == buf[..ofs] + buf[ofs..ofs as int + |src|];
      ofs := (ofs as int + |src|) as int32;
    }

    /** write(byte[] b): as much of b as still fits. */
    method WriteAll(b: array<byte>)
      requires Valid()
      modifies this, buf
      ensures Valid() && written == old(written) + old(b[..])
      ensures buf[ofs..] == old(buf[..])[ofs..]
    {
      var src := b[..];
      if ofs as int < buf.Length {
        var n := Min(b.Length, buf.Length - ofs as int);
        Place(src[..n]);
      }
      written := written + src;
    }

    /**
     * write(b, off, len): copies min(b.length, len, remaining) bytes from b[off..];
     * a negative count or a range outside b throws.
     */
    method WriteRange(b: array<byte>, off: int32, len: int32) returns (r: Result<()>)
      requires Valid()
      modifies this, buf
      ensures Valid()
      ensures 0 <= off && 0 <= len && off as int + len as int <= b.Length ==>
        r == Ok(()) && written == old(written) + old(b[off..off as int + len as int])
      ensures var n := Min(Min(b.Length, len as int), buf.Length - old(ofs) as int);
        old(ofs) as int < buf.Length && (n < 0 || off < 0 || off as int + n > b.Length) ==>
          r == Err(IndexOutOfBounds) && ofs == old(ofs) && written == old(written) && buf[..] == old(buf[..])
      ensures buf[ofs..] == old(buf[..])[ofs..]
    {
      var wellFormed := 0 <= off && 0 <= len && off as int + len as int <= b.Length;
      var presented: seq<byte> := if wellFormed then b[off..off as int + len as int] else [];
      if ofs as int < buf.Length {
        var n := Min(Min(b.Length, len as int), buf.Length - ofs as int);
        if n < 0 || off < 0 || off as int + n > b.Length {
          return Err(IndexOutOfBounds);
        }
        var src := b[off..off as int + n];
        if !wellFormed {
          presented := src;
        }
        assert src == presented[..n];
        Place(src);
      }
      written := written + presented;
      return Ok(());
    }

    /** write(int): the low byte, if there is room. */
    method Write(b: int32)
      requires Valid()
      modifies this, buf
      ensures Valid() && written == old(written) + [LowByte(b as int)]
      ensures buf[ofs..] == old(buf[..])[ofs..]
    {
      if ofs as int < buf.Length {
        buf[ofs] := LowByte(b as int);
        assert buf[..ofs as int + 1] == buf[..ofs] + [buf[ofs]];
        ofs := ofs + 1;
      }
      written := written + [LowByte(b as int)];
    }
  }
}
