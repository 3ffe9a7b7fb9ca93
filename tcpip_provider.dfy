/**
 * The TCP/IP provider's choices that do not touch the network: which of the
 * loaded messages a worker sends next, which port the next connection goes
 * to, and the empty message that stands in for a missing file name.
 */
module TcpIpProvider {
  import opened JavaLang

  const PRIME: int32 := 1
  const THREAD: int32 := 2

  /**
   * getMessageIndex: the "pa" pattern picks the message. PRIME walks up to
   * the last message and stays there, THREAD gives each thread its own and
   * any other pattern cycles with the iteration. The remainder is Java's;
   * with no messages it throws.
   */
  function MessageIndex(pattern: int32, iter: int32, thread: int32, count: int32): (r: Result<int32>)
    requires 0 <= count
    ensures r.Err? <==> pattern != PRIME && count == 0
    ensures r.Err? ==> r.error == Arithmetic
    ensures 0 < count && 0 <= iter && 0 <= thread ==> r.Ok? && 0 <= r.value < count
    ensures pattern == PRIME && 0 < count && count - 1 <= iter ==> r == Ok(count - 1)
  {
    if pattern == PRIME then Ok(Min(iter as int, count as int - 1) as int32)
    else if count == 0 then Err(Arithmetic)
    else if pattern == THREAD then Ok(JavaRem(thread as int, count as int) as int32)
    else Ok(JavaRem(iter as int, count as int) as int32)
  }

  /** CYCLE: count iterations later the same message comes round again. */
  lemma CycleRepeats(pattern: int32, iter: int32, thread: int32, count: int32)
    requires pattern != PRIME && pattern != THREAD && 0 < count && 0 <= iter && iter as int + count as int <= INT_MAX
    ensures MessageIndex(pattern, (iter as int + count as int) as int32, thread, count) == MessageIndex(pattern, iter, thread, count)
  {
    ModShift(iter as int, count as int);
  }

  /**
   * loadMessageFromFile: an empty name gives an empty message without
   * touching the file system; otherwise `read` is what reading the named file gives.
   */
  function LoadMessageFromFile(fileName: string, read: Result<seq<byte>>): (r: Result<seq<byte>>)
    ensures fileName == "" ==> r == Ok([])
    ensures fileName != "" ==> r == read
  {
    if fileName == "" then Ok([]) else read
  }

  /**
   * The port rotation shared by getSocket and getSSLSocket. After each
   * connect, with a range of more than one port, the current port moves up
   * by one and back to the first after port + portRange - 1 (an int sum).
   */
  class PortRotation {
    const port: int32
    const portRange: int32
    var currentPort: int32
    /** Connections made so far. */
    ghost var connects: nat

    /** The range fits in an int: the last port is port + portRange - 1. */
    predicate Rotates()
      ensures Rotates() ==> LastPort(port, portRange) as int == port as int + portRange as int - 1
    {
      portRange > 1 && IsInt32(port as int + portRange as int - 1)
    }

    /** The port after k connections: k mod portRange places up the range, or the first port. */
    ghost predicate Valid()
      reads this
    {
      if Rotates() then currentPort as int == port as int + connects % portRange as int
      else currentPort == port
    }

    /** setupProvider: the current port starts at the first. */
    constructor(firstPort: int32, range: int32)
      ensures port == firstPort && portRange == range && currentPort == firstPort && connects == 0 && Valid()
    {
      port := firstPort;
      portRange := range;
      currentPort := firstPort;
      connects := 0;
    }

    /**
     * The rotation after socket.connect. When port + portRange - 1 overflows,
     * the wrapped bound lies below every port, so the port stays the first.
     */
    method AfterConnect()
      requires Valid()
      modifies this
      ensures Valid() && connects == old(connects) + 1
      ensures !Rotates() ==> currentPort == port
      ensures Rotates() && old(currentPort) as int < port as int + portRange as int - 1 ==> currentPort == old(currentPort) + 1
      ensures Rotates() && old(currentPort) as int == port as int + portRange as int - 1 ==> currentPort == port
    {
      if portRange > 1 {
        if Rotates() {
          RotateStep(connects, portRange as int, currentPort as int - port as int);
        }
        if currentPort >= LastPort(port, portRange) {
          currentPort := port;
        } else {
          currentPort := currentPort + 1;
        }
      }
      connects := connects + 1;
    }
  }

  /**
   * port + portRange - 1 in int arithmetic. For a range of more than one
   * port whose end overflows, the wrapped value lies below the first port.
   */
  function LastPort(port: int32, range: int32): (r: int32)
    ensures IsInt32(port as int + range as int - 1) ==> r as int == port as int + range as int - 1
    ensures range > 1 && !IsInt32(port as int + range as int - 1) ==> r < port
  {
    var exact := port as int + range as int - 1;
    if exact > INT_MAX then (exact - 0x1_0000_0000) as int32
    else if exact < INT_MIN then (exact + 0x1_0000_0000) as int32
    else exact as int32
  }

  /** Two int operands are at most one 2^32 out of range, so one correction is Java's wrap-around. */
  lemma LastPortWraps(port: int32, range: int32)
    ensures LastPort(port, range) == Wrap32(port as int + range as int - 1)
  {
    var exact := port as int + range as int - 1;
    if exact > INT_MAX {
      Wrap32Shift(LastPort(port, range), 1);
    } else if exact < INT_MIN {
      Wrap32Shift(LastPort(port, range), -1);
    }
  }

  /** One step of the rotation in numbers: the port k mod n places up moves to the one (k + 1) mod n places up. */
  lemma RotateStep(k: nat, n: int, offset: int)
    requires n > 1 && offset == k % n
    ensures offset < n - 1 ==> offset + 1 == (k + 1) % n
    ensures offset >= n - 1 ==> (k + 1) % n == 0
  {
    ModStep(k, n);
  }
}
