/**
 * The message-building helpers of the MQ provider: the filler text of a
 * message body, the correlation id read from a hex string, and the
 * round-robin choice of the next message file.
 */
module MQMessages {
  import opened JavaLang
  import opened HexText

  // ---------------------------------------------------------------------------
  // makeBigString

  /** The filler: character k is 'A' + k mod 58, cycling through the codes 65..122. */
  function BigString(n: nat): (r: string)
    ensures |r| == n
  {
    seq(n, k => (65 + k % 58) as char)
  }

  /** The filler stays within 'A'..'z', starts at 'A', reaches 'z' at 57 and repeats every 58 characters. */
  lemma BigStringCycles(n: nat)
    ensures forall k :: 0 <= k < n ==> 'A' <= BigString(n)[k] <= 'z'
    ensures forall k :: 58 <= k < n ==> BigString(n)[k] == BigString(n)[k - 58]
    ensures n > 0 ==> BigString(n)[0] == 'A'
    ensures n > 57 ==> BigString(n)[57] == 'z' && (n > 58 ==> BigString(n)[58] == 'A')
  {
    var r := BigString(n);
    forall k | 58 <= k < n
      ensures r[k] == r[k - 58]
    {
      ModShift(k - 58, 58);
    }
  }

  /**
   * makeBigString(size): a negative size is refused by the StringBuffer
   * constructor; otherwise the loop appends c and moves it on, back to 65
   * after 122.
   */
  method MakeBigString(size: int32) returns (r: Result<string>)
    ensures size < 0 ==> r == Err(NegativeArraySize)
    ensures size >= 0 ==> r == Ok(BigString(size as int))
  {
    if size < 0 {
      return Err(NegativeArraySize);
    }
    var sb: string := "";
    var c := 65;
    var index := size;
    while index != 0
      invariant 0 <= index <= size
      invariant sb == BigString(size as int - index as int)
      invariant c == 65 + (size as int - index as int) % 58
    {
      ghost var done := size as int - index as int;
      index := index - 1;
      sb := sb + [c as char];
      c := c + 1;
      if c > 122 {
        c := 65;
      }
      ModStep(done, 58);
      assert sb == BigString(done + 1);
    }
    return Ok(sb);
  }

  // ---------------------------------------------------------------------------
  // convertStringToByte

  const ID_LENGTH: nat := 24

  function Zeros(n: nat): seq<byte> {
    seq(n, _ => 0)
  }

  /** The odd-length branch: the last digit and a "0" as byte i / 2; an even length leaves acc. */
  function PadOdd(value: string, i: nat, acc: seq<byte>): (r: Result<seq<byte>>)
    requires |acc| == ID_LENGTH
    ensures r.Ok? ==> |r.value| == ID_LENGTH
  {
    if |value| % 2 == 0 then Ok(acc)
    else match ParseInteger(value[|value| - 1..] + "0", 16, INT_MIN, INT_MAX)
      case Err(e) => Err(e)
      case Ok(v) => if i / 2 >= ID_LENGTH then Err(IndexOutOfBounds) else Ok(acc[i / 2 := LowByte(v)])
  }

  /**
   * One pass of the loop from i: substring(i, i + 2) past the end throws, a
   * pair that is no hex number throws, and one that parses is stored at
   * i / 2 (after the parse, so a 25th pair throws only if it parses).
   */
  function Store(value: string, i: nat, acc: seq<byte>): (r: Result<(seq<byte>, nat)>)
    requires |acc| == ID_LENGTH
    ensures r.Ok? ==> |r.value.0| == ID_LENGTH && r.value.1 == i + 2 <= |value|
  {
    if i + 2 > |value| then Err(IndexOutOfBounds)
    else match ParseInteger(value[i..i + 2], 16, INT_MIN, INT_MAX)
      case Err(e) => Err(e)
      case Ok(v) => if i / 2 >= ID_LENGTH then Err(IndexOutOfBounds) else Ok((acc[i / 2 := LowByte(v)], i + 2))
  }

  /** The loop as written: it runs while i < valueLength, then the odd-length branch. */
  function FillAsWritten(value: string, i: nat, acc: seq<byte>): (r: Result<seq<byte>>)
    requires |acc| == ID_LENGTH
    ensures r.Ok? ==> |r.value| == ID_LENGTH
    decreases |value| - i
  {
    if i >= |value| then PadOdd(value, i, acc)
    else match Store(value, i, acc)
      case Err(e) => Err(e)
      case Ok(next) => FillAsWritten(value, next.1, next.0)
  }

  /** convertStringToByte as written: a 24-byte id, and every odd-length value throws. */
  function ConvertAsWritten(value: string): (r: Result<seq<byte>>)
    ensures r.Ok? ==> |r.value| == ID_LENGTH
    ensures |value| % 2 == 1 ==> r.Err?
  {
    if |value| % 2 == 1 then
      OddLengthThrows(value, 0, Zeros(ID_LENGTH));
      FillAsWritten(value, 0, Zeros(ID_LENGTH))
    else FillAsWritten(value, 0, Zeros(ID_LENGTH))
  }

  /** The loop as evidently intended: whole pairs only, so an odd last digit reaches the padding. */
  function FillPairs(value: string, i: nat, acc: seq<byte>): (r: Result<seq<byte>>)
    requires |acc| == ID_LENGTH
    ensures r.Ok? ==> |r.value| == ID_LENGTH
    decreases |value| - i
  {
    if i + 1 >= |value| then PadOdd(value, i, acc)
    else match Store(value, i, acc)
      case Err(e) => Err(e)
      case Ok(next) => FillPairs(value, next.1, next.0)
  }

  /** convertStringToByte as evidently intended: an odd last digit is padded with 0. */
  function ConvertStringToBytes(value: string): (r: Result<seq<byte>>)
    ensures r.Ok? ==> |r.value| == ID_LENGTH
  {
    FillPairs(value, 0, Zeros(ID_LENGTH))
  }

  /**
   * convertStringToByte, loop for loop: the id starts as 24 zero bytes. The
   * odd-length branch after the loop is never reached, because the loop only
   * ends at an even i == valueLength.
   */
  method ConvertStringToByte(value: string) returns (r: Result<seq<byte>>)
    ensures r == ConvertAsWritten(value)
  {
    var byteArray := new byte[ID_LENGTH](_ => 0);
    assert byteArray[..] == Zeros(ID_LENGTH);
    var i := 0;
    while i < |value|
      invariant i % 2 == 0 && i <= |value| && byteArray.Length == ID_LENGTH
      invariant FillAsWritten(value, i, byteArray[..]) == ConvertAsWritten(value)
      decreases |value| - i
    {
      var stored := StoreAt(value, i, byteArray);
      if stored.Err? {
        return Err(stored.error);
      }
      i := i + 2;
    }
    if |value| % 2 != 0 {
      assert false;
    }
    return Ok(byteArray[..]);
  }

  /** The loop body: byteArray[i / 2] = (byte) Integer.parseInt(value.substring(i, i + 2), 16). */
  method StoreAt(value: string, i: nat, byteArray: array<byte>) returns (r: Result<()>)
    requires byteArray.Length == ID_LENGTH
    modifies byteArray
    ensures r.Ok? ==> Store(value, i, old(byteArray[..])) == Ok((byteArray[..], i + 2))
    ensures r.Err? ==> Store(value, i, old(byteArray[..])) == Err(r.error) && byteArray[..] == old(byteArray[..])
  {
    if i + 2 > |value| {
      return Err(IndexOutOfBounds);
    }
    var parsed := ParseInteger(value[i..i + 2], 16, INT_MIN, INT_MAX);
    if parsed.Err? {
      return Err(parsed.error);
    }
    if i / 2 >= byteArray.Length {
      return Err(IndexOutOfBounds);
    }
    byteArray[i / 2] := LowByte(parsed.value);
    assert byteArray[..] == old(byteArray[..])[i / 2 := LowByte(parsed.value)];
    return Ok(());
  }

  // ---------------------------------------------------------------------------
  // What the conversion gives

  /** On an even length the loop as written and the intended one agree. */
  lemma {:induction false} EvenLengthAgrees(value: string, i: nat, acc: seq<byte>)
    requires |value| % 2 == 0 && i % 2 == 0 && |acc| == ID_LENGTH
    ensures FillAsWritten(value, i, acc) == FillPairs(value, i, acc)
    decreases |value| - i
  {
    if i < |value| {
      match Store(value, i, acc)
      case Err(_) =>
      case Ok(next) => EvenLengthAgrees(value, next.1, next.0);
    }
  }

  /** As written, every odd-length value throws: its last pass asks for a pair past the end. */
  lemma {:induction false} OddLengthThrows(value: string, i: nat, acc: seq<byte>)
    requires |value| % 2 == 1 && i % 2 == 0 && i <= |value| && |acc| == ID_LENGTH
    ensures FillAsWritten(value, i, acc).Err?
    decreases |value| - i
  {
    match Store(value, i, acc)
    case Err(_) =>
    case Ok(next) => OddLengthThrows(value, next.1, next.0);
  }

  /** Integer.parseInt reads pair k of s, in base 16, as a value whose low byte is b. */
  predicate PairReads(s: string, k: nat, b: byte)
    requires 2 * k + 2 <= |s|
  {
    var v := ParseInteger(s[2 * k..2 * k + 2], 16, INT_MIN, INT_MAX);
    v.Ok? && LowByte(v.value) == b
  }

  /** s spells the bytes b: every pair of digits, in either case, reads as its byte. */
  ghost predicate Spells(s: string, b: seq<byte>) {
    |s| == 2 * |b| && forall k :: 0 <= k < |b| ==> PairReads(s, k, b[k])
  }

  /** Both the lower-case and the upper-case hex text of b spell b. */
  lemma HexSpells(b: seq<byte>, upper: bool)
    ensures Spells(HexString(b, upper), b)
  {
    forall k | 0 <= k < |b|
      ensures PairReads(HexString(b, upper), k, b[k])
    {
      HexPairReads(b, upper, k);
    }
  }

  lemma HexPairReads(b: seq<byte>, upper: bool, k: nat)
    requires k < |b|
    ensures PairReads(HexString(b, upper), k, b[k])
  {
    HexStringAt(b, upper, k);
    HexPairParses(b[k], upper);
    assert LowByte(b[k] as int) == b[k];
  }

  /** A pass over pair k of a spelling stores its byte at k and moves on two characters. */
  lemma StorePair(s: string, k: nat, acc: seq<byte>, b: byte)
    requires |acc| == ID_LENGTH && k < ID_LENGTH && 2 * k + 2 <= |s| && PairReads(s, k, b)
    ensures Store(s, 2 * k, acc) == Ok((acc[k := b], 2 * k + 2))
  {
  }

  /** The intended conversion reads back the spelling of at most 24 bytes, zero-filled. */
  lemma {:induction false} HexPairsRead(s: string, b: seq<byte>, j: nat, acc: seq<byte>)
    requires Spells(s, b) && |b| <= ID_LENGTH && j <= |b|
    requires acc == b[..j] + Zeros(ID_LENGTH - j)
    ensures FillPairs(s, 2 * j, acc) == Ok(b + Zeros(ID_LENGTH - |b|))
    decreases |b| - j
  {
    assert (2 * j) / 2 == j && 2 * j + 2 == 2 * (j + 1);
    if j < |b| {
      assert PairReads(s, j, b[j]);
      StorePair(s, j, acc, b[j]);
      AccStep(b, j, acc);
      HexPairsRead(s, b, j + 1, acc[j := b[j]]);
    } else {
      assert b[..j] == b;
    }
  }

  /** Storing byte j of b over the zero at j extends the copied prefix by one. */
  lemma AccStep(b: seq<byte>, j: nat, acc: seq<byte>)
    requires j < |b| <= ID_LENGTH && acc == b[..j] + Zeros(ID_LENGTH - j)
    ensures acc[j := b[j]] == b[..j + 1] + Zeros(ID_LENGTH - (j + 1))
  {
    assert b[..j + 1] == b[..j] + [b[j]];
    assert Zeros(ID_LENGTH - j) == [0] + Zeros(ID_LENGTH - (j + 1));
  }

  /** Both conversions read the spelling of at most 24 bytes back, zero-filled. */
  lemma ReadSpelling(s: string, b: seq<byte>)
    requires Spells(s, b) && |b| <= ID_LENGTH
    ensures FillPairs(s, 0, Zeros(ID_LENGTH)) == Ok(b + Zeros(ID_LENGTH - |b|))
    ensures FillAsWritten(s, 0, Zeros(ID_LENGTH)) == Ok(b + Zeros(ID_LENGTH - |b|))
  {
    assert b[..0] + Zeros(ID_LENGTH) == Zeros(ID_LENGTH);
    HexPairsRead(s, b, 0, Zeros(ID_LENGTH));
    EvenLengthAgrees(s, 0, Zeros(ID_LENGTH));
  }

  /**
   * A correlation id of up to 24 bytes survives its hex text, lower case as
   * getHexString writes it or upper case as toHexString does, followed by the
   * conversion.
   */
  lemma HexRoundTrip(b: seq<byte>, upper: bool)
    requires |b| <= ID_LENGTH
    ensures ConvertStringToBytes(HexString(b, upper)) == Ok(b + Zeros(ID_LENGTH - |b|))
    ensures ConvertAsWritten(HexString(b, upper)) == Ok(b + Zeros(ID_LENGTH - |b|))
  {
    HexSpells(b, upper);
    ReadSpelling(HexString(b, upper), b);
  }

  /** "abc": the loop as written throws at substring(2, 4); the intended one pads it to ab c0. */
  lemma OddLengthExample()
    ensures ConvertAsWritten("abc") == Err(IndexOutOfBounds)
    ensures ConvertStringToBytes("abc") == Ok([0xab, 0xc0] + Zeros(ID_LENGTH - 2))
  {
    assert "abc"[0..2] == HexPair(0xab, false) == "ab";
    HexPairParses(0xab, false);
    var z := Zeros(ID_LENGTH)[0 := 0xab];
    StorePair("abc", 0, Zeros(ID_LENGTH), 0xab);
    assert "abc"[2..] + "0" == "c0" == HexPair(0xc0, false);
    HexPairParses(0xc0, false);
    assert z[1 := 0xc0] == [0xab, 0xc0] + Zeros(ID_LENGTH - 2);
  }

  /** As written, the spelling of more than 24 bytes reaches a 25th pair that parses and overruns the id. */
  lemma {:induction false} OverrunFrom(s: string, b: seq<byte>, j: nat, acc: seq<byte>)
    requires Spells(s, b) && |b| > ID_LENGTH && j <= ID_LENGTH && |acc| == ID_LENGTH
    ensures FillAsWritten(s, 2 * j, acc) == Err(IndexOutOfBounds)
    decreases ID_LENGTH - j
  {
    assert PairReads(s, j, b[j]);
    assert (2 * j) / 2 == j && 2 * j + 2 == 2 * (j + 1);
    if j < ID_LENGTH {
      StorePair(s, j, acc, b[j]);
      OverrunFrom(s, b, j + 1, acc[j := b[j]]);
      assert FillAsWritten(s, 2 * j, acc) == FillAsWritten(s, 2 * (j + 1), acc[j := b[j]]);
    } else {
      assert Store(s, 2 * j, acc) == Err(IndexOutOfBounds);
    }
  }

  /** More than 24 bytes' worth of hex digits overruns the id. */
  lemma TooLongOverruns(b: seq<byte>, upper: bool)
    requires |b| > ID_LENGTH
    ensures ConvertAsWritten(HexString(b, upper)) == Err(IndexOutOfBounds)
  {
    HexSpells(b, upper);
    OverrunFrom(HexString(b, upper), b, 0, Zeros(ID_LENGTH));
  }

  // ---------------------------------------------------------------------------
  // getMsgFileToUse

  /**
   * After k > 0 picks the counter is ((k - 1) mod n) + 1: below n it is the
   * next pick k mod n, and at n the next pick is 0.
   */
  lemma NextPick(k: int, n: int, val: int)
    requires 0 < k && 0 < n && val == (k - 1) % n + 1
    ensures val < n ==> val == k % n
    ensures val >= n ==> val == n && k % n == 0
  {
    ModStep(k - 1, n);
  }

  /** The shared counter that picks the next of the message files, round robin. */
  class MsgFileSelector {
    /** messagesList.length */
    const count: int32
    /** msgFileToUse */
    var next: int32
    /** How many files have been handed out. */
    ghost var calls: nat

    /** After k picks the counter holds ((k - 1) mod count) + 1; with no files, 1. */
    ghost predicate Valid()
      reads this
    {
      0 <= count &&
      if calls == 0 then next == 0
      else if count == 0 then next == 1
      else next as int == (calls - 1) % count as int + 1
    }

    constructor(messageCount: int32)
      requires 0 <= messageCount
      ensures count == messageCount && calls == 0 && Valid()
    {
      count := messageCount;
      next := 0;
      calls := 0;
    }

    /** getMsgFileToUse: 0, 1, ..., count - 1 and round again; 0 every time when there are no files. */
    method GetMsgFileToUse() returns (r: int32)
      requires Valid()
      modifies this
      ensures Valid() && calls == old(calls) + 1
      ensures count > 0 ==> 0 <= r < count && r as int == old(calls) % count as int
      ensures count == 0 ==> r == 0
    {
      var val := next;
      if calls > 0 && count > 0 {
        NextPick(calls, count as int, val as int);
      }
      calls := calls + 1;
      if val < count {
        next := val + 1;
        return val;
      }
      next := 0 + 1;
      return 0;
    }
  }
}
