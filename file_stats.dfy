/**
 * FileStats.extractMsgSize: the message size named in a message file name,
 * taken as the last run of digits and the unit letter after it ("1K" from
 * "msg1K.xml").
 */
module MsgSize {
  import opened JavaLang

  /** The first loop: from i downwards, the index of the first digit met, or -1. */
  function LastDigit(s: string, i: int): (j: int)
    requires -1 <= i < |s|
    ensures -1 <= j <= i
    decreases i + 1
  {
    if i < 0 || IsDigit(s[i]) then i else LastDigit(s, i - 1)
  }

  /** The second loop: from i downwards, the index of the first non-digit met, or -1. */
  function LastNonDigit(s: string, i: int): (j: int)
    requires -1 <= i < |s|
    ensures -1 <= j <= i
    decreases i + 1
  {
    if i < 0 || !IsDigit(s[i]) then i else LastNonDigit(s, i - 1)
  }

  /**
   * extractMsgSize: "" for null or empty input; otherwise the substring from
   * the start of the last digit run to one past its end, which throws when
   * the digits end the string.
   */
  function MsgSizeOf(s: Option<string>): (r: Result<string>)
    ensures s.None? || |s.value| == 0 ==> r == Ok("")
  {
    if s.None? || |s.value| == 0 then Ok("")
    else
      var i := LastDigit(s.value, |s.value| - 1);
      SizeBetween(s.value, LastNonDigit(s.value, i) + 1, i + 2)
  }

  /** The guarded substring call at the end of extractMsgSize. */
  function SizeBetween(str: string, startIndex: int, endIndex: int): Result<string> {
    if startIndex >= 0 && endIndex >= 0 && startIndex <= endIndex then
      if endIndex <= |str| then Ok(str[startIndex..endIndex]) else Err(IndexOutOfBounds)
    else Ok("")
  }

  /**
   * The guarded substring throws exactly when the guard passes and the end
   * lies past the string; otherwise it yields a piece of the string, empty
   * when the guard fails.
   */
  lemma SizeBetweenCases(str: string, startIndex: int, endIndex: int)
    ensures SizeBetween(str, startIndex, endIndex).Err? <==> 0 <= startIndex <= endIndex && |str| < endIndex
    ensures SizeBetween(str, startIndex, endIndex).Ok? ==> |SizeBetween(str, startIndex, endIndex).value| <= |str|
    ensures !(0 <= startIndex <= endIndex) ==> SizeBetween(str, startIndex, endIndex) == Ok("")
  {
  }

  /** extractMsgSize as FileStats writes it. */
  method ExtractMsgSize(s: Option<string>) returns (r: Result<string>)
    ensures r == MsgSizeOf(s)
  {
    if s.None? {
      return Ok("");
    }
    var str := s.value;
    var i := |str| - 1;
    if i < 0 {
      return Ok("");
    }
    var startIndex, endIndex := DigitRun(str, i);
    // The guard of the source holds on every path.
    assert startIndex >= 0 && endIndex >= 0 && startIndex <= endIndex;
    SizeFromWalks(str, endIndex - 2, startIndex);
    if endIndex > |str| {
      return Err(IndexOutOfBounds);
    }
    return Ok(str[startIndex..endIndex]);
  }

  /**
   * The two backward walks from index i: past the trailing non-digits, then
   * past the digits before them.
   */
  method DigitRun(str: string, i0: int) returns (startIndex: int, endIndex: int)
    requires -1 <= i0 < |str|
    ensures endIndex == LastDigit(str, i0) + 2
    ensures startIndex == LastNonDigit(str, endIndex - 2) + 1
  {
    var i := i0;
    while i >= 0 && !IsDigit(str[i])
      invariant -1 <= i <= i0
      invariant LastDigit(str, i) == LastDigit(str, i0)
      decreases i + 1
    {
      i := i - 1;
    }
    endIndex := i + 2;
    ghost var last := i;
    while i >= 0 && IsDigit(str[i])
      invariant -1 <= i <= last
      invariant LastNonDigit(str, i) == LastNonDigit(str, last)
      decreases i + 1
    {
      i := i - 1;
    }
    startIndex := i + 1;
  }

  /** The result read off the two walks' stopping points. */
  lemma SizeFromWalks(str: string, last: int, startIndex: int)
    requires str != [] && -1 <= last < |str|
    requires LastDigit(str, |str| - 1) == last && LastNonDigit(str, last) + 1 == startIndex
    ensures MsgSizeOf(Some(str)) == SizeBetween(str, startIndex, last + 2)
  {
  }

  // ---------------------------------------------------------------------------
  // What the name yields

  predicate NoDigits(s: string) {
    forall k :: 0 <= k < |s| ==> !IsDigit(s[k])
  }

  predicate Digits(s: string) {
    forall k :: 0 <= k < |s| ==> IsDigit(s[k])
  }

  /**
   * A name made of a prefix not ending in a digit, a run of digits, a unit
   * character and a digit-free rest yields the digits and the unit.
   */
  lemma SizeAndUnit(prefix: string, digits: string, unit: char, rest: string)
    requires digits != [] && Digits(digits) && !IsDigit(unit) && NoDigits(rest)
    requires prefix == [] || !IsDigit(prefix[|prefix| - 1])
    ensures MsgSizeOf(Some(prefix + digits + [unit] + rest)) == Ok(digits + [unit])
  {
    var s := prefix + digits + [unit] + rest;
    var d := |prefix| + |digits| - 1;
    NameLayout(prefix, digits, unit, rest);
    SizeAt(s, |prefix|, d);
  }

  /** Where the digits of such a name sit. */
  lemma NameLayout(prefix: string, digits: string, unit: char, rest: string)
    requires digits != [] && Digits(digits) && !IsDigit(unit) && NoDigits(rest)
    requires prefix == [] || !IsDigit(prefix[|prefix| - 1])
    ensures var s, d := prefix + digits + [unit] + rest, |prefix| + |digits| - 1;
      (forall k :: d < k < |s| ==> !IsDigit(s[k])) &&
      (forall k :: |prefix| <= k <= d ==> IsDigit(s[k])) &&
      (prefix == [] || !IsDigit(s[|prefix| - 1])) &&
      s[|prefix|..d + 2] == digits + [unit]
  {
    var pd, tail := prefix + digits, [unit] + rest;
    var s := pd + tail;
    assert prefix + digits + [unit] + rest == s;
    var d := |pd| - 1;
    forall k | d < k < |s|
      ensures !IsDigit(s[k])
    {
      assert s[k] == tail[k - |pd|];
    }
    forall k | |prefix| <= k <= d
      ensures IsDigit(s[k])
    {
      assert s[k] == pd[k] == digits[k - |prefix|];
    }
    if prefix != [] {
      assert s[|prefix| - 1] == prefix[|prefix| - 1];
    }
    assert s[|prefix|..d + 2] == digits + [unit];
  }

  /**
   * The same by position: when s[start..d] is the last run of digits and a
   * character follows it, the result runs from start to just past that character.
   */
  lemma SizeAt(s: string, start: int, d: int)
    requires 0 <= start <= d < |s| - 1
    requires forall k :: start <= k <= d ==> IsDigit(s[k])
    requires forall k :: d < k < |s| ==> !IsDigit(s[k])
    requires start == 0 || !IsDigit(s[start - 1])
    ensures MsgSizeOf(Some(s)) == Ok(s[start..d + 2])
  {
    LastDigitIs(s, |s| - 1, d);
    LastNonDigitIs(s, d, start - 1);
  }

  /** The first loop stops at the digit after which, up to i, none follows. */
  lemma {:induction false} LastDigitIs(s: string, i: int, d: int)
    requires -1 <= d <= i < |s| && (d >= 0 ==> IsDigit(s[d]))
    requires forall k :: d < k <= i ==> !IsDigit(s[k])
    ensures LastDigit(s, i) == d
    decreases i
  {
    if i > d {
      LastDigitIs(s, i - 1, d);
    }
  }

  /** The second loop stops at the non-digit after which, up to i, only digits follow. */
  lemma {:induction false} LastNonDigitIs(s: string, i: int, d: int)
    requires -1 <= d <= i < |s| && (d >= 0 ==> !IsDigit(s[d]))
    requires forall k :: d < k <= i ==> IsDigit(s[k])
    ensures LastNonDigit(s, i) == d
    decreases i
  {
    if i > d {
      LastNonDigitIs(s, i - 1, d);
    }
  }

  /** When the digits end the name, the end index passes the length and substring throws. */
  lemma DigitsAtEndThrow(prefix: string, digits: string)
    requires digits != [] && Digits(digits)
    ensures MsgSizeOf(Some(prefix + digits)) == Err(IndexOutOfBounds)
  {
    var s := prefix + digits;
    assert s[|s| - 1] == digits[|digits| - 1];
  }

  /** A name with no digit at all yields its first character. */
  lemma NoDigitsFirstChar(s: string)
    requires s != [] && NoDigits(s)
    ensures MsgSizeOf(Some(s)) == Ok(s[..1])
  {
    LastDigitIs(s, |s| - 1, -1);
  }

  /** The file name of the FileStats comment. */
  lemma MessageFileExample()
    ensures MsgSizeOf(Some("msg1K.xml")) == Ok("1K")
  {
    assert "msg1K.xml" == "msg" + "1" + ['K'] + ".xml";
    SizeAndUnit("msg", "1", 'K', ".xml");
    assert "1" + ['K'] == "1K";
  }
}
