/**
 * The pieces of the Java (and Python) runtime that the harness code leans on, stated
 * once: failure-compatible Option/Result types for `null` and exceptions, bytes, 32-bit
 * integers, Java's truncating remainder, Integer.parseInt / Integer.toString,
 * String.trim, the single-character fast path of String.split and ASCII case folding.
 */
module JavaLang {

  datatype Option<+T> = None | Some(value: T) {
    predicate IsFailure() { None? }
    function PropagateFailure<U>(): Option<U> requires None? { None }
    function Extract(): T requires Some? { value }
  }

  /** The Java exceptions (and the Python KeyError) that the modelled code can raise. */
  datatype Exception =
    | NumberFormat
    | IndexOutOfBounds
    | NegativeArraySize
    | Arithmetic
    | NullPointer
    | IllegalArgument
    | TypedProperty
    | ApplicationProperty
    | KeyError(key: string)

  datatype Result<+T> = Ok(value: T) | Err(error: Exception) {
    predicate IsFailure() { Err? }
    function PropagateFailure<U>(): Result<U> requires Err? { Err(error) }
    function Extract(): T requires Ok? { value }
  }

  /** A byte as the harness uses it: `b & 0xff`, so 0..255. A Java `(byte)` cast is `LowByte`. */
  type byte = x: int | 0 <= x < 256

  function LowByte(x: int): (b: byte)
    ensures (x - b) % 256 == 0
  {
    x % 256
  }

  const INT_MIN: int := -0x8000_0000
  const INT_MAX: int := 0x7fff_ffff
  const LONG_MIN: int := -0x8000_0000_0000_0000
  const LONG_MAX: int := 0x7fff_ffff_ffff_ffff

  predicate IsInt32(x: int) { INT_MIN <= x <= INT_MAX }

  type int32 = x: int | INT_MIN <= x <= INT_MAX

  /** Two's-complement wrap-around of a Java `int` expression: x shifted by multiples of 2^32 into range. */
  function Wrap32(x: int): (r: int32)
    ensures IsInt32(x) ==> r == x
    decreases if x > INT_MAX then x - INT_MAX else if x < INT_MIN then INT_MIN - x else 0
  {
    if IsInt32(x) then x
    else if x > INT_MAX then Wrap32(x - 0x1_0000_0000)
    else Wrap32(x + 0x1_0000_0000)
  }

  /** The wrapped value differs from the exact one by a multiple of 2^32. */
  lemma {:induction false} Wrap32Congruent(x: int)
    ensures (x - Wrap32(x)) % 0x1_0000_0000 == 0
    decreases if x > INT_MAX then x - INT_MAX else if x < INT_MIN then INT_MIN - x else 0
  {
    if x > INT_MAX {
      Wrap32Congruent(x - 0x1_0000_0000);
    } else if x < INT_MIN {
      Wrap32Congruent(x + 0x1_0000_0000);
    }
  }

  /** Shifting an int by whole multiples of 2^32 does not change its wrapped value. */
  lemma {:induction false} Wrap32Shift(y: int32, k: int)
    ensures Wrap32(y + k * 0x1_0000_0000) == y
    decreases Abs(k)
  {
    if k > 0 {
      Wrap32Shift(y, k - 1);
    } else if k < 0 {
      Wrap32Shift(y, k + 1);
    }
  }

  /** Two values less than 2^32 apart wrap to the same int only when they are equal. */
  lemma Wrap32Injective(a: int, b: int)
    requires Abs(a - b) < 0x1_0000_0000 && Wrap32(a) == Wrap32(b)
    ensures a == b
  {
    var M := 0x1_0000_0000;
    Wrap32Congruent(a);
    Wrap32Congruent(b);
    var qa, qb := (a - Wrap32(a)) / M, (b - Wrap32(b)) / M;
    assert a - Wrap32(a) == qa * M;
    assert b - Wrap32(b) == qb * M;
    assert a - b == (qa - qb) * M;
    if qa > qb {
      MulAtLeast(qa - qb, M);
    } else if qa < qb {
      MulAtLeast(qb - qa, M);
    }
  }

  /** An int sum wraps the same whether or not its first operand was wrapped already. */
  lemma Wrap32Sum(a: int, b: int)
    ensures Wrap32(Wrap32(a) + b) == Wrap32(a + b)
  {
    var M := 0x1_0000_0000;
    Wrap32Congruent(a);
    Wrap32Congruent(a + b);
    var q, q' := (a - Wrap32(a)) / M, (a + b - Wrap32(a + b)) / M;
    assert a - Wrap32(a) == q * M;
    assert a + b - Wrap32(a + b) == q' * M;
    assert Wrap32(a) + b == Wrap32(a + b) + (q' - q) * M;
    Wrap32Shift(Wrap32(a + b), q' - q);
  }

  /** Adding two wrapped ints wraps to the wrapped exact sum. */
  lemma Wrap32Add(a: int, b: int)
    ensures Wrap32(Wrap32(a) + Wrap32(b)) == Wrap32(a + b)
  {
    Wrap32Sum(a, Wrap32(b));
    Wrap32Sum(b, a);
  }

  predicate IsInt64(x: int) { LONG_MIN <= x <= LONG_MAX }

  type int64 = x: int | LONG_MIN <= x <= LONG_MAX

  /** Two's-complement wrap-around of a Java `long` expression. */
  function Wrap64(x: int): (r: int64)
    ensures IsInt64(x) ==> r == x
    decreases if x > LONG_MAX then x - LONG_MAX else if x < LONG_MIN then LONG_MIN - x else 0
  {
    if IsInt64(x) then x
    else if x > LONG_MAX then Wrap64(x - 0x1_0000_0000_0000_0000)
    else Wrap64(x + 0x1_0000_0000_0000_0000)
  }

  function Abs(x: int): nat { if x < 0 then -x else x }

  function Min(a: int, b: int): int { if a <= b then a else b }

  function Max(a: int, b: int): int { if a >= b then a else b }

  /** Java's `%`: the remainder of division truncated toward zero; it takes the sign of `a`. */
  function JavaRem(a: int, b: int): (r: int)
    requires b != 0
    ensures Abs(r) < Abs(b)
    ensures a >= 0 ==> 0 <= r
    ensures a <= 0 ==> r <= 0
  {
    if a >= 0 then a % Abs(b) else -((-a) % Abs(b))
  }

  lemma MulAtLeast(a: int, m: int)
    requires 1 <= a && 0 < m
    ensures a * m >= m
  {
    var b := a - 1;
    assert a * m == b * m + m;
    assert b * m >= 0;
  }

  /** The remainder is determined by any quotient-remainder decomposition. */
  lemma ModUnique(x: int, m: int, q: int, r: int)
    requires 0 < m && 0 <= r < m && x == q * m + r
    ensures x % m == r
  {
    var q', r' := x / m, x % m;
    assert x == q' * m + r';
    assert (q - q') * m == q * m - q' * m;
    if q > q' {
      MulAtLeast(q - q', m);
    } else if q < q' {
      MulAtLeast(q' - q, m);
    }
  }

  lemma ModStep(x: int, m: int)
    requires 0 < m
    ensures (x % m + 1) % m == (x + 1) % m
  {
    var q, r := x / m, x % m;
    if r + 1 < m {
      ModUnique(x + 1, m, q, r + 1);
      ModUnique(r + 1, m, 0, r + 1);
    } else {
      ModUnique(x + 1, m, q + 1, 0);
      ModUnique(r + 1, m, 1, 0);
    }
  }

  lemma ModShift(x: int, m: int)
    requires 0 < m
    ensures (x + m) % m == x % m
  {
    ModUnique(x + m, m, x / m + 1, x % m);
  }

  // ---------------------------------------------------------------------------
  // Characters and strings

  predicate IsDigit(c: char) { '0' <= c <= '9' }

  function ToLowerChar(c: char): char {
    if 'A' <= c <= 'Z' then (c as int + 32) as char else c
  }

  /** String.toLowerCase on the ASCII letters. */
  function ToLower(s: string): (r: string)
    ensures |r| == |s|
    ensures forall i :: 0 <= i < |s| ==> r[i] == ToLowerChar(s[i])
  {
    if s == [] then [] else [ToLowerChar(s[0])] + ToLower(s[1..])
  }

  predicate StartsWith(s: string, prefix: string) {
    |prefix| <= |s| && s[..|prefix|] == prefix
  }

  predicate EndsWith(s: string, suffix: string) {
    |suffix| <= |s| && s[|s| - |suffix|..] == suffix
  }

  predicate Contains(s: string, t: string) {
    exists i :: 0 <= i <= |s| - |t| && OccursAt(s, t, i)
  }

  predicate OccursAt(s: string, t: string, i: int) {
    0 <= i && i + |t| <= |s| && s[i..i + |t|] == t
  }

  /** The index of the first `c` in `s`, or -1 (String.indexOf(char)). */
  function IndexOf(s: string, c: char): (r: int)
    ensures -1 <= r < |s|
    ensures r == -1 <==> c !in s
    ensures r >= 0 ==> s[r] == c && c !in s[..r]
  {
    if s == [] then -1
    else if s[0] == c then 0
    else var k := IndexOf(s[1..], c); if k == -1 then -1 else k + 1
  }

  /** String.trim: drops every character up to U+0020 from both ends. */
  predicate IsTrimmed(c: char) { c <= ' ' }

  function TrimStart(s: string): string {
    if s != [] && IsTrimmed(s[0]) then TrimStart(s[1..]) else s
  }

  function TrimEnd(s: string): string {
    if s != [] && IsTrimmed(s[|s| - 1]) then TrimEnd(s[..|s| - 1]) else s
  }

  function Trim(s: string): string { TrimEnd(TrimStart(s)) }

  /** TrimStart drops the longest prefix of characters up to U+0020. */
  lemma {:induction false} TrimStartShape(s: string)
    ensures var r := TrimStart(s);
      |r| <= |s| && r == s[|s| - |r|..] && (r != [] ==> !IsTrimmed(r[0])) &&
      forall i :: 0 <= i < |s| - |r| ==> IsTrimmed(s[i])
  {
    if s != [] && IsTrimmed(s[0]) {
      TrimStartShape(s[1..]);
      var r := TrimStart(s[1..]);
      assert s[1..][|s| - 1 - |r|..] == s[|s| - |r|..];
      forall i | 0 <= i < |s| - |r| ensures IsTrimmed(s[i]) {
        if i > 0 { assert s[i] == s[1..][i - 1]; }
      }
    }
  }

  /** TrimEnd drops the longest suffix of characters up to U+0020. */
  lemma {:induction false} TrimEndShape(s: string)
    ensures var r := TrimEnd(s);
      |r| <= |s| && r == s[..|r|] && (r != [] ==> !IsTrimmed(r[|r| - 1])) &&
      forall i :: |r| <= i < |s| ==> IsTrimmed(s[i])
  {
    if s != [] && IsTrimmed(s[|s| - 1]) {
      var t := s[..|s| - 1];
      TrimEndShape(t);
      var r := TrimEnd(t);
      assert t[..|r|] == s[..|r|];
      forall i | |r| <= i < |s| ensures IsTrimmed(s[i]) {
        if i < |t| { assert s[i] == t[i]; }
      }
    }
  }

  /** A string with nothing to trim at either end is its own trim. */
  lemma TrimIdentity(s: string)
    requires s != [] ==> !IsTrimmed(s[0]) && !IsTrimmed(s[|s| - 1])
    ensures Trim(s) == s
  {
  }

  /** Joins the parts with the separator between consecutive parts. */
  function Join(parts: seq<string>, sep: string): string {
    if parts == [] then ""
    else if |parts| == 1 then parts[0]
    else parts[0] + sep + Join(parts[1..], sep)
  }

  /** Joining one more part appends the separator and the part. */
  lemma {:induction false} JoinSnoc(parts: seq<string>, x: string, sep: string)
    requires parts != []
    ensures Join(parts + [x], sep) == Join(parts, sep) + sep + x
    decreases |parts|
  {
    if |parts| == 1 {
      assert parts + [x] == [parts[0], x];
      assert ([parts[0], x])[1..] == [x];
    } else {
      assert (parts + [x])[1..] == parts[1..] + [x];
      JoinSnoc(parts[1..], x, sep);
      assert Join(parts + [x], sep) == parts[0] + sep + (Join(parts[1..], sep) + sep + x);
    }
  }

  // ---------------------------------------------------------------------------
  // String.split(c) for a single character that is not a regex metacharacter

  /** Every piece between occurrences of `c`, empty pieces included. */
  function SplitAll(s: string, c: char): (r: seq<string>)
    ensures |r| >= 1
    ensures forall i :: 0 <= i < |r| ==> c !in r[i]
    decreases |s|
  {
    var k := IndexOf(s, c);
    if k == -1 then [s] else [s[..k]] + SplitAll(s[k + 1..], c)
  }

  function DropTrailingEmpty(parts: seq<string>): (r: seq<string>)
    ensures |r| <= |parts| && r == parts[..|r|]
    ensures r != [] ==> r[|r| - 1] != ""
    ensures forall i :: |r| <= i < |parts| ==> parts[i] == ""
  {
    if parts != [] && parts[|parts| - 1] == "" then DropTrailingEmpty(parts[..|parts| - 1]) else parts
  }

  /**
   * Java's `s.split(c)`: with no occurrence of `c` the whole string (even "") is the one
   * piece; otherwise the pieces with trailing empty pieces removed.
   */
  function JavaSplit(s: string, c: char): (r: seq<string>)
    ensures c !in s ==> r == [s]
    ensures forall i :: 0 <= i < |r| ==> c !in r[i]
    ensures |r| >= 2 ==> r[|r| - 1] != ""
  {
    if c !in s then [s] else DropTrailingEmpty(SplitAll(s, c))
  }

  lemma {:induction false} SplitAllJoin(parts: seq<string>, c: char)
    requires |parts| >= 1
    requires forall i :: 0 <= i < |parts| ==> c !in parts[i]
    ensures SplitAll(Join(parts, [c]), c) == parts
    decreases |parts|
  {
    if |parts| == 1 {
    } else {
      var s := Join(parts, [c]);
      assert s == parts[0] + [c] + Join(parts[1..], [c]);
      assert IndexOf(s, c) == |parts[0]| by {
        IndexOfAfter(parts[0], c, Join(parts[1..], [c]));
      }
      assert s[..|parts[0]|] == parts[0];
      assert s[|parts[0]| + 1..] == Join(parts[1..], [c]);
      SplitAllJoin(parts[1..], c);
    }
  }

  lemma IndexOfAfter(a: string, c: char, b: string)
    requires c !in a
    ensures IndexOf(a + [c] + b, c) == |a|
  {
    var s := a + [c] + b;
    assert s[|a|] == c;
    assert s[..|a|] == a;
  }

  /** split(c) undoes joining with `c` when no part holds `c` and the last part is non-empty. */
  lemma JavaSplitJoin(parts: seq<string>, c: char)
    requires |parts| >= 1 && parts[|parts| - 1] != ""
    requires forall i :: 0 <= i < |parts| ==> c !in parts[i]
    ensures JavaSplit(Join(parts, [c]), c) == parts
  {
    SplitAllJoin(parts, c);
    if c !in Join(parts, [c]) {
      assert |SplitAll(Join(parts, [c]), c)| == 1;
    }
  }

  /** The pieces of a split hold no character that the split string lacks. */
  lemma {:induction false} SplitAllAvoids(s: string, c: char, d: char)
    requires d !in s
    ensures forall i :: 0 <= i < |SplitAll(s, c)| ==> d !in SplitAll(s, c)[i]
    decreases |s|
  {
    var k := IndexOf(s, c);
    if k != -1 {
      assert s == s[..k] + s[k..];
      assert s[k..] == [s[k]] + s[k + 1..];
      SplitAllAvoids(s[k + 1..], c, d);
    }
  }

  lemma JavaSplitAvoids(s: string, c: char, d: char)
    requires d !in s
    ensures forall i :: 0 <= i < |JavaSplit(s, c)| ==> d !in JavaSplit(s, c)[i]
  {
    SplitAllAvoids(s, c, d);
  }

  // ---------------------------------------------------------------------------
  // Integer.parseInt / Long.parseLong and Integer.toString

  /** Character.digit(c, radix) on ASCII digits and letters; -1 when `c` is no digit. */
  function DigitValue(c: char, radix: nat): (d: int)
    ensures -1 <= d < radix
  {
    var v := if '0' <= c <= '9' then c as int - '0' as int
             else if 'a' <= c <= 'z' then c as int - 'a' as int + 10
             else if 'A' <= c <= 'Z' then c as int - 'A' as int + 10
             else -1;
    if v < radix then v else -1
  }

  predicate AllDigits(s: string, radix: nat) {
    forall i :: 0 <= i < |s| ==> DigitValue(s[i], radix) >= 0
  }

  /** The value of a string of digits, most significant first. */
  function DigitsValue(s: string, radix: nat): nat
    requires AllDigits(s, radix)
  {
    if s == [] then 0
    else DigitsValue(s[..|s| - 1], radix) * radix + DigitValue(s[|s| - 1], radix)
  }

  /**
   * Java's parseInt(s, radix) / parseLong: an optional '+' or '-' followed by at least one
   * digit, whose value lies in [lo, hi]; anything else is a NumberFormatException.
   */
  function ParseInteger(s: string, radix: nat, lo: int, hi: int): (r: Result<int>)
    ensures r.Ok? ==> lo <= r.value <= hi
    ensures r.Err? ==> r.error == NumberFormat
  {
    if s == [] then Err(NumberFormat)
    else
      var signed := s[0] == '-' || s[0] == '+';
      var digits := if signed then s[1..] else s;
      if digits == [] || !AllDigits(digits, radix) then Err(NumberFormat)
      else
        var n: int := DigitsValue(digits, radix);
        var v := if s[0] == '-' then -n else n;
        if lo <= v <= hi then Ok(v) else Err(NumberFormat)
  }

  function ParseInt(s: string): Result<int> { ParseInteger(s, 10, INT_MIN, INT_MAX) }

  function ParseLong(s: string): Result<int> { ParseInteger(s, 10, LONG_MIN, LONG_MAX) }

  function DigitChar(d: nat): (c: char)
    requires d < 10
    ensures DigitValue(c, 10) == d && IsDigit(c)
  {
    ('0' as int + d) as char
  }

  function NatToString(n: nat): (s: string)
    ensures |s| >= 1
    decreases n
  {
    if n < 10 then [DigitChar(n)] else NatToString(n / 10) + [DigitChar(n % 10)]
  }

  /** Integer.toString / Long.toString in decimal. */
  function IntToString(v: int): string {
    if v < 0 then "-" + NatToString(-v) else NatToString(v)
  }

  lemma {:induction false} NatToStringDigits(n: nat)
    ensures AllDigits(NatToString(n), 10)
    ensures forall i :: 0 <= i < |NatToString(n)| ==> IsDigit(NatToString(n)[i])
    ensures DigitsValue(NatToString(n), 10) == n
    decreases n
  {
    var s := NatToString(n);
    if n >= 10 {
      NatToStringDigits(n / 10);
      assert s[..|s| - 1] == NatToString(n / 10);
    }
  }

  lemma TrimOfIntToString(v: int)
    ensures Trim(IntToString(v)) == IntToString(v)
  {
    var s, d := IntToString(v), NatToString(Abs(v));
    NatToStringDigits(Abs(v));
    assert IsDigit(d[|d| - 1]) && IsDigit(d[0]);
    assert s[|s| - 1] == d[|d| - 1];
    assert s[0] == '-' || s[0] == d[0];
    TrimIdentity(s);
  }

  /** parseInt reads back what toString writes, for every value in range. */
  lemma {:induction false} ParseIntegerOfIntToString(v: int, lo: int, hi: int)
    requires lo <= v <= hi
    ensures ParseInteger(IntToString(v), 10, lo, hi) == Ok(v)
  {
    var s := IntToString(v);
    NatToStringDigits(Abs(v));
    if v < 0 {
      assert s[1..] == NatToString(-v);
    } else {
      assert s[0] != '-' && s[0] != '+';
    }
  }

  lemma ParseIntOfIntToString(v: int32)
    ensures ParseInt(IntToString(v)) == Ok(v as int)
  {
    ParseIntegerOfIntToString(v, INT_MIN, INT_MAX);
  }

  // ---------------------------------------------------------------------------
  // Hexadecimal digits

  /** One hex digit, in upper or lower case; Character.digit reads either back. */
  function HexDigit(d: nat, upper: bool): (c: char)
    requires d < 16
    ensures DigitValue(c, 16) == d
  {
    if d < 10 then ('0' as int + d) as char
    else if upper then ('A' as int + d - 10) as char
    else ('a' as int + d - 10) as char
  }
}
