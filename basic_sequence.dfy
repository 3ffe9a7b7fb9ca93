/**
 * The minimal sequence checker: counts elements, consecutive duplicates, the
 * range seen and an "ordering" score, the sum over consecutive elements of how
 * far each step is from +1. Every counter is a Java int and wraps.
 */
module Sequencing {
  import opened JavaLang

  /** Math.abs on an int: the absolute value, except that MIN_VALUE stays negative. */
  function AbsInt(x: int32): (r: int32)
    ensures x != INT_MIN ==> r == Abs(x)
    ensures x == INT_MIN ==> r == INT_MIN
  {
    if x == INT_MIN then INT_MIN else Abs(x)
  }

  /** The fields of a BasicSequence. */
  datatype Counters = Counters(
    duplicates: int32, count: int32, ordering: int32, errors: int32,
    max: int32, min: int32, last: int32, first: bool)

  const INITIAL := Counters(0, 0, 0, 0, INT_MIN, INT_MAX, 0, true)

  /** registerElement(n): the range widens to take in n, which becomes the last element. */
  function Register(c: Counters, n: int32): (r: Counters)
    ensures r.min <= n <= r.max && r.max >= c.max && r.min <= c.min
    ensures r.last == n && !r.first && r.errors == c.errors
  {
    var last: int32 := if c.first then Wrap32(n as int - 1) else c.last;
    Counters(
      if n == last then Inc(c.duplicates) else c.duplicates,
      Inc(c.count),
      OrderingStep(c.ordering, last, n),
      c.errors,
      if c.max < n then n else c.max,
      if c.min > n then n else c.min,
      n,
      false)
  }

  /** `x++` on an int. */
  function Inc(x: int32): int32 {
    Wrap32(x as int + 1)
  }

  /** `ordering += Math.abs(distance - 1)` with `distance = n - last`, all in int arithmetic. */
  function OrderingStep(ordering: int32, last: int32, n: int32): (r: int32)
    ensures n as int == last as int + 1 ==> r == ordering
    ensures IsInt32(n as int - last as int) && 0 <= ordering && ordering as int + Abs(n as int - last as int - 1) <= INT_MAX ==>
      r as int == ordering as int + Abs(n as int - last as int - 1)
  {
    var distance: int := Wrap32(n as int - last as int);
    Wrap32(ordering as int + AbsInt(Wrap32(distance - 1)) as int)
  }

  /** The counters after registering each element of `s` in order, from `c`. */
  function RegisterAll(c: Counters, s: seq<int32>): Counters {
    if s == [] then c else Register(RegisterAll(c, s[..|s| - 1]), s[|s| - 1])
  }

  /** getMissing: below two elements 0, otherwise max - min - count + 1 wrapped to an int. */
  function Missing(c: Counters): (r: int32)
    ensures c.count <= 1 ==> r == 0
    ensures c.count > 1 ==> (c.max as int - c.min as int - c.count as int + 1 - r) % 0x1_0000_0000 == 0
  {
    Wrap32Congruent(c.max as int - c.min as int - c.count as int + 1);
    if c.count > 1 then Wrap32(c.max as int - c.min as int - c.count as int + 1) else 0
  }

  // ---------------------------------------------------------------------------
  // Reference definitions in unbounded integers

  function MaxOf(s: seq<int>): int
    requires s != []
  {
    if |s| == 1 then s[0] else Max(MaxOf(s[..|s| - 1]), s[|s| - 1])
  }

  function MinOf(s: seq<int>): int
    requires s != []
  {
    if |s| == 1 then s[0] else Min(MinOf(s[..|s| - 1]), s[|s| - 1])
  }

  /** The number of positions i >= 1 with s[i] == s[i-1]. */
  function Repeats(s: seq<int>): nat {
    if |s| <= 1 then 0 else Repeats(s[..|s| - 1]) + if s[|s| - 1] == s[|s| - 2] then 1 else 0
  }

  /** The sum over consecutive pairs of |s[i] - s[i-1] - 1|. */
  function Disorder(s: seq<int>): nat {
    if |s| <= 1 then 0 else Disorder(s[..|s| - 1]) + Abs(s[|s| - 1] - s[|s| - 2] - 1)
  }

  class BasicSequence {
    var duplicates: int32
    var count: int32
    var ordering: int32
    var errors: int32
    var max: int32
    var min: int32
    var last: int32
    var first: bool

    function State(): Counters
      reads this
    {
      Counters(duplicates, count, ordering, errors, max, min, last, first)
    }

    constructor()
      ensures State() == INITIAL
    {
      duplicates, count, ordering, errors := 0, 0, 0, 0;
      max, min, last, first := INT_MIN, INT_MAX, 0, true;
    }

    method RegisterElement(n: int32)
      modifies this
      ensures State() == Register(old(State()), n)
    {
      ghost var want := Register(State(), n);
      if first {
        first := false;
        last := Wrap32(n as int - 1);
      }
      assert last == if old(first) then Wrap32(n as int - 1) else old(last);
      if max < n { max := n; }
      if min > n { min := n; }
      if n == last { duplicates := Inc(duplicates); }
      count := Inc(count);
      ordering := OrderingStep(ordering, last, n);
      last := n;
    }

    function GetMissing(): (m: int32)
      reads this
      ensures count <= 1 ==> m == 0
      ensures 1 < count && IsInt32(max as int - min as int - count as int + 1) ==> m == max as int - min as int - count as int + 1
    {
      Missing(State())
    }

    method Reset()
      modifies this
      ensures State() == INITIAL
    {
      duplicates, count, ordering, first, errors := 0, 0, 0, true, 0;
      max, min, last := INT_MIN, INT_MAX, 0;
    }

    method IncrementErrors()
      modifies this
      ensures State() == old(State()).(errors := Wrap32(old(errors) as int + 1))
    {
      errors := Wrap32(errors as int + 1);
    }
  }

  // ---------------------------------------------------------------------------
  // What the counters mean

  lemma RegisterAllSnoc(c: Counters, s: seq<int32>, n: int32)
    ensures RegisterAll(c, s + [n]) == Register(RegisterAll(c, s), n)
  {
    assert (s + [n])[..|s|] == s;
  }

  /** The first element counts as if preceded by itself minus one: no duplicate, no disorder. */
  lemma FirstElement(n: int32)
    ensures Register(INITIAL, n) == Counters(0, 1, 0, 0, n, n, n, false)
  {
  }

  /** max and min are the largest and smallest elements registered since the start. */
  lemma {:induction false} RangeTracked(s: seq<int32>)
    requires s != []
    ensures RegisterAll(INITIAL, s).max == MaxOf(s) && RegisterAll(INITIAL, s).min == MinOf(s)
    ensures RegisterAll(INITIAL, s).last == s[|s| - 1] && !RegisterAll(INITIAL, s).first
  {
    if |s| > 1 {
      RangeTracked(s[..|s| - 1]);
    } else {
      assert s[..0] == [];
    }
  }

  /**
   * While no counter leaves the int range, count is the number of elements,
   * duplicates the consecutive repeats and ordering the disorder sum.
   */
  lemma {:induction false} CountersExact(s: seq<int32>)
    requires |s| <= INT_MAX
    requires forall i :: 0 < i < |s| ==> IsInt32(s[i] as int - s[i - 1] as int) && IsInt32(s[i] as int - s[i - 1] as int - 1)
    requires Disorder(s) <= INT_MAX
    ensures var c := RegisterAll(INITIAL, s);
      c.count == |s| && c.duplicates == Repeats(s) && c.ordering == Disorder(s)
  {
    if |s| == 1 {
      assert s[..0] == [];
    } else if |s| > 1 {
      var init, n := s[..|s| - 1], s[|s| - 1];
      assert forall i :: 0 <= i < |init| ==> init[i] == s[i];
      DisorderPrefix(s);
      CountersExact(init);
      var c := RegisterAll(INITIAL, init);
      RepeatsBound(init);
      RangeTracked(init);
      assert c.last == s[|s| - 2];
      assert IsInt32(n as int - c.last as int) && IsInt32(n as int - c.last as int - 1);
      assert Disorder(s) == c.ordering + Abs(n as int - c.last as int - 1);
      RegisterExact(c, n);
      assert RegisterAll(INITIAL, s) == Register(c, n);
    }
  }

  /** One later element, while the counters stay in range, adds exactly one step. */
  lemma RegisterExact(c: Counters, n: int32)
    requires !c.first && c.count < INT_MAX && c.duplicates < INT_MAX
    requires IsInt32(n as int - c.last as int) && IsInt32(n as int - c.last as int - 1)
    requires c.ordering as int + Abs(n as int - c.last as int - 1) <= INT_MAX
    requires 0 <= c.ordering
    ensures var r := Register(c, n);
      r.count == c.count + 1 &&
      r.duplicates == c.duplicates + (if n == c.last then 1 else 0) &&
      r.ordering == c.ordering + Abs(n as int - c.last as int - 1)
  {
    var d := n as int - c.last as int;
    assert IsInt32(d);
    assert Wrap32(d) == d;
    assert Wrap32(d - 1) == d - 1;
  }

  lemma {:induction false} DisorderPrefix(s: seq<int>)
    requires |s| > 1
    ensures Disorder(s[..|s| - 1]) <= Disorder(s)
  {
  }

  lemma {:induction false} RepeatsBound(s: seq<int>)
    ensures Repeats(s) <= |s|
  {
    if |s| > 1 {
      RepeatsBound(s[..|s| - 1]);
    }
  }

  /** Four consecutive increasing elements, as in 1,2,3,4, score 0. */
  lemma InOrderScoresZero(a: int32, x0: int32, x1: int32, x2: int32, x3: int32)
    requires x0 as int == a as int + 0 && x1 as int == a as int + 1 && x2 as int == a as int + 2 && x3 as int == a as int + 3
    ensures RegisterAll(INITIAL, [x0, x1, x2, x3]).ordering == 0
  {
    FirstElement(x0);
    var c := Register(INITIAL, x0);
    RegisterAllSnoc(INITIAL, [], x0);
    assert [] + [x0] == [x0];
    RegisterExact(c, x1);
    RegisterAllSnoc(INITIAL, [x0], x1);
    assert [x0] + [x1] == [x0, x1];
    c := Register(c, x1);
    RegisterExact(c, x2);
    RegisterAllSnoc(INITIAL, [x0, x1], x2);
    assert [x0, x1] + [x2] == [x0, x1, x2];
    c := Register(c, x2);
    RegisterExact(c, x3);
    RegisterAllSnoc(INITIAL, [x0, x1, x2], x3);
    assert [x0, x1, x2] + [x3] == [x0, x1, x2, x3];
    c := Register(c, x3);
  }

  /** The shape of 1,4,3,2 scores 6. */
  lemma ReversedTailScoresSix(a: int32, x0: int32, x1: int32, x2: int32, x3: int32)
    requires x0 as int == a as int + 0 && x1 as int == a as int + 3 && x2 as int == a as int + 2 && x3 as int == a as int + 1
    ensures RegisterAll(INITIAL, [x0, x1, x2, x3]).ordering == 6
  {
    FirstElement(x0);
    var c := Register(INITIAL, x0);
    RegisterAllSnoc(INITIAL, [], x0);
    assert [] + [x0] == [x0];
    RegisterExact(c, x1);
    RegisterAllSnoc(INITIAL, [x0], x1);
    assert [x0] + [x1] == [x0, x1];
    c := Register(c, x1);
    RegisterExact(c, x2);
    RegisterAllSnoc(INITIAL, [x0, x1], x2);
    assert [x0, x1] + [x2] == [x0, x1, x2];
    c := Register(c, x2);
    RegisterExact(c, x3);
    RegisterAllSnoc(INITIAL, [x0, x1, x2], x3);
    assert [x0, x1, x2] + [x3] == [x0, x1, x2, x3];
    c := Register(c, x3);
  }

  /** One step back, as in 2,1, scores 2. */
  lemma StepBackScoresTwo(a: int32, x0: int32, x1: int32)
    requires x0 as int == a as int + 1 && x1 as int == a as int + 0
    ensures RegisterAll(INITIAL, [x0, x1]).ordering == 2
  {
    FirstElement(x0);
    var c := Register(INITIAL, x0);
    RegisterAllSnoc(INITIAL, [], x0);
    assert [] + [x0] == [x0];
    RegisterExact(c, x1);
    RegisterAllSnoc(INITIAL, [x0], x1);
    assert [x0] + [x1] == [x0, x1];
    c := Register(c, x1);
  }

  /** The values between the smallest and the largest element that never occur. */
  ghost function Gaps(s: seq<int>): set<int>
    requires s != []
  {
    set x | MinOf(s) <= x <= MaxOf(s) && x !in s
  }

  /** Every element lies between MinOf and MaxOf. */
  lemma {:induction false} WithinRange(s: seq<int>)
    requires s != []
    ensures forall i :: 0 <= i < |s| ==> MinOf(s) <= s[i] <= MaxOf(s)
  {
    if |s| > 1 {
      var init := s[..|s| - 1];
      WithinRange(init);
      assert forall i :: 0 <= i < |init| ==> init[i] == s[i];
    }
  }

  /** The integers from lo to hi. */
  ghost function Span(lo: int, hi: int): (r: set<int>)
    ensures forall x :: x in r <==> lo <= x <= hi
    decreases hi - lo
  {
    if hi < lo then {} else Span(lo, hi - 1) + {hi}
  }

  /** The integers from lo to hi number hi - lo + 1. */
  lemma {:induction false} RangeSize(lo: int, hi: int)
    requires lo <= hi + 1
    ensures |Span(lo, hi)| == hi - lo + 1
    decreases hi - lo + 1
  {
    if lo <= hi {
      RangeSize(lo, hi - 1);
    }
  }

  /** Distinct elements make a set of the same size. */
  lemma {:induction false} DistinctSize(s: seq<int>)
    requires forall i, j :: 0 <= i < j < |s| ==> s[i] != s[j]
    ensures |set x | x in s| == |s|
  {
    if s != [] {
      var init := s[..|s| - 1];
      DistinctSize(init);
      assert (set x | x in s) == (set x | x in init) + {s[|s| - 1]};
    }
  }

  /** count is the number of elements while it stays an int. */
  lemma {:induction false} CountIsLength(s: seq<int32>)
    requires |s| <= INT_MAX
    ensures RegisterAll(INITIAL, s).count == |s|
  {
    if s != [] {
      CountIsLength(s[..|s| - 1]);
    }
  }

  /**
   * For distinct elements, getMissing is the number of values in the range seen
   * that were never registered, while that number is an int.
   */
  lemma MissingCountsGaps(s: seq<int32>)
    requires 1 < |s| <= INT_MAX
    requires forall i, j :: 0 <= i < j < |s| ==> s[i] != s[j]
    requires IsInt32(MaxOf(s) - MinOf(s) - |s| + 1)
    ensures Missing(RegisterAll(INITIAL, s)) == |Gaps(s)|
  {
    var r := Span(MinOf(s), MaxOf(s));
    var e := set x | x in s;
    WithinRange(s);
    assert e <= r;
    assert Gaps(s) == r - e;
    assert r == (r - e) + e && (r - e) * e == {};
    RangeSize(MinOf(s), MaxOf(s));
    DistinctSize(s);
    RangeTracked(s);
    CountIsLength(s);
  }

  /**
   * Distinct elements that fill every value from the smallest to the largest
   * leave none missing.
   */
  lemma NoGapsNoneMissing(s: seq<int32>)
    requires 1 < |s| <= INT_MAX
    requires forall i, j :: 0 <= i < j < |s| ==> s[i] != s[j]
    requires forall x :: MinOf(s) <= x <= MaxOf(s) ==> x in s
    ensures Missing(RegisterAll(INITIAL, s)) == 0
  {
    WithinRange(s);
    assert Span(MinOf(s), MaxOf(s)) == set x | x in s;
    RangeSize(MinOf(s), MaxOf(s));
    DistinctSize(s);
    MissingCountsGaps(s);
    assert Gaps(s) == {};
  }
}
