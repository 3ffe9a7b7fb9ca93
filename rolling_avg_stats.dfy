/**
 * Rolling-average statistics: once a second the operations completed since
 * the previous sample go into a ring of numSamples slots, and `sum` keeps
 * the total of the ring so that the rate over the window is sum / numSamples.
 */
module RollingAvg {
  import opened JavaLang

  /** The exact total of a sequence of ints. */
  function Sum(s: seq<int32>): int {
    if s == [] then 0 else Sum(s[..|s| - 1]) + s[|s| - 1]
  }

  /** The total of curr[j] - prev[j] over the first n threads. */
  function Shared(curr: seq<int32>, prev: seq<int32>, n: nat): int
    requires n <= |curr| && n <= |prev|
  {
    if n == 0 then 0 else Shared(curr, prev, n - 1) + (curr[n - 1] as int - prev[n - 1] as int)
  }

  /**
   * numNewOperations, exactly: the growth of each thread's count over the
   * threads both readings have, plus the whole count of each new thread.
   */
  function NewOps(curr: seq<int32>, prev: seq<int32>): (r: int)
    ensures curr == prev ==> r == 0
  {
    var shortest := Min(|curr|, |prev|);
    if curr == prev then
      SharedSelf(curr, shortest);
      assert curr[shortest..] == [];
      Shared(curr, prev, shortest) + Sum(curr[shortest..])
    else Shared(curr, prev, shortest) + Sum(curr[shortest..])
  }

  /** A reading compared with itself shows no growth. */
  lemma {:induction false} SharedSelf(s: seq<int32>, n: nat)
    requires n <= |s|
    ensures Shared(s, s, n) == 0
  {
    if n > 0 {
      SharedSelf(s, n - 1);
    }
  }

  /** The sample taken `age` samples ago, or 0 before that many were taken. */
  function Recent(recorded: seq<int32>, age: nat): int32 {
    if age < |recorded| then recorded[|recorded| - 1 - age] else 0
  }

  /** Slot i holds the sample taken as many samples ago as i lies behind the slot before ptr. */
  ghost predicate Aged(slots: seq<int32>, recorded: seq<int32>, ptr: int) {
    forall i :: 0 <= i < |slots| ==> slots[i] == Recent(recorded, (ptr - 1 - i) % |slots|)
  }

  /** The largest of the sums, or Integer.MIN_VALUE when there are none. */
  function Highest(sums: seq<int32>): (r: int32)
    ensures forall i :: 0 <= i < |sums| ==> sums[i] <= r
    ensures sums != [] ==> r in sums
    ensures sums == [] ==> r == INT_MIN
  {
    if sums == [] then INT_MIN as int32 else Max(Highest(sums[..|sums| - 1]), sums[|sums| - 1]) as int32
  }

  /** The loops of numNewOperations, on the readings updateValues leaves in curr and prev. */
  method CountNewOperations(curr: seq<int32>, prev: seq<int32>) returns (total: int32)
    ensures total == Wrap32(NewOps(curr, prev))
  {
    var shortest := if |curr| < |prev| then |curr| else |prev|;
    total := AddGrowth(curr, prev, shortest);
    total := AddNewThreads(curr, shortest, total, Shared(curr, prev, shortest));
  }

  /** The first loop: total += curr[j] - prev[j] for each thread both readings have. */
  method AddGrowth(curr: seq<int32>, prev: seq<int32>, shortest: nat) returns (total: int32)
    requires shortest <= |curr| && shortest <= |prev|
    ensures total == Wrap32(Shared(curr, prev, shortest))
  {
    total := 0;
    var j := 0;
    ghost var exact := 0;
    while j < shortest
      invariant 0 <= j <= shortest
      invariant exact == Shared(curr, prev, j) && total == Wrap32(exact)
    {
      var diff := Wrap32(curr[j] as int - prev[j] as int);
      Accumulate(total, exact, curr[j] as int - prev[j] as int);
      total := Wrap32(total as int + diff as int);
      exact := exact + (curr[j] as int - prev[j] as int);
      j := j + 1;
    }
  }

  /** The second loop: total += curr[j] for each thread that is new since the previous reading. */
  method AddNewThreads(curr: seq<int32>, shortest: nat, start: int32, ghost exact0: int) returns (total: int32)
    requires shortest <= |curr| && start == Wrap32(exact0)
    ensures total == Wrap32(exact0 + Sum(curr[shortest..]))
  {
    total := start;
    var j := shortest;
    ghost var exact := exact0;
    while j < |curr|
      invariant shortest <= j <= |curr|
      invariant exact == exact0 + Sum(curr[shortest..j]) && total == Wrap32(exact)
    {
      assert curr[shortest..j + 1][..j - shortest] == curr[shortest..j];
      Accumulate(total, exact, curr[j] as int);
      total := Wrap32(total as int + curr[j] as int);
      exact := exact + curr[j] as int;
      j := j + 1;
    }
    assert curr[shortest..j] == curr[shortest..];
  }

  /** `total += x` in int arithmetic keeps total the wrapped exact running sum. */
  lemma Accumulate(total: int32, exact: int, x: int)
    requires total == Wrap32(exact)
    ensures Wrap32(total as int + Wrap32(x) as int) == Wrap32(exact + x)
    ensures IsInt32(x) ==> Wrap32(total as int + x) == Wrap32(exact + x)
  {
    Wrap32Add(exact, x);
  }

  class RollingAvgStats {
    const numSamples: int32
    const samples: array<int32>
    /** The slot the next sample goes into. */
    var samplePtr: int32
    var earlySamples: int32
    var sum: int32
    var maxSum: int32
    /** The per-thread iteration counts of the previous and latest reading. */
    var prev: seq<int32>
    var curr: seq<int32>
    /** Every count placed in the ring, oldest first. */
    ghost var recorded: seq<int32>
    /** The sums after each sample since the measurement period began. */
    ghost var sums: seq<int32>

    /**
     * The ring has max(numSamples, 0) slots; the slot `age` places behind
     * samplePtr holds the sample taken that many samples ago (0 before there
     * was one); `sum` is the ring's total in int arithmetic.
     */
    ghost predicate Ring()
      reads this`samplePtr, this`sum, this`recorded, samples
    {
      samples.Length == Max(numSamples as int, 0) &&
      0 <= samplePtr && (samples.Length > 0 ==> samplePtr as int < samples.Length) &&
      sum == Wrap32(Sum(samples[..])) && Aged(samples[..], recorded, samplePtr as int)
    }

    /** The ring, and maxSum is the highest sum of the measurement period. */
    ghost predicate Valid()
      reads this, samples
    {
      Ring() && maxSum == Highest(sums)
    }

    /** RollingAvgStats(parent): an empty ring and a first reading of the workers. */
    constructor(n: int32, readings: seq<int32>)
      ensures Valid() && numSamples == n && fresh(samples)
      ensures samplePtr == 0 && earlySamples == 0 && sum == 0 && maxSum == INT_MIN as int32
      ensures prev == [] && curr == readings && recorded == [] && sums == []
    {
      numSamples := n;
      samples := new int32[if n > 0 then n else 0](_ => 0);
      samplePtr := 0;
      earlySamples := 0;
      sum := 0;
      maxSum := INT_MIN as int32;
      prev := [];
      curr := readings;
      recorded := [];
      sums := [];
      new;
      ZerosSum(samples[..]);
    }

    /** updateValues followed by numNewOperations. */
    method NumNewOperations(readings: seq<int32>) returns (total: int32)
      modifies this`prev, this`curr
      ensures prev == old(curr) && curr == readings
      ensures total == Wrap32(NewOps(readings, old(curr)))
    {
      prev := curr;
      curr := readings;
      total := CountNewOperations(curr, prev);
    }

    /**
     * Sample.run: the new count replaces the oldest in the ring (see
     * TakeSample), and maxSum follows the sum upwards. With no slots the first
     * access throws.
     */
    method Run(readings: seq<int32>) returns (r: Result<()>)
      requires Valid()
      modifies this, samples
      ensures Valid()
      ensures samples.Length == 0 ==>
        r == Err(IndexOutOfBounds) && samples[..] == old(samples[..]) && samplePtr == old(samplePtr) &&
        sum == old(sum) && maxSum == old(maxSum) && earlySamples == old(earlySamples) &&
        prev == old(prev) && curr == old(curr) && recorded == old(recorded) && sums == old(sums)
      ensures samples.Length > 0 ==> r == Ok(()) && prev == old(curr) && curr == readings
      ensures samples.Length > 0 ==>
        samples[..] == old(samples[..])[old(samplePtr) as int := Wrap32(NewOps(readings, old(curr)))]
      ensures samples.Length > 0 ==> recorded == old(recorded) + [Wrap32(NewOps(readings, old(curr)))]
      ensures samples.Length > 0 ==> samplePtr as int == (old(samplePtr) as int + 1) % samples.Length
      ensures samples.Length > 0 ==>
        maxSum == Max(old(maxSum) as int, sum as int) && sums == old(sums) + [sum] &&
        earlySamples == Wrap32(old(earlySamples) as int + 1)
    {
      if samples.Length == 0 {
        return Err(IndexOutOfBounds);
      }
      var n := TakeSample(readings);
      Track();
      return Ok(());
    }

    /** The bookkeeping after a sample: one more early sample, and the sum joins the history of sums. */
    method Track()
      requires maxSum == Highest(sums)
      modifies this`earlySamples, this`maxSum, this`sums
      ensures maxSum == Highest(sums) && sums == old(sums) + [sum]
      ensures maxSum == Max(old(maxSum) as int, sum as int)
      ensures earlySamples == Wrap32(old(earlySamples) as int + 1)
    {
      earlySamples := Wrap32(earlySamples as int + 1);
      if sum > maxSum {
        maxSum := sum;
      }
      sums := sums + [sum];
      assert sums[..|sums| - 1] == old(sums);
    }

    /**
     * The ring step of Sample.run: the sample in the current slot leaves the
     * sum, numNewOperations takes its slot and joins the sum, and the pointer
     * moves on cyclically.
     */
    method TakeSample(readings: seq<int32>) returns (n: int32)
      requires Ring() && samples.Length > 0
      modifies this`sum, this`samplePtr, this`prev, this`curr, this`recorded, samples
      ensures Ring()
      ensures n == Wrap32(NewOps(readings, old(curr))) && prev == old(curr) && curr == readings
      ensures samples[..] == old(samples[..])[old(samplePtr) as int := n]
      ensures samplePtr as int == (old(samplePtr) as int + 1) % samples.Length
      ensures recorded == old(recorded) + [n]
    {
      ghost var before := samples[..];
      var p := samplePtr;
      n := NumNewOperations(readings);
      Replace(p, n);
      samplePtr := (samplePtr + 1) % numSamples;
      recorded := recorded + [n];
      RingStep(before, samples[..], old(recorded), p as int, n);
    }

    /**
     * The slot update of Sample.run: the old sample leaves the running sum and
     * the new one takes its slot and joins the sum. (numNewOperations, which
     * the source calls between the two steps, touches neither.)
     */
    method Replace(p: int32, n: int32)
      requires 0 <= p as int < samples.Length && sum == Wrap32(Sum(samples[..]))
      modifies this`sum, samples
      ensures samples[..] == old(samples[..])[p as int := n] && sum == Wrap32(Sum(samples[..]))
    {
      ghost var before := samples[..];
      sum := Wrap32(sum as int - samples[p] as int);
      samples[p] := n;
      sum := Wrap32(sum as int + samples[p] as int);
      assert samples[..] == before[p as int := n];
      SumStep(before, p as int, n, old(sum));
    }

    /** notifyMeasurementPeriod: the highest sum starts again from Integer.MIN_VALUE. */
    method NotifyMeasurementPeriod()
      requires Valid()
      modifies this
      ensures Valid() && maxSum == INT_MIN as int32 && sums == []
      ensures samplePtr == old(samplePtr) && sum == old(sum) && earlySamples == old(earlySamples)
      ensures prev == old(prev) && curr == old(curr) && recorded == old(recorded)
    {
      maxSum := INT_MIN as int32;
      sums := [];
    }
  }

  // ---------------------------------------------------------------------------
  // The ring

  /** Replacing one element changes the sum by the difference. */
  lemma {:induction false} SumReplace(s: seq<int32>, p: nat, v: int32)
    requires p < |s|
    ensures Sum(s[p := v]) == Sum(s) - s[p] + v
    decreases |s|
  {
    var t := s[p := v];
    assert t[..|t| - 1] == if p == |s| - 1 then s[..|s| - 1] else s[..|s| - 1][p := v];
    if p < |s| - 1 {
      SumReplace(s[..|s| - 1], p, v);
    }
  }

  /** The wrapped running sum after a slot is replaced is the wrapped sum of the new ring. */
  lemma SumStep(s: seq<int32>, p: nat, v: int32, sum: int32)
    requires p < |s| && sum == Wrap32(Sum(s))
    ensures Wrap32(Wrap32(sum as int - s[p] as int) as int + v as int) == Wrap32(Sum(s[p := v]))
  {
    var e := Sum(s) - s[p] as int;
    Wrap32Sum(Sum(s), -(s[p] as int));
    assert Wrap32(sum as int - s[p] as int) == Wrap32(e);
    Wrap32Sum(e, v as int);
    SumReplace(s, p, v);
  }

  lemma {:induction false} ZerosSum(s: seq<int32>)
    requires forall i :: 0 <= i < |s| ==> s[i] == 0
    ensures Sum(s) == 0
    decreases |s|
  {
    if s != [] {
      ZerosSum(s[..|s| - 1]);
    }
  }

  /**
   * After a sample goes into slot p and the pointer moves on, every slot is one
   * sample older, and slot p holds the newest.
   */
  lemma RingStep(before: seq<int32>, after: seq<int32>, recorded: seq<int32>, p: int, v: int32)
    requires 0 <= p < |before| && after == before[p := v]
    requires Aged(before, recorded, p)
    ensures Aged(after, recorded + [v], (p + 1) % |after|)
  {
    var N := |before|;
    forall i | 0 <= i < N
      ensures after[i] == Recent(recorded + [v], ((p + 1) % N - 1 - i) % N)
    {
      Age(p, i, N);
    }
  }

  /**
   * Ages in the ring: slot i is 0 samples behind the slot after p when i == p,
   * and otherwise one more than it was behind p.
   */
  lemma Age(p: int, i: int, N: int)
    requires 0 <= p < N && 0 <= i < N
    ensures ((p + 1) % N - 1 - i) % N == if i == p then 0 else (p - 1 - i) % N + 1
  {
    var next := if p + 1 < N then p + 1 else 0;
    ModUnique(p + 1, N, if p + 1 < N then 0 else 1, next);
    var d := p - i;
    if p + 1 < N {
      assert next - 1 - i == d;
    } else {
      ModShift(-1 - i, N);
      assert (next - 1 - i) + N == d;
    }
    // (next - 1 - i) % N == d % N
    if d > 0 {
      ModUnique(d, N, 0, d);
      ModUnique(d - 1, N, 0, d - 1);
    } else if d == 0 {
      ModUnique(0, N, 0, 0);
    } else {
      ModUnique(d, N, -1, d + N);
      ModUnique(d - 1, N, -1, d - 1 + N);
    }
  }

  // ---------------------------------------------------------------------------
  // What numNewOperations counts

  lemma {:induction false} SharedIsDifference(curr: seq<int32>, prev: seq<int32>, n: nat)
    requires n <= |curr| && n <= |prev|
    ensures Shared(curr, prev, n) == Sum(curr[..n]) - Sum(prev[..n])
  {
    if n > 0 {
      SharedIsDifference(curr, prev, n - 1);
      assert curr[..n][..n - 1] == curr[..n - 1];
      assert prev[..n][..n - 1] == prev[..n - 1];
    }
  }

  lemma {:induction false} SumSplit(s: seq<int32>, m: nat)
    requires m <= |s|
    ensures Sum(s) == Sum(s[..m]) + Sum(s[m..])
    decreases |s|
  {
    if m < |s| {
      SumSplit(s[..|s| - 1], m);
      assert s[..|s| - 1][..m] == s[..m];
      assert s[m..][..|s[m..]| - 1] == s[..|s| - 1][m..];
    } else {
      assert s[..m] == s;
    }
  }

  /**
   * numNewOperations is the growth of the total count over the threads the
   * previous reading had: all operations since then when no thread went away.
   */
  lemma NewOpsIsGrowth(curr: seq<int32>, prev: seq<int32>)
    ensures NewOps(curr, prev) == Sum(curr) - Sum(prev[..Min(|curr|, |prev|)])
    ensures |prev| <= |curr| ==> NewOps(curr, prev) == Sum(curr) - Sum(prev)
  {
    var m := Min(|curr|, |prev|);
    SharedIsDifference(curr, prev, m);
    SumSplit(curr, m);
    if m == |curr| {
      assert curr[..m] == curr;
    }
    assert prev[..|prev|] == prev;
  }
}
