/**
 * A shared counter that hands out 0, 1, ..., maxNumber - 1, 0, 1, ... in turn,
 * used to pick subscriber selector ids.
 */
module Sequencer {
  import opened JavaLang

  /** `(number + 1) % maxNumber` in int arithmetic; a zero divisor throws. */
  function Advance(number: int32, maxNumber: int32): (r: Result<int32>)
    ensures maxNumber == 0 <==> r == Err(Arithmetic)
    ensures r.Ok? ==> Abs(r.value) < Abs(maxNumber)
  {
    if maxNumber == 0 then Err(Arithmetic)
    else
      var x := JavaRem(Wrap32(number as int + 1), maxNumber as int);
      Ok(x as int32)
  }

  /** The number a sequencer holds after `k` successful calls to nextNumber, from `start`. */
  function After(start: int32, maxNumber: int32, k: nat): int32
    requires maxNumber != 0
  {
    if k == 0 then start else Advance(After(start, maxNumber, k - 1), maxNumber).value
  }

  class NumberSequencer {
    var number: int32
    var maxNumber: int32

    /** The protected constructor: the bound defaults to 10. */
    constructor Default()
      ensures number == 0 && maxNumber == 10
    {
      number := 0;
      maxNumber := 10;
    }

    constructor(maxNumber: int32)
      ensures number == 0 && this.maxNumber == maxNumber
    {
      number := 0;
      this.maxNumber := maxNumber;
    }

    /** Returns the current number and advances it modulo maxNumber. */
    method NextNumber() returns (r: Result<int32>)
      modifies this
      ensures maxNumber == old(maxNumber)
      ensures old(maxNumber) == 0 ==> r == Err(Arithmetic) && number == old(number)
      ensures old(maxNumber) != 0 ==> r == Ok(old(number)) && number == After(old(number), maxNumber, 1)
    {
      var tmpNumber := number;
      var next := Advance(number, maxNumber);
      if next.Err? {
        return Err(Arithmetic);
      }
      number := next.value;
      return Ok(tmpNumber);
    }

    /** Values outside [0, maxNumber) are ignored. */
    method SetCurrentNumber(n: int32)
      modifies this
      ensures maxNumber == old(maxNumber)
      ensures 0 <= n < maxNumber ==> number == n
      ensures !(0 <= n < maxNumber) ==> number == old(number)
    {
      if n < maxNumber && n >= 0 {
        number := n;
      }
    }
  }

  /** The static `instance` slot behind getInstance. */
  class SequencerSlot {
    var instance: NumberSequencer?

    constructor()
      ensures instance == null
    {
      instance := null;
    }

    /** The first call creates the sequencer; later calls return it and ignore their argument. */
    method GetInstance(maxNumber: int32) returns (s: NumberSequencer)
      modifies this
      ensures old(instance) != null ==> s == old(instance) && instance == s
      ensures old(instance) == null ==> fresh(s) && instance == s && s.number == 0 && s.maxNumber == maxNumber
    {
      if instance == null {
        instance := new NumberSequencer(maxNumber);
      }
      s := instance;
    }
  }

  // ---------------------------------------------------------------------------
  // The cycle

  /** From a number in range, one step is the next number modulo maxNumber. */
  lemma AdvanceInRange(number: int32, maxNumber: int32)
    requires 0 <= number < maxNumber
    ensures Advance(number, maxNumber) == Ok((number + 1) % maxNumber)
    ensures 0 <= (number + 1) % maxNumber < maxNumber
  {
    assert Wrap32(number as int + 1) == number + 1;
  }

  /** With a positive bound and a start in range, k calls land on (start + k) mod maxNumber. */
  lemma {:induction false} AfterIsModular(start: int32, maxNumber: int32, k: nat)
    requires 0 <= start < maxNumber
    ensures After(start, maxNumber, k) == (start + k) % maxNumber
  {
    if k > 0 {
      AfterIsModular(start, maxNumber, k - 1);
      var prev := After(start, maxNumber, k - 1);
      AdvanceInRange(prev, maxNumber);
      ModStep(start + k - 1, maxNumber);
    }
  }

  /** The numbers handed out repeat with period maxNumber. */
  lemma CycleHasPeriod(start: int32, maxNumber: int32, k: nat)
    requires 0 <= start < maxNumber
    ensures After(start, maxNumber, k + maxNumber as nat) == After(start, maxNumber, k)
    ensures 0 <= After(start, maxNumber, k) < maxNumber
  {
    AfterIsModular(start, maxNumber, k + maxNumber as nat);
    AfterIsModular(start, maxNumber, k);
    ModShift(start + k, maxNumber as int);
  }
}
