/**
 * The default destination factory: from the -db (base), -dx (max), -dn (number)
 * and -dr (random) settings it picks one destination, a cycling range of
 * numbered destinations, or random ones, and hands out destination names.
 */
module Destinations {
  import opened JavaLang

  datatype Mode = Single | Distributed | Random

  /** The factory's static fields other than the prefix. */
  datatype Bounds = Bounds(
    mode: Mode, base: int32, max: int32, number: int32, nextDest: int32, randomRange: int32)

  /** The static fields before registerConfig has run. */
  const UNSET := Bounds(Single, 0, 0, 0, 0, 0)

  /** The bounds that follow from the (partial) settings when at least one is positive. */
  function PartialBounds(db: int32, dx: int32, dn: int32): (b: Bounds)
    requires 0 < db || 0 < dx || 0 < dn
    ensures b.mode == Distributed && b.nextDest == b.base
    ensures db != 0 ==> b.base == db
    ensures db == 0 && 0 < dx && 0 < dn ==> b.base == Wrap32(dx as int - dn as int + 1)
    ensures db == 0 && !(0 < dx && 0 < dn) ==> b.base == 1
    ensures dx != 0 ==> b.max == dx
    ensures dx == 0 && 0 < dn ==> b.max == Wrap32(dn as int + b.base as int - 1)
    ensures dx == 0 && dn <= 0 ==> b.max == 0
    ensures dn != 0 ==> b.number == dn
    ensures dn == 0 && 0 < b.max ==> b.number == Wrap32(b.max as int - b.base as int + 1)
    ensures dn == 0 && b.max <= 0 ==> b.number == 0
  {
    var base: int32 :=
      if db != 0 then db
      else if dx > 0 && dn > 0 then Wrap32(dx as int - dn as int + 1)
      else 1;
    var max: int32 := if dx == 0 && dn > 0 then Wrap32(dn as int + base as int - 1) else dx;
    var number: int32 := if dn == 0 && max > 0 then Wrap32(max as int - base as int + 1) else dn;
    Bounds(Distributed, base, max, number, base, 0)
  }

  /**
   * registerConfig with the integer settings already read. A configuration
   * already found invalid changes nothing; the mode is a static field, so
   * settings that are all zero leave the earlier mode in place.
   */
  function Configure(prior: Bounds, invalid: bool, db: int32, dx: int32, dn: int32, dr: bool): (b: Bounds)
    ensures invalid ==> b == prior
    ensures !invalid && !dr && 0 < db && 0 < dx && 0 < dn ==>
      b == Bounds(Distributed, db, dx, Wrap32(dx as int - db as int + 1), dn, prior.randomRange)
    ensures !invalid && !dr && !(0 < db && 0 < dx && 0 < dn) && (0 < db || 0 < dx || 0 < dn) ==>
      b == PartialBounds(db, dx, dn).(randomRange := prior.randomRange)
    ensures !invalid && !dr && db <= 0 && dx <= 0 && dn <= 0 ==>
      b == Bounds(prior.mode, db, dx, dn, prior.nextDest, prior.randomRange)
    ensures !invalid && dr ==> b.mode == Random && b.randomRange == Wrap32(b.max as int - b.base as int + 1)
  {
    if invalid then prior
    else
      var chosen :=
        if db > 0 && dx > 0 && dn > 0 then
          Bounds(Distributed, db, dx, Wrap32(dx as int - db as int + 1), dn, prior.randomRange)
        else if db > 0 || dx > 0 || dn > 0 then
          PartialBounds(db, dx, dn).(randomRange := prior.randomRange)
        else
          Bounds(prior.mode, db, dx, dn, prior.nextDest, prior.randomRange);
      if dr then chosen.(mode := Random, randomRange := Wrap32(chosen.max as int - chosen.base as int + 1))
      else chosen
  }

  /** The next ID after `next`: `nextDest++`, back to base once it passes max. */
  function Successor(next: int32, base: int32, max: int32): (r: int32)
    ensures base <= next <= max ==> base <= r <= max
  {
    var n := Wrap32(next as int + 1);
    if n == Wrap32(max as int + 1) then base else n
  }

  /** The ID after `k` more calls in distributed mode. */
  function DestAfter(next: int32, base: int32, max: int32, k: nat): (r: int32)
    ensures base <= next <= max ==> base <= r <= max
  {
    if k == 0 then next else Successor(DestAfter(next, base, max, k - 1), base, max)
  }

  class DestinationFactory {
    var mode: Mode
    var destBase: int32
    var destMax: int32
    var destNumber: int32
    var destRandomRange: int32
    var destPrefix: string
    var nextDest: int32

    function State(): Bounds
      reads this
    {
      Bounds(mode, destBase, destMax, destNumber, nextDest, destRandomRange)
    }

    constructor()
      ensures State() == UNSET && destPrefix == ""
    {
      mode, destBase, destMax, destNumber := Single, 0, 0, 0;
      destRandomRange, destPrefix, nextDest := 0, "", 0;
    }

    /** registerConfig; `db`, `dx`, `dn`, `d` and `dr` are the values read from the configuration. */
    method RegisterConfig(invalid: bool, db: int32, dx: int32, dn: int32, d: string, dr: bool)
      modifies this
      ensures State() == Configure(old(State()), invalid, db, dx, dn, dr)
      ensures destPrefix == if invalid then old(destPrefix) else d
    {
      if invalid {
        return;
      }
      destBase, destMax, destNumber := db, dx, dn;
      destPrefix := d;
      if destBase > 0 && destMax > 0 && destNumber > 0 {
        mode := Distributed;
        nextDest := destNumber;
        destNumber := Wrap32(destMax as int - destBase as int + 1);
      } else if destBase > 0 || destMax > 0 || destNumber > 0 {
        CompleteBounds();
      }
      if dr {
        mode := Random;
        destRandomRange := Wrap32(destMax as int - destBase as int + 1);
      }
    }

    /** The branch of registerConfig where only some of -db, -dx and -dn are set. */
    method CompleteBounds()
      requires destBase > 0 || destMax > 0 || destNumber > 0
      modifies this
      ensures State() == PartialBounds(old(destBase), old(destMax), old(destNumber)).(randomRange := old(destRandomRange))
      ensures destPrefix == old(destPrefix)
    {
      mode := Distributed;
      if destBase == 0 {
        if destMax > 0 && destNumber > 0 {
          destBase := Wrap32(destMax as int - destNumber as int + 1);
        } else {
          destBase := 1;
        }
      }
      nextDest := destBase;
      if destMax == 0 {
        if destNumber > 0 {
          destMax := Wrap32(destNumber as int + destBase as int - 1);
        }
      }
      if destNumber == 0 {
        if destMax > 0 {
          destNumber := Wrap32(destMax as int - destBase as int + 1);
        }
      }
    }

    /** generateDestinationID: the next ID in distributed mode, -1 otherwise. */
    method GenerateDestinationID(id: int32) returns (num: int32)
      modifies this
      ensures old(mode) == Distributed ==>
        num == old(nextDest) && State() == old(State()).(nextDest := Successor(old(nextDest), destBase, destMax))
      ensures old(mode) != Distributed ==> num == -1 && State() == old(State())
      ensures destPrefix == old(destPrefix)
    {
      if mode == Distributed {
        num := nextDest;
        nextDest := Wrap32(nextDest as int + 1);
        if nextDest == Wrap32(destMax as int + 1) {
          nextDest := destBase;
        }
      } else {
        num := -1;
      }
    }

    /**
     * generateDestination. In random mode `draw` is what Random.nextInt(destRandomRange)
     * returned; nextInt rejects a range that is not positive.
     */
    method GenerateDestination(id: int32, draw: int) returns (r: Result<string>)
      modifies this
      ensures old(mode) == Single ==> r == Ok(destPrefix) && State() == old(State())
      ensures old(mode) == Distributed ==>
        r == Ok(destPrefix + IntToString(old(nextDest))) &&
        State() == old(State()).(nextDest := Successor(old(nextDest), destBase, destMax))
      ensures old(mode) == Random && destRandomRange <= 0 ==> r == Err(IllegalArgument) && State() == old(State())
      ensures old(mode) == Random && 0 < destRandomRange ==>
        r == Ok(destPrefix + IntToString(Wrap32(draw + destBase as int))) && State() == old(State())
      ensures destPrefix == old(destPrefix)
    {
      match mode {
        case Single =>
          r := Ok(destPrefix);
        case Distributed =>
          var n := GenerateDestinationID(id);
          r := Ok(destPrefix + IntToString(n));
        case Random =>
          if destRandomRange <= 0 {
            r := Err(IllegalArgument);
          } else {
            r := Ok(destPrefix + IntToString(Wrap32(draw + destBase as int)));
          }
      }
    }
  }

  // ---------------------------------------------------------------------------
  // The cycle of destination IDs

  /** Inside the range, the successor counts up and wraps from max to base. */
  lemma SuccessorInRange(next: int32, base: int32, max: int32)
    requires base <= next <= max
    ensures Successor(next, base, max) == if next == max then base else next + 1
  {
    if next < max {
      assert Wrap32(next as int + 1) == next + 1;
      if max < INT_MAX {
        assert Wrap32(max as int + 1) == max + 1;
      } else {
        assert Wrap32(max as int + 1) == INT_MIN;
      }
    }
  }

  /** From an ID in [base, max], the IDs handed out cycle through the range. */
  lemma {:induction false} DestinationsCycle(next: int32, base: int32, max: int32, k: nat)
    requires base <= next <= max
    ensures DestAfter(next, base, max, k) == base + (next - base + k) % (max - base + 1)
  {
    var m := max - base + 1;
    if k == 0 {
      ModUnique(next - base, m, 0, next - base);
    } else {
      DestinationsCycle(next, base, max, k - 1);
      CycleStep(DestAfter(next, base, max, k - 1), base, max, next - base + k - 1);
    }
  }

  /** One step of the cycle: the successor of the ID at offset j is the ID at offset j + 1. */
  lemma CycleStep(prev: int32, base: int32, max: int32, j: nat)
    requires base <= max && prev == base + j % (max - base + 1)
    ensures Successor(prev, base, max) == base + (j + 1) % (max - base + 1)
  {
    var m := max - base + 1;
    var r := j % m;
    SuccessorInRange(prev, base, max);
    ModStep(j, m);
    if r + 1 < m {
      ModUnique(r + 1, m, 0, r + 1);
    } else {
      ModUnique(r + 1, m, 1, 0);
    }
  }

  /** With no max (max = 0) and a positive start, the IDs only increase. */
  lemma {:induction false} NoMaxNeverWraps(next: int32, base: int32, k: nat)
    requires 0 < next && next as int + k <= INT_MAX
    ensures DestAfter(next, base, 0, k) == next + k
  {
    if k > 0 {
      NoMaxNeverWraps(next, base, k - 1);
      assert Wrap32(next as int + k) == next + k;
      assert Wrap32(0 + 1) == 1;
    }
  }

  /** With all three settings positive, the first ID is -dn and the count is the range size. */
  lemma AllSettingsStartAtNumber(prior: Bounds, db: int32, dx: int32, dn: int32)
    requires 0 < db <= dx < INT_MAX && 0 < dn
    ensures var b := Configure(prior, false, db, dx, dn, false);
      b.mode == Distributed && b.nextDest == dn && b.number == dx - db + 1
  {
    assert Wrap32(dx as int - db as int + 1) == dx - db + 1;
  }

  /** Only a count given: IDs run from 1 to that count. */
  lemma NumberOnlyCountsFromOne(prior: Bounds, dn: int32)
    requires 0 < dn
    ensures var b := Configure(prior, false, 0, 0, dn, false);
      b.base == 1 && b.max == dn && b.number == dn && b.nextDest == 1
  {
    assert Wrap32(dn as int + 1 - 1) == dn;
  }
}
