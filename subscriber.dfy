/**
 * The message selectors a JMS subscriber registers with: one selector naming
 * a subscriber id, or several ids drawn in turn from a NumberSequencer and
 * combined with OR.
 */
module Selectors {
  import opened JavaLang
  import Sequencer

  const PREFIX: string := "PerfStringProp = 'stringproperty"
  const SUFFIX: string := "'"
  const OR: string := " OR "

  /** singleSelectorString(id): the id in decimal between the fixed prefix and the closing quote. */
  function SingleSelector(id: int32): (r: string)
    ensures |PREFIX| + |SUFFIX| < |r|
  {
    PREFIX + IntToString(id) + SUFFIX
  }

  /** A selector is the prefix, then the id's decimal text, then one closing quote. */
  lemma SingleSelectorShape(id: int32)
    ensures var r := SingleSelector(id);
      |PREFIX| < |r| - |SUFFIX| && r[..|PREFIX|] == PREFIX && r[|r| - 1] == '\'' &&
      r[|PREFIX|..|r| - |SUFFIX|] == IntToString(id)
  {
    var r := SingleSelector(id);
    NatToStringDigits(Abs(id as int));
    assert r[|PREFIX|..|r| - |SUFFIX|] == IntToString(id);
    assert r[..|PREFIX|] == PREFIX;
  }

  /** The id can be read back from between the prefix and the closing quote. */
  lemma SingleSelectorReadsBack(id: int32)
    ensures var r := SingleSelector(id); ParseInt(r[|PREFIX|..|r| - |SUFFIX|]) == Ok(id as int)
  {
    SingleSelectorShape(id);
    ParseIntOfIntToString(id);
  }

  /** Different ids give different selectors. */
  lemma SingleSelectorInjective(a: int32, b: int32)
    requires SingleSelector(a) == SingleSelector(b)
    ensures a == b
  {
    SingleSelectorReadsBack(a);
    SingleSelectorReadsBack(b);
  }

  /** The number the temporary sequencer starts from: setCurrentNumber keeps only a number in range. */
  function StartId(currentNumber: int32, totalNumber: int32): (r: int32)
    ensures totalNumber > 0 ==> 0 <= r < totalNumber
    ensures 0 <= currentNumber < totalNumber ==> r == currentNumber
  {
    if 0 <= currentNumber < totalNumber then currentNumber else 0
  }

  /** The ids the first `count` calls to nextNumber hand out. */
  function SelectorIds(currentNumber: int32, totalNumber: int32, count: nat): (ids: seq<int32>)
    requires totalNumber != 0
    ensures |ids| == count
  {
    seq(count, k requires 0 <= k < count => Sequencer.After(StartId(currentNumber, totalNumber), totalNumber, k))
  }

  /** One more call to nextNumber adds one id. */
  lemma SelectorIdsSnoc(currentNumber: int32, totalNumber: int32, count: nat)
    requires totalNumber != 0
    ensures SelectorIds(currentNumber, totalNumber, count + 1) ==
      SelectorIds(currentNumber, totalNumber, count) + [Sequencer.After(StartId(currentNumber, totalNumber), totalNumber, count)]
  {
  }

  /** A sequencer one step on from the k-th number holds the (k+1)-th. */
  lemma AfterStep(start: int32, totalNumber: int32, k: nat)
    requires totalNumber != 0
    ensures Sequencer.After(Sequencer.After(start, totalNumber, k), totalNumber, 1) == Sequencer.After(start, totalNumber, k + 1)
  {
  }

  /**
   * With a positive total the ids run cyclically from the start modulo the
   * total; a start outside [0, totalNumber) begins at 0.
   */
  lemma SelectorIdsCycle(currentNumber: int32, totalNumber: int32, count: nat, k: nat)
    requires totalNumber > 0 && k < count
    ensures var ids := SelectorIds(currentNumber, totalNumber, count);
      0 <= ids[k] < totalNumber &&
      ids[k] == ((if 0 <= currentNumber < totalNumber then currentNumber else 0) + k) % totalNumber
  {
    Sequencer.AfterIsModular(StartId(currentNumber, totalNumber), totalNumber, k);
  }

  /** The single selector of each id, in order. */
  function SelectorsOf(ids: seq<int32>): (r: seq<string>)
    ensures |r| == |ids|
    ensures forall k :: 0 <= k < |ids| ==> r[k] == SingleSelector(ids[k])
  {
    seq(|ids|, k requires 0 <= k < |ids| => SingleSelector(ids[k]))
  }

  /** The text multipleSelectorString builds as written: " OR " after every selector but the first. */
  function AsWrittenText(ids: seq<int32>): (r: string)
    ensures r == "" <==> ids == []
    decreases |ids|
  {
    if ids == [] then ""
    else AsWrittenText(ids[..|ids| - 1]) + SingleSelector(ids[|ids| - 1]) + (if |ids| > 1 then OR else "")
  }

  /** The selector evidently intended: the single selectors separated by " OR ". */
  function IntendedText(ids: seq<int32>): (r: string)
    ensures |ids| == 1 ==> r == SingleSelector(ids[0])
  {
    Join(SelectorsOf(ids), OR)
  }

  lemma AsWrittenStep(ids: seq<int32>, id: int32)
    ensures AsWrittenText(ids + [id]) == AsWrittenText(ids) + SingleSelector(id) + (if |ids| > 0 then OR else "")
  {
    assert (ids + [id])[..|ids|] == ids;
  }

  lemma IntendedStep(ids: seq<int32>, id: int32)
    ensures IntendedText(ids + [id]) == IntendedText(ids) + (if |ids| > 0 then OR else "") + SingleSelector(id)
  {
    assert SelectorsOf(ids + [id]) == SelectorsOf(ids) + [SingleSelector(id)];
    if |ids| > 0 {
      JoinSnoc(SelectorsOf(ids), SingleSelector(id), OR);
    } else {
      assert SelectorsOf(ids + [id]) == [SingleSelector(id)];
    }
  }

  /** The ids one further call produces, and the sequencer state after it. */
  lemma IdsStep(currentNumber: int32, totalNumber: int32, i: nat, n: int32, number: int32)
    requires totalNumber != 0
    requires n == Sequencer.After(StartId(currentNumber, totalNumber), totalNumber, i)
    requires number == Sequencer.After(n, totalNumber, 1)
    ensures SelectorIds(currentNumber, totalNumber, i + 1) == SelectorIds(currentNumber, totalNumber, i) + [n]
    ensures number == Sequencer.After(StartId(currentNumber, totalNumber), totalNumber, i + 1)
  {
    SelectorIdsSnoc(currentNumber, totalNumber, i);
    AfterStep(StartId(currentNumber, totalNumber), totalNumber, i);
  }

  /** multipleSelectorString(currentNumber, individualTotal, totalNumber), loop for loop, as written. */
  method MultipleSelectorStringAsWritten(currentNumber: int32, individualTotal: int32, totalNumber: int32)
    returns (r: Result<string>)
    ensures individualTotal <= 0 ==> r == Ok("")
    ensures individualTotal > 0 && totalNumber == 0 ==> r == Err(Arithmetic)
    ensures individualTotal > 0 && totalNumber != 0 ==>
      r == Ok(AsWrittenText(SelectorIds(currentNumber, totalNumber, individualTotal as nat)))
  {
    var tmpSequencer := new Sequencer.NumberSequencer(totalNumber);
    tmpSequencer.SetCurrentNumber(currentNumber);
    ghost var start := StartId(currentNumber, totalNumber);
    var selectorString := "";
    var i: int32 := 0;
    while i < individualTotal
      invariant 0 <= i && (individualTotal > 0 ==> i <= individualTotal)
      invariant tmpSequencer.maxNumber == totalNumber
      invariant totalNumber == 0 ==> i == 0 && selectorString == ""
      invariant totalNumber != 0 ==>
        tmpSequencer.number == Sequencer.After(start, totalNumber, i as nat) &&
        selectorString == AsWrittenText(SelectorIds(currentNumber, totalNumber, i as nat))
    {
      var n := tmpSequencer.NextNumber();
      if n.Err? {
        return Err(Arithmetic);
      }
      IdsStep(currentNumber, totalNumber, i as nat, n.value, tmpSequencer.number);
      AsWrittenStep(SelectorIds(currentNumber, totalNumber, i as nat), n.value);
      selectorString := selectorString + SingleSelector(n.value);
      if i > 0 {
        selectorString := selectorString + OR;
      }
      i := i + 1;
    }
    if individualTotal <= 0 {
      return Ok("");
    }
    return Ok(selectorString);
  }

  /** multipleSelectorString with " OR " placed between consecutive selectors. */
  method MultipleSelectorString(currentNumber: int32, individualTotal: int32, totalNumber: int32)
    returns (r: Result<string>)
    ensures individualTotal <= 0 ==> r == Ok("")
    ensures individualTotal > 0 && totalNumber == 0 ==> r == Err(Arithmetic)
    ensures individualTotal > 0 && totalNumber != 0 ==>
      r == Ok(IntendedText(SelectorIds(currentNumber, totalNumber, individualTotal as nat)))
  {
    var tmpSequencer := new Sequencer.NumberSequencer(totalNumber);
    tmpSequencer.SetCurrentNumber(currentNumber);
    ghost var start := StartId(currentNumber, totalNumber);
    var selectorString := "";
    var i: int32 := 0;
    while i < individualTotal
      invariant 0 <= i && (individualTotal > 0 ==> i <= individualTotal)
      invariant tmpSequencer.maxNumber == totalNumber
      invariant totalNumber == 0 ==> i == 0 && selectorString == ""
      invariant totalNumber != 0 ==>
        tmpSequencer.number == Sequencer.After(start, totalNumber, i as nat) &&
        selectorString == IntendedText(SelectorIds(currentNumber, totalNumber, i as nat))
    {
      var n := tmpSequencer.NextNumber();
      if n.Err? {
        return Err(Arithmetic);
      }
      IdsStep(currentNumber, totalNumber, i as nat, n.value, tmpSequencer.number);
      IntendedStep(SelectorIds(currentNumber, totalNumber, i as nat), n.value);
      if i > 0 {
        selectorString := selectorString + OR;
      }
      selectorString := selectorString + SingleSelector(n.value);
      i := i + 1;
    }
    if individualTotal <= 0 {
      return Ok("");
    }
    return Ok(selectorString);
  }

  /** With one id both texts are that id's single selector. */
  lemma OneIdIsSingleSelector(id: int32)
    ensures AsWrittenText([id]) == SingleSelector(id)
    ensures IntendedText([id]) == SingleSelector(id)
  {
    assert [id][..0] == [];
  }

  /**
   * As written, two or more ids give the first two selectors run together,
   * then " OR ", and the text always ends in a dangling " OR ".
   */
  lemma {:induction false} AsWrittenShape(ids: seq<int32>)
    requires |ids| >= 2
    ensures StartsWith(AsWrittenText(ids), SingleSelector(ids[0]) + SingleSelector(ids[1]) + OR)
    ensures EndsWith(AsWrittenText(ids), OR)
  {
    AsWrittenStarts(ids);
    var front := AsWrittenText(ids[..|ids| - 1]) + SingleSelector(ids[|ids| - 1]);
    var u := front + OR;
    assert AsWrittenText(ids) == u;
    assert u[|front|..] == OR;
  }

  lemma {:induction false} AsWrittenStarts(ids: seq<int32>)
    requires |ids| >= 2
    ensures StartsWith(AsWrittenText(ids), SingleSelector(ids[0]) + SingleSelector(ids[1]) + OR)
    decreases |ids|
  {
    var front := ids[..|ids| - 1];
    var head := SingleSelector(ids[0]) + SingleSelector(ids[1]) + OR;
    if |ids| == 2 {
      assert front[..0] == [];
      assert AsWrittenText(front) == SingleSelector(ids[0]);
      assert AsWrittenText(ids) == head;
    } else {
      AsWrittenStarts(front);
      assert front[0] == ids[0] && front[1] == ids[1];
      var t := AsWrittenText(front);
      var u := t + (SingleSelector(ids[|ids| - 1]) + OR);
      assert AsWrittenText(ids) == u;
      assert |head| <= |t| && t[..|head|] == head;
      assert u[..|head|] == t[..|head|];
    }
  }

  /** The intended text starts with the first selector and ends with the last one's closing quote. */
  lemma IntendedShape(ids: seq<int32>)
    requires |ids| >= 1
    ensures StartsWith(IntendedText(ids), SingleSelector(ids[0]))
    ensures EndsWith(IntendedText(ids), SUFFIX)
  {
    var init, id := ids[..|ids| - 1], ids[|ids| - 1];
    assert ids == init + [id];
    IntendedStep(init, id);
    SingleSelectorShape(id);
    var u := IntendedText(ids);
    var last := SingleSelector(id);
    assert u[|u| - 1] == last[|last| - 1] == '\'';
    assert u[|u| - |SUFFIX|..] == SUFFIX;
    if |ids| > 1 {
      var parts := SelectorsOf(ids);
      assert u == parts[0] + OR + Join(parts[1..], OR);
      assert u[..|parts[0]|] == parts[0];
    } else {
      assert u == SingleSelector(id);
    }
  }

  /** The text as written holds the same selectors and " OR "s as the intended one, only placed differently. */
  lemma {:induction false} SameLength(ids: seq<int32>)
    ensures |AsWrittenText(ids)| == |IntendedText(ids)|
  {
    if ids != [] {
      var init, id := ids[..|ids| - 1], ids[|ids| - 1];
      assert ids == init + [id];
      SameLength(init);
      AsWrittenStep(init, id);
      IntendedStep(init, id);
    }
  }

  /** As written, every text of two or more selectors differs from the intended one. */
  lemma OrMisplaced(ids: seq<int32>)
    requires |ids| >= 2
    ensures AsWrittenText(ids) != IntendedText(ids)
  {
    AsWrittenShape(ids);
    IntendedShape(ids);
    var t := AsWrittenText(ids);
    assert t[|t| - 1] == ' ';
    var u := IntendedText(ids);
    assert u[|u| - 1] == '\'';
  }
}
