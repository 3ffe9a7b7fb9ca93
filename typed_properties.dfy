/**
 * A string-to-string property props with typed getters: getString trims, the
 * numeric getters parse, getBoolean accepts true/false/1/0/"" and the defaulted
 * getters fall back when the value is missing or empty.
 */
module TypedProps {
  import opened JavaLang

  /** String.equalsIgnoreCase on ASCII letters. */
  predicate EqualsIgnoreCase(a: string, b: string) { ToLower(a) == ToLower(b) }

  /** The decision getBoolean makes on a value once it has been trimmed. */
  function ParseBoolean(value: string): (r: Result<bool>)
    ensures r == Ok(false) <==> EqualsIgnoreCase(value, "false") || value == "0"
    ensures r == Ok(true) <==> EqualsIgnoreCase(value, "true") || value == "1" || value == ""
    ensures r.Err? ==> r.error == TypedProperty
  {
    assert ToLower("false") == "false" && ToLower("true") == "true";
    if EqualsIgnoreCase(value, "false") || value == "0" then Ok(false)
    else if EqualsIgnoreCase(value, "true") || value == "1" || value == "" then Ok(true)
    else Err(TypedProperty)
  }

  /** Boolean.toString. */
  function BoolToString(b: bool): string { if b then "true" else "false" }

  /** A parse failure becomes a TypedPropertyException. */
  function AsTyped(r: Result<int>): (t: Result<int>)
    ensures t.Ok? <==> r.Ok?
    ensures t.Ok? ==> t.value == r.value
    ensures t.Err? ==> t.error == TypedProperty
  {
    if r.Ok? then r else Err(TypedProperty)
  }

  /** One position of getCSIntList(name, n, def): def when missing or empty, else the parsed piece. */
  function EntryOrDefault(pieces: seq<string>, k: nat, def: int): (r: Result<int>)
    ensures r.Ok? ==> r.value == def || (k < |pieces| && ParseInt(pieces[k]) == r)
    ensures r.Err? ==> r.error == TypedProperty
  {
    if k < |pieces| && pieces[k] != "" then AsTyped(ParseInt(pieces[k])) else Ok(def)
  }

  /** The first m positions of getCSIntList(name, n, def), or the first failure among them. */
  function FillTo(pieces: seq<string>, m: nat, def: int): (r: Result<seq<int>>)
    ensures r.Ok? ==> |r.value| == m
    ensures r.Err? ==> r.error == TypedProperty
  {
    if m == 0 then Ok([])
    else
      var prev := FillTo(pieces, m - 1, def);
      if prev.Err? then prev
      else
        var e := EntryOrDefault(pieces, m - 1, def);
        if e.Err? then Err(e.error) else Ok(prev.value + [e.value])
  }

  /** The pieces of getCSIntList(name), each parsed, or the first failure. */
  function ParseAll(pieces: seq<string>): (r: Result<seq<int>>)
    ensures r.Ok? ==> |r.value| == |pieces|
    ensures r.Err? ==> r.error == TypedProperty
  {
    if pieces == [] then Ok([])
    else
      var prev := ParseAll(pieces[..|pieces| - 1]);
      if prev.Err? then prev
      else
        var e := AsTyped(ParseInt(pieces[|pieces| - 1]));
        if e.Err? then Err(e.error) else Ok(prev.value + [e.value])
  }

  /** getCSIntList(name) on a present value. */
  function CSInts(value: string): (r: Result<seq<int>>)
    ensures r.Ok? ==> |r.value| == |JavaSplit(Trim(value), ',')|
    ensures r.Err? ==> r.error == TypedProperty
  {
    ParseAll(JavaSplit(Trim(value), ','))
  }

  /** getCSIntList(name, n, def) on a present value and n >= 0. */
  function CSIntsOr(value: string, n: nat, def: int): (r: Result<seq<int>>)
    ensures r.Ok? ==> |r.value| == n
    ensures r.Err? ==> r.error == TypedProperty
  {
    FillTo(JavaSplit(Trim(value), ','), n, def)
  }

  class TypedProperties {
    var props: map<string, string>

    constructor()
      ensures props == map[]
    {
      props := map[];
    }

    constructor Wrap(m: map<string, string>)
      ensures props == m
    {
      props := m;
    }

    function Get(key: string): (r: Option<string>)
      reads this
      ensures r.Some? <==> key in props
      ensures r.Some? ==> r.value == props[key]
    {
      if key in props then Some(props[key]) else None
    }

    method Put(key: string, value: string) returns (prev: Option<string>)
      modifies this
      ensures props == old(props)[key := value]
      ensures prev == old(Get(key))
    {
      prev := Get(key);
      props := props[key := value];
    }

    method Remove(key: string) returns (prev: Option<string>)
      modifies this
      ensures props == old(props) - {key}
      ensures prev == old(Get(key))
    {
      prev := Get(key);
      props := props - {key};
    }

    /** getString(name): the trimmed value, or TypedPropertyException when the name is unknown. */
    function GetString(name: string): (r: Result<string>)
      reads this
      ensures r.Err? <==> name !in props
      ensures r.Err? ==> r.error == TypedProperty
      ensures r.Ok? ==> r.value == Trim(props[name])
    {
      if name in props then Ok(Trim(props[name])) else Err(TypedProperty)
    }

    /** getString(name, def). */
    function GetStringOr(name: string, def: string): (r: string)
      reads this
      ensures name !in props ==> r == def
      ensures name in props ==> r == Trim(props[name])
    {
      if name in props then Trim(props[name]) else def
    }

    /** getCSStringList(name): the trimmed value split at commas. */
    function GetCSStringList(name: string): (r: Result<seq<string>>)
      reads this
      ensures r.Err? <==> name !in props
    {
      var v :- GetString(name);
      Ok(JavaSplit(v, ','))
    }

    /** getInt(name): parses the trimmed value. */
    function GetInt(name: string): (r: Result<int>)
      reads this
      ensures r.Ok? ==> IsInt32(r.value)
      ensures r.Err? ==> r.error == TypedProperty
    {
      var v :- GetString(name);
      AsTyped(ParseInt(v))
    }

    /** getInt(name, def): def for a missing or empty value, else parses the value untrimmed. */
    function GetIntOr(name: string, def: int): (r: Result<int>)
      reads this
      ensures name !in props || props[name] == "" ==> r == Ok(def)
      ensures r.Err? ==> r.error == TypedProperty
    {
      if name !in props || props[name] == "" then Ok(def) else AsTyped(ParseInt(props[name]))
    }

    /** getLong(name). */
    function GetLong(name: string): (r: Result<int>)
      reads this
      ensures r.Ok? ==> LONG_MIN <= r.value <= LONG_MAX
      ensures r.Err? ==> r.error == TypedProperty
    {
      var v :- GetString(name);
      AsTyped(ParseLong(v))
    }

    /** getLong(name, def). */
    function GetLongOr(name: string, def: int): (r: Result<int>)
      reads this
      ensures name !in props || props[name] == "" ==> r == Ok(def)
      ensures r.Err? ==> r.error == TypedProperty
    {
      if name !in props || props[name] == "" then Ok(def) else AsTyped(ParseLong(props[name]))
    }

    /** getBoolean(name): "" counts as true. */
    function GetBoolean(name: string): (r: Result<bool>)
      reads this
      ensures r.Err? ==> r.error == TypedProperty
    {
      var v :- GetString(name);
      ParseBoolean(v)
    }

    /** getBoolean(name, def): def for a missing or empty value, else the trimmed value decides. */
    function GetBooleanOr(name: string, def: bool): (r: Result<bool>)
      reads this
      ensures name !in props || props[name] == "" ==> r == Ok(def)
      ensures r.Err? ==> r.error == TypedProperty
    {
      if name !in props || props[name] == "" then Ok(def) else ParseBoolean(Trim(props[name]))
    }

    /** getCSIntList(name): every comma-separated piece of the trimmed value, parsed. */
    method GetCSIntList(name: string) returns (r: Result<array<int>>)
      ensures name !in props ==> r == Err(TypedProperty)
      ensures name in props ==> (r.Err? <==> CSInts(props[name]).Err?)
      ensures r.Err? ==> r.error == TypedProperty
      ensures name in props && r.Ok? ==> r.value[..] == CSInts(props[name]).value
    {
      var value := Get(name);
      if value.None? {
        return Err(TypedProperty);
      }
      r := ParseInts(JavaSplit(Trim(value.value), ','));
    }

    /** getCSIntList(name, n, def): exactly n ints, def where a piece is missing or empty. */
    method GetCSIntListOr(name: string, n: int, def: int) returns (r: Result<array<int>>)
      ensures name !in props ==> r == Err(TypedProperty)
      ensures name in props && n < 0 ==> r == Err(NegativeArraySize)
      ensures name in props && n >= 0 ==> (r.Err? <==> CSIntsOr(props[name], n, def).Err?)
      ensures name in props && n >= 0 && r.Err? ==> r.error == TypedProperty
      ensures name in props && n >= 0 && r.Ok? ==> r.value[..] == CSIntsOr(props[name], n, def).value
    {
      var value := Get(name);
      if value.None? {
        return Err(TypedProperty);
      }
      var s := JavaSplit(Trim(value.value), ',');
      if n < 0 {
        return Err(NegativeArraySize);
      }
      r := FillInts(s, n, def);
    }

    /** putInt: Integer.toString of the value. */
    method PutInt(key: string, value: int32)
      modifies this
      ensures props == old(props)[key := IntToString(value)]
    {
      props := props[key := IntToString(value)];
    }

    /** putLong: Long.toString of the value. */
    method PutLong(key: string, value: int)
      requires LONG_MIN <= value <= LONG_MAX
      modifies this
      ensures props == old(props)[key := IntToString(value)]
    {
      props := props[key := IntToString(value)];
    }

    /** putBoolean: Boolean.toString of the value. */
    method PutBoolean(key: string, value: bool)
      modifies this
      ensures props == old(props)[key := BoolToString(value)]
    {
      props := props[key := BoolToString(value)];
    }
  }

  /** The loop of getCSIntList(name): a new array holding each piece parsed. */
  method ParseInts(s: seq<string>) returns (r: Result<array<int>>)
    ensures r.Err? <==> ParseAll(s).Err?
    ensures r.Err? ==> r.error == TypedProperty
    ensures r.Ok? ==> r.value[..] == ParseAll(s).value
  {
    var a := new int[|s|];
    var k := 0;
    while k < |s|
      invariant 0 <= k <= |s|
      invariant ParseAll(s[..k]).Ok? && a[..k] == ParseAll(s[..k]).value
    {
      assert s[..k + 1][..k] == s[..k];
      var v := ParseInt(s[k]);
      if v.Err? {
        ParseAllPrefixFails(s, k + 1);
        return Err(TypedProperty);
      }
      a[k] := v.value;
      k := k + 1;
      assert a[..k] == a[..k - 1] + [a[k - 1]];
    }
    assert s[..k] == s;
    return Ok(a);
  }

  /** The loop of getCSIntList(name, n, def): a new array of n entries. */
  method FillInts(s: seq<string>, n: nat, def: int) returns (r: Result<array<int>>)
    ensures r.Err? <==> FillTo(s, n, def).Err?
    ensures r.Err? ==> r.error == TypedProperty
    ensures r.Ok? ==> r.value[..] == FillTo(s, n, def).value
  {
    var a := new int[n];
    var k := 0;
    while k < n
      invariant 0 <= k <= n
      invariant FillTo(s, k, def).Ok? && a[..k] == FillTo(s, k, def).value
    {
      var e := EntryOrDefault(s, k, def);
      FillToStep(s, k, def);
      if e.Err? {
        FillToFails(s, k + 1, n, def);
        return Err(TypedProperty);
      }
      a[k] := e.value;
      k := k + 1;
      assert a[..k] == a[..k - 1] + [a[k - 1]];
    }
    return Ok(a);
  }

  lemma FillToStep(pieces: seq<string>, k: nat, def: int)
    requires FillTo(pieces, k, def).Ok?
    ensures var e := EntryOrDefault(pieces, k, def);
      FillTo(pieces, k + 1, def) == if e.Err? then Err(e.error) else Ok(FillTo(pieces, k, def).value + [e.value])
  {
  }

  /** Once a position fails, every longer fill fails. */
  lemma {:induction false} FillToFails(pieces: seq<string>, m: nat, n: nat, def: int)
    requires m <= n && FillTo(pieces, m, def).Err?
    ensures FillTo(pieces, n, def).Err?
    decreases n - m
  {
    if m < n {
      FillToFails(pieces, m + 1, n, def);
    }
  }

  /** Once a prefix fails, the whole list fails. */
  lemma {:induction false} ParseAllPrefixFails(pieces: seq<string>, m: nat)
    requires 0 < m <= |pieces| && ParseAll(pieces[..m]).Err?
    ensures ParseAll(pieces).Err?
    decreases |pieces| - m
  {
    if m < |pieces| {
      assert pieces[..m + 1][..m] == pieces[..m];
      ParseAllPrefixFails(pieces, m + 1);
    } else {
      assert pieces[..m] == pieces;
    }
  }

  /**
   * getCSIntList(name) yields a list exactly when every piece is an int,
   * and then position k holds the k-th piece parsed.
   */
  lemma {:induction false} ParseAllEntries(pieces: seq<string>)
    ensures ParseAll(pieces).Ok? <==> forall k :: 0 <= k < |pieces| ==> AsTyped(ParseInt(pieces[k])).Ok?
    ensures ParseAll(pieces).Ok? ==> forall k :: 0 <= k < |pieces| ==> ParseInt(pieces[k]) == Ok(ParseAll(pieces).value[k])
  {
    if pieces != [] {
      var init := pieces[..|pieces| - 1];
      ParseAllEntries(init);
      assert forall k :: 0 <= k < |init| ==> init[k] == pieces[k];
      var prev := ParseAll(init);
      var e := AsTyped(ParseInt(pieces[|pieces| - 1]));
      if prev.Ok? && e.Ok? {
        assert ParseAll(pieces).value == prev.value + [e.value];
      }
    }
  }

  /**
   * getCSIntList(name, n, def) yields n ints exactly when every position does:
   * position k holds the parsed k-th piece, or def when that piece is missing or empty.
   */
  lemma {:induction false} FillToEntries(pieces: seq<string>, n: nat, def: int)
    ensures FillTo(pieces, n, def).Ok? <==> forall k :: 0 <= k < n ==> EntryOrDefault(pieces, k, def).Ok?
    ensures FillTo(pieces, n, def).Ok? ==> forall k :: 0 <= k < n ==>
      var x := FillTo(pieces, n, def).value[k];
      if k < |pieces| && pieces[k] != "" then ParseInt(pieces[k]) == Ok(x) else x == def
  {
    if n > 0 {
      FillToEntries(pieces, n - 1, def);
      var prev := FillTo(pieces, n - 1, def);
      var e := EntryOrDefault(pieces, n - 1, def);
      if prev.Ok? && e.Ok? {
        assert FillTo(pieces, n, def).value == prev.value + [e.value];
      }
    }
  }

  /** putInt then getInt, with or without a default, reads the value back. */
  lemma IntRoundTrip(t: TypedProperties, key: string, v: int32, def: int)
    requires key in t.props && t.props[key] == IntToString(v)
    ensures t.GetInt(key) == Ok(v as int)
    ensures t.GetIntOr(key, def) == Ok(v as int)
  {
    TrimOfIntToString(v);
    ParseIntOfIntToString(v);
    NatToStringDigits(Abs(v));
  }

  /** putLong then getLong, with or without a default, reads the value back. */
  lemma LongRoundTrip(t: TypedProperties, key: string, v: int, def: int)
    requires LONG_MIN <= v <= LONG_MAX
    requires key in t.props && t.props[key] == IntToString(v)
    ensures t.GetLong(key) == Ok(v)
    ensures t.GetLongOr(key, def) == Ok(v)
  {
    TrimOfIntToString(v);
    ParseIntegerOfIntToString(v, LONG_MIN, LONG_MAX);
    NatToStringDigits(Abs(v));
  }

  /** putBoolean then getBoolean, with or without a default, reads the value back. */
  lemma BooleanRoundTrip(t: TypedProperties, key: string, b: bool, def: bool)
    requires key in t.props && t.props[key] == BoolToString(b)
    ensures t.GetBoolean(key) == Ok(b)
    ensures t.GetBooleanOr(key, def) == Ok(b)
  {
    TrimIdentity(BoolToString(b));
    assert ToLower(BoolToString(b)) == BoolToString(b);
  }

  /** An empty value is true for getBoolean(name) but the default for getBoolean(name, def). */
  lemma EmptyBoolean(t: TypedProperties, key: string, def: bool)
    requires key in t.props && t.props[key] == ""
    ensures t.GetBoolean(key) == Ok(true)
    ensures t.GetBooleanOr(key, def) == Ok(def)
  {
    assert Trim("") == "";
  }

  /** getInt(name) trims the value but getInt(name, def) does not. */
  lemma DefaultedIntIsNotTrimmed(t: TypedProperties, key: string, v: int32, def: int)
    requires key in t.props && t.props[key] == " " + IntToString(v)
    ensures t.GetInt(key) == Ok(v as int)
    ensures t.GetIntOr(key, def) == Err(TypedProperty)
  {
    var x := IntToString(v);
    assert (" " + x)[1..] == x;
    NatToStringDigits(Abs(v));
    assert TrimStart(x) == x;
    assert Trim(" " + x) == Trim(x);
    TrimOfIntToString(v);
    ParseIntOfIntToString(v);
    assert DigitValue((" " + x)[0], 10) < 0;
  }
}
