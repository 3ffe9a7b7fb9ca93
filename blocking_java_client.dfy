/**
 * The configuration side of the AMQP blocking client: the auto-confirm
 * modes and how they are named, the validation of the transfer parameters
 * read from the properties, and the connection-lost test on the client state.
 */
module AmqpClient {
  import opened JavaLang

  // ---------------------------------------------------------------------------
  // AUTO_CONFIRM

  datatype AutoConfirm = NONE | AUTO | MANUAL | CONFIRM_AFTER_SENT {
    /** The name a setting is compared with, once lower-cased and stripped of '-' and '_'. */
    function Match(): string {
      match this
      case NONE => "none"
      case AUTO => "auto"
      case MANUAL => "manual"
      case CONFIRM_AFTER_SENT => "confirmaftersent"
    }

    /** The name the options list shows. */
    function Preferred(): string {
      match this
      case NONE => "none"
      case AUTO => "auto"
      case MANUAL => "manual"
      case CONFIRM_AFTER_SENT => "confirm-after-sent"
    }

    /** doesRequireConfirmation */
    predicate RequiresConfirmation()
      ensures RequiresConfirmation() <==> this !in {NONE, AUTO}
    {
      this == MANUAL || this == CONFIRM_AFTER_SENT
    }
  }

  /** AUTO_CONFIRM.values(), in declaration order. */
  const VALUES: seq<AutoConfirm> := [NONE, AUTO, MANUAL, CONFIRM_AFTER_SENT]

  /** The preferred names of the modes, in order. */
  function PreferredNames(modes: seq<AutoConfirm>): (r: seq<string>)
    ensures |r| == |modes|
    ensures forall i :: 0 <= i < |modes| ==> r[i] == modes[i].Preferred()
  {
    seq(|modes|, i requires 0 <= i < |modes| => modes[i].Preferred())
  }

  /** options(): the preferred names joined by commas. */
  method Options() returns (s: string)
    ensures s == Join(PreferredNames(VALUES), ",")
    ensures s == "none,auto,manual,confirm-after-sent"
  {
    var sb := "";
    var separator := "";
    var k := 0;
    while k < |VALUES|
      invariant 0 <= k <= |VALUES|
      invariant sb == Join(PreferredNames(VALUES[..k]), ",")
      invariant separator == if k == 0 then "" else ","
    {
      assert PreferredNames(VALUES[..k + 1]) == PreferredNames(VALUES[..k]) + [VALUES[k].Preferred()];
      if k > 0 {
        JoinSnoc(PreferredNames(VALUES[..k]), VALUES[k].Preferred(), ",");
      }
      sb := sb + separator;
      separator := ",";
      sb := sb + VALUES[k].Preferred();
      k := k + 1;
    }
    assert VALUES[..k] == VALUES;
    OptionsText();
    return sb;
  }

  /** The options text written out. */
  lemma OptionsText()
    ensures Join(PreferredNames(VALUES), ",") == "none,auto,manual,confirm-after-sent"
  {
    var names := PreferredNames(VALUES);
    assert names == ["none", "auto", "manual", "confirm-after-sent"];
    assert names[1..] == ["auto", "manual", "confirm-after-sent"];
    assert names[1..][1..] == ["manual", "confirm-after-sent"];
    assert names[1..][1..][1..] == ["confirm-after-sent"];
    assert Join(names[1..][1..][1..], ",") == "confirm-after-sent";
    assert Join(names[1..][1..], ",") == "manual" + "," + "confirm-after-sent";
    assert Join(names[1..], ",") == "auto" + "," + ("manual" + "," + "confirm-after-sent");
    assert Join(names, ",") == "none" + "," + ("auto" + "," + ("manual" + "," + "confirm-after-sent"));
    OptionsPieces();
  }

  lemma OptionsPieces()
    ensures "none,auto,manual,confirm-after-sent" == "none" + "," + ("auto" + "," + ("manual" + "," + "confirm-after-sent"))
  {
  }

  /** text.replaceAll("-|_", ""): every '-' and '_' removed. */
  function DropSeparators(s: string): (r: string)
    ensures '-' !in r && '_' !in r
    ensures |r| <= |s|
  {
    if s == [] then ""
    else (if s[0] == '-' || s[0] == '_' then "" else [s[0]]) + DropSeparators(s[1..])
  }

  /** The search value getValue compares: lower case, without '-' and '_'. */
  function SearchValue(text: string): (r: string)
    ensures '-' !in r && '_' !in r && |r| <= |text|
  {
    DropSeparators(ToLower(text))
  }

  /** The first of the modes whose Match is `search`. */
  function FirstMatch(modes: seq<AutoConfirm>, search: string): (r: Option<AutoConfirm>)
    ensures r.Some? ==> r.value in modes && r.value.Match() == search
    ensures r.None? <==> forall i :: 0 <= i < |modes| ==> modes[i].Match() != search
  {
    if modes == [] then None
    else if modes[0].Match() == search then Some(modes[0])
    else FirstMatch(modes[1..], search)
  }

  /** AUTO_CONFIRM.getValue(text), loop for loop. */
  method GetValue(text: string) returns (r: Option<AutoConfirm>)
    ensures r == FirstMatch(VALUES, SearchValue(text))
  {
    var search := SearchValue(text);
    var k := 0;
    while k < |VALUES|
      invariant 0 <= k <= |VALUES|
      invariant FirstMatch(VALUES[k..], search) == FirstMatch(VALUES, search)
    {
      if VALUES[k].Match() == search {
        return Some(VALUES[k]);
      }
      assert VALUES[k..][1..] == VALUES[k + 1..];
      k := k + 1;
    }
    return None;
  }

  /** No two modes share a match name, so a found mode is the one named. */
  lemma MatchesDistinct(a: AutoConfirm, b: AutoConfirm)
    requires a.Match() == b.Match()
    ensures a == b
  {
    assert a.Match()[0] == b.Match()[0];
    if a.Match()[0] == 'm' || a.Match()[0] == 'c' {
      assert a.Match()[0] == 'm' ==> a == MANUAL;
    } else {
      assert |a.Match()| == 4 && a.Match()[0] == b.Match()[0];
    }
  }

  /** Each mode is found under its own name, and under its preferred name. */
  lemma NamesFound(a: AutoConfirm)
    ensures FirstMatch(VALUES, a.Match()) == Some(a)
    ensures FirstMatch(VALUES, SearchValue(a.Preferred())) == Some(a)
  {
    var found := FirstMatch(VALUES, a.Match());
    assert a == VALUES[0] || a == VALUES[1] || a == VALUES[2] || a == VALUES[3];
    MatchesDistinct(found.value, a);
    PreferredSearchValue(a);
  }

  lemma PreferredSearchValue(a: AutoConfirm)
    ensures SearchValue(a.Preferred()) == a.Match()
  {
    match a
    case NONE => PlainSearchValue("none");
    case AUTO => PlainSearchValue("auto");
    case MANUAL => PlainSearchValue("manual");
    case CONFIRM_AFTER_SENT => ConfirmAfterSent();
  }

  lemma ConfirmAfterSent()
    ensures SearchValue("confirm-after-sent") == "confirmaftersent"
  {
    assert "confirm-after-sent" == "confirm" + ("-" + ("after" + ("-" + "sent")));
    assert "confirmaftersent" == "confirm" + ("after" + "sent");
    SearchValueAppend("confirm", "-" + ("after" + ("-" + "sent")));
    DashDropped("after" + ("-" + "sent"));
    SearchValueAppend("after", "-" + "sent");
    DashDropped("sent");
    PlainWords();
  }

  lemma PlainWords()
    ensures SearchValue("confirm") == "confirm"
    ensures SearchValue("after") == "after"
    ensures SearchValue("sent") == "sent"
  {
    PlainWord("confirm");
    PlainWord("after");
    PlainWord("sent");
  }

  lemma PlainWord(s: string)
    requires s == "confirm" || s == "after" || s == "sent"
    ensures SearchValue(s) == s
  {
    PlainSearchValue(s);
  }

  lemma DashDropped(s: string)
    ensures SearchValue("-" + s) == SearchValue(s)
  {
    SearchValueAppend("-", s);
    assert SearchValue("-") == "";
  }

  /** Text with no upper-case letter and no separator is its own search value. */
  lemma PlainSearchValue(s: string)
    requires forall i :: 0 <= i < |s| ==> 'a' <= s[i] <= 'z'
    ensures SearchValue(s) == s
  {
    assert ToLower(s) == s;
    KeptWhole(s);
  }

  lemma {:induction false} KeptWhole(s: string)
    requires '-' !in s && '_' !in s
    ensures DropSeparators(s) == s
  {
    if s != [] {
      assert s[0] in s;
      assert forall c :: c in s[1..] ==> c in s;
      KeptWhole(s[1..]);
    }
  }

  lemma {:induction false} DropSeparatorsAppend(s: string, t: string)
    ensures DropSeparators(s + t) == DropSeparators(s) + DropSeparators(t)
    decreases |s|
  {
    if s == [] {
      assert s + t == t;
    } else {
      var head := if s[0] == '-' || s[0] == '_' then "" else [s[0]];
      assert (s + t)[0] == s[0];
      assert (s + t)[1..] == s[1..] + t;
      assert DropSeparators(s + t) == head + DropSeparators(s[1..] + t);
      DropSeparatorsAppend(s[1..], t);
      assert DropSeparators(s) == head + DropSeparators(s[1..]);
      assert head + (DropSeparators(s[1..]) + DropSeparators(t)) == (head + DropSeparators(s[1..])) + DropSeparators(t);
    }
  }

  lemma ToLowerAppend(s: string, t: string)
    ensures ToLower(s + t) == ToLower(s) + ToLower(t)
  {
    var whole, parts := ToLower(s + t), ToLower(s) + ToLower(t);
    assert |whole| == |parts|;
    forall i | 0 <= i < |whole|
      ensures whole[i] == parts[i]
    {
      if i < |s| {
        assert (s + t)[i] == s[i] && parts[i] == ToLower(s)[i];
      } else {
        assert (s + t)[i] == t[i - |s|] && parts[i] == ToLower(t)[i - |s|];
      }
    }
    assert whole == parts;
  }

  /** The search value of two pieces of text is made piece by piece. */
  lemma SearchValueAppend(s: string, t: string)
    ensures SearchValue(s + t) == SearchValue(s) + SearchValue(t)
  {
    ToLowerAppend(s, t);
    DropSeparatorsAppend(ToLower(s), ToLower(t));
  }

  /** getValue ignores a '-' or '_' anywhere in the text. */
  lemma SeparatorIgnored(text: string, k: nat, c: char)
    requires k <= |text| && (c == '-' || c == '_')
    ensures SearchValue(text[..k] + [c] + text[k..]) == SearchValue(text)
  {
    var front, back := text[..k], text[k..];
    assert text == front + back;
    SearchValueAppend(front + [c], back);
    SearchValueAppend(front, [c]);
    SeparatorDropped(c);
    SearchValueAppend(front, back);
  }

  lemma SeparatorDropped(c: char)
    requires c == '-' || c == '_'
    ensures SearchValue([c]) == ""
  {
    assert ToLower([c]) == [c];
  }

  /** getValue ignores the case of the text. */
  lemma CaseIgnored(text: string)
    ensures SearchValue(ToLower(text)) == SearchValue(text)
  {
    assert ToLower(ToLower(text)) == ToLower(text);
  }

  // ---------------------------------------------------------------------------
  // TransferParameters

  datatype Qos = AT_MOST_ONCE | AT_LEAST_ONCE

  /** Config.parms.getString(name, null): the trimmed value, or null when the name is unset. */
  function PropertyOrNull(props: map<string, string>, name: string): (r: Option<string>)
    ensures r.Some? <==> name in props
  {
    if name in props then Some(Trim(props[name])) else None
  }

  /**
   * readAutoConfirm: no text means no mode, an unknown name is a
   * TypedPropertyException, and "none" also means no mode.
   */
  function ReadAutoConfirm(text: Option<string>): (r: Result<Option<AutoConfirm>>)
    ensures text == None || text == Some("") ==> r == Ok(None)
    ensures r.Err? <==> text.Some? && text.value != "" && FirstMatch(VALUES, SearchValue(text.value)).None?
    ensures r.Err? ==> r.error == TypedProperty
    ensures r.Ok? && r.value.Some? ==>
      (r.value.value != NONE && text.Some? && r.value.value.Match() == SearchValue(text.value))
  {
    if text.None? || text.value == "" then Ok(None)
    else match FirstMatch(VALUES, SearchValue(text.value))
      case None => Err(TypedProperty)
      case Some(a) => if a == NONE then Ok(None) else Ok(Some(a))
  }

  /**
   * getInteger(name, min, max): no value (or an empty one) gives null; text
   * that is no int, or an int outside [min, max], is a TypedPropertyException.
   */
  function GetInteger(text: Option<string>, min: Option<int>, max: Option<int>): (r: Result<Option<int32>>)
    ensures text == None || text == Some("") ==> r == Ok(None)
    ensures r.Err? ==> r.error == TypedProperty
    ensures r.Ok? && r.value.Some? ==>
      text.Some? && ParseInt(text.value) == Ok(r.value.value as int) &&
      (min.Some? ==> min.value <= r.value.value as int) && (max.Some? ==> r.value.value as int <= max.value)
    ensures text.Some? && text.value != "" && ParseInt(text.value).Err? ==> r.Err?
  {
    if text.None? || text.value == "" then Ok(None)
    else match ParseInt(text.value)
      case Err(_) => Err(TypedProperty)
      case Ok(v) =>
        if min.Some? && v < min.value then Err(TypedProperty)
        else if max.Some? && v > max.value then Err(TypedProperty)
        else Ok(Some(v as int32))
  }

  /** An int written out in decimal is read back, and refused exactly when outside the bounds. */
  lemma GetIntegerOfInt(v: int32, min: Option<int>, max: Option<int>)
    ensures GetInteger(Some(IntToString(v as int)), min, max) ==
      if (min.Some? && v as int < min.value) || (max.Some? && v as int > max.value) then Err(TypedProperty)
      else Ok(Some(v))
  {
    ParseIntOfIntToString(v);
  }

  datatype TransferParameters = TransferParameters(
    shareName: Option<string>,
    qos: Option<Qos>,
    linkCredit: Option<int32>,
    ttl: Option<int32>,
    autoConfirm: Option<AutoConfirm>)

  /**
   * The TransferParameters constructor over the properties: "gr", "lc",
   * "ttl", "ac" (which must be set) and "qs" in [0, 1], in that order, then
   * the rule that a confirming mode needs QOS AT_LEAST_ONCE.
   */
  function ReadTransferParameters(props: map<string, string>): (r: Result<TransferParameters>)
    ensures r.Err? ==> r.error == TypedProperty
    ensures r.Ok? && r.value.autoConfirm.Some? && r.value.autoConfirm.value.RequiresConfirmation() ==>
      r.value.qos == Some(AT_LEAST_ONCE)
    ensures r.Ok? ==> r.value.shareName == PropertyOrNull(props, "gr")
    ensures "ac" !in props ==> r.Err?
  {
    var shareName := PropertyOrNull(props, "gr");
    var linkCredit :- GetInteger(PropertyOrNull(props, "lc"), None, None);
    var ttl :- GetInteger(PropertyOrNull(props, "ttl"), None, None);
    var acText :- if "ac" in props then Ok(Trim(props["ac"])) else Err(TypedProperty);
    var autoConfirm :- ReadAutoConfirm(Some(acText));
    var numericalQos :- GetInteger(PropertyOrNull(props, "qs"), Some(0), Some(1));
    var qos := if numericalQos.None? then None else if numericalQos.value == 0 then Some(AT_MOST_ONCE) else Some(AT_LEAST_ONCE);
    if autoConfirm.Some? && autoConfirm.value.RequiresConfirmation() && (qos.None? || qos == Some(AT_MOST_ONCE)) then
      Err(TypedProperty)
    else
      Ok(TransferParameters(shareName, qos, linkCredit, ttl, autoConfirm))
  }

  /** Manual confirmation with QOS 0 is refused. */
  lemma ManualAtMostOnceRefused()
    ensures ReadTransferParameters(map["ac" := "manual", "qs" := "0"]) == Err(TypedProperty)
  {
    var m := map["ac" := "manual", "qs" := "0"];
    TrimIdentity("manual");
    TrimIdentity("0");
    assert PropertyOrNull(m, "gr") == None && PropertyOrNull(m, "lc") == None && PropertyOrNull(m, "ttl") == None;
    assert PropertyOrNull(m, "qs") == Some("0");
    ReadsManual();
    ReadsQos();
  }

  /** Manual confirmation with QOS 1 is accepted, and nothing else is set. */
  lemma ManualAtLeastOnceAccepted(m: map<string, string>)
    requires m == map["ac" := "manual", "qs" := "1"]
    ensures ReadTransferParameters(m) ==
      Ok(TransferParameters(None, Some(AT_LEAST_ONCE), None, None, Some(MANUAL)))
  {
    ManualAtLeastOnceUnset(m);
    ManualAtLeastOnceMode(m);
    ManualAtLeastOnceQos(m);
    AtLeastOnceAccepted(m, MANUAL);
  }

  lemma ManualAtLeastOnceUnset(m: map<string, string>)
    requires m == map["ac" := "manual", "qs" := "1"]
    ensures "gr" !in m && "lc" !in m && "ttl" !in m
  {
  }

  lemma ManualAtLeastOnceMode(m: map<string, string>)
    requires m == map["ac" := "manual", "qs" := "1"]
    ensures "ac" in m && ReadAutoConfirm(Some(Trim(m["ac"]))) == Ok(Some(MANUAL))
  {
    var ac := m["ac"];
    TrimIdentity(ac);
    ReadsManualText(ac);
  }

  lemma ManualAtLeastOnceQos(m: map<string, string>)
    requires m == map["ac" := "manual", "qs" := "1"]
    ensures "qs" in m && GetInteger(Some(Trim(m["qs"])), Some(0), Some(1)) == Ok(Some(1))
  {
    var qs := m["qs"];
    TrimIdentity(qs);
    ReadsQosOne(qs);
  }

  /** With only a mode and QOS 1 set, the parameters are that mode and AT_LEAST_ONCE. */
  lemma AtLeastOnceAccepted(m: map<string, string>, mode: AutoConfirm)
    requires "gr" !in m && "lc" !in m && "ttl" !in m
    requires "ac" in m && ReadAutoConfirm(Some(Trim(m["ac"]))) == Ok(Some(mode))
    requires "qs" in m && GetInteger(Some(Trim(m["qs"])), Some(0), Some(1)) == Ok(Some(1))
    ensures ReadTransferParameters(m) == Ok(TransferParameters(None, Some(AT_LEAST_ONCE), None, None, Some(mode)))
  {
  }

  lemma ReadsManual()
    ensures ReadAutoConfirm(Some("manual")) == Ok(Some(MANUAL))
  {
    NamesFound(MANUAL);
  }

  lemma ReadsManualText(text: string)
    requires text == "manual"
    ensures ReadAutoConfirm(Some(text)) == Ok(Some(MANUAL))
  {
    ReadsManual();
  }

  lemma ReadsQosOne(text: string)
    requires text == "1"
    ensures GetInteger(Some(text), Some(0), Some(1)) == Ok(Some(1))
  {
    ParseIntOfIntToString(1);
    assert IntToString(1) == "1";
  }

  lemma ReadsQos()
    ensures GetInteger(Some("0"), Some(0), Some(1)) == Ok(Some(0))
    ensures GetInteger(Some("1"), Some(0), Some(1)) == Ok(Some(1))
  {
    ParseIntOfIntToString(0);
    ParseIntOfIntToString(1);
    assert IntToString(0) == "0" && IntToString(1) == "1";
  }

  // ---------------------------------------------------------------------------
  // connectionLost

  /** The states of the messaging client. */
  datatype ClientState = STARTING | STARTED | STOPPING | STOPPED | RETRYING

  /** connectionLost as written: the state must equal three different states at once. */
  predicate ConnectionLostAsWritten(state: ClientState)
    ensures ConnectionLostAsWritten(state) ==> ConnectionLost(state)
  {
    state == RETRYING && state == STOPPED && state == STOPPING
  }

  /** As written the test never reports a lost connection, whatever the state. */
  lemma ConnectionNeverLost(state: ClientState)
    ensures !ConnectionLostAsWritten(state)
  {
    if state == RETRYING {
      assert state != STOPPED;
    }
  }

  /** connectionLost as evidently intended: the client is retrying or stopping or stopped. */
  predicate ConnectionLost(state: ClientState)
    ensures ConnectionLost(state) ==> state != STARTED
  {
    state == RETRYING || state == STOPPED || state == STOPPING
  }

  /** The intended test is true exactly in the three states that end or suspend the connection. */
  lemma ConnectionLostStates(state: ClientState)
    ensures ConnectionLost(state) <==> state !in {STARTING, STARTED}
    ensures ConnectionLost(RETRYING) && !ConnectionLostAsWritten(RETRYING)
  {
  }
}
