/**
 * Commands embedded in a test payload, framed as
 * `$EC$command=argument[,command=argument]$EC$` at the start of the message.
 */
module Embedded {
  import opened JavaLang

  const EYE_CATCHER: string := "$EC$"
  /** EYE_CATCHER.getBytes(). */
  const EYE_BYTES: seq<byte> := [36, 69, 67, 36]
  /** The closing eye-catcher must start before this offset. */
  const MAX_SEARCH: nat := 200

  predicate Ascii(s: string) {
    forall i :: 0 <= i < |s| ==> s[i] as int < 128
  }

  /** String.getBytes() of an ASCII string: one byte per character. */
  function Encode(s: string): (b: seq<byte>)
    requires Ascii(s)
    ensures |b| == |s|
  {
    seq(|s|, i requires 0 <= i < |s| => s[i] as int as byte)
  }

  /** new String(bytes): one character per byte. */
  function Decode(b: seq<byte>): (s: string)
    ensures |s| == |b|
  {
    seq(|b|, i requires 0 <= i < |b| => b[i] as char)
  }

  // ---------------------------------------------------------------------------
  // Finding the frame

  /**
   * isEyeCatcher(buffer, offset): the four bytes compared in order. The first
   * mismatch answers false; running off the end of the buffer before one throws.
   */
  function EyeCatcherAt(buffer: seq<byte>, offset: nat): (r: Result<bool>)
    ensures r == Ok(true) <==> offset + 4 <= |buffer| && buffer[offset..offset + 4] == EYE_BYTES
    ensures r.Err? ==> |buffer| < offset + 4
  {
    if offset + 4 <= |buffer| then Ok(buffer[offset..offset + 4] == EYE_BYTES)
    else if offset >= |buffer| || buffer[offset..] == EYE_BYTES[..|buffer| - offset] then Err(IndexOutOfBounds)
    else Ok(false)
  }

  /** The for-loop over endOffset in createEmbeddedAction, from `e` up to `limit`. */
  function SearchFrom(buffer: seq<byte>, e: nat, limit: nat): (r: Result<Option<nat>>)
    ensures r.Ok? && r.value.Some? ==>
      e <= r.value.value < limit && EyeCatcherAt(buffer, r.value.value) == Ok(true)
    decreases limit - e
  {
    if e >= limit then Ok(None)
    else match EyeCatcherAt(buffer, e)
      case Err(x) => Err(x)
      case Ok(found) => if found then Ok(Some(e)) else SearchFrom(buffer, e + 1, limit)
  }

  /**
   * createEmbeddedAction(byte[]) up to the parse: the text between an opening
   * eye-catcher at offset 0 and the first closing one starting before
   * min(MAX_SEARCH, length); None when either is missing.
   */
  function ActionText(buffer: seq<byte>): (r: Result<Option<string>>)
    ensures r.Ok? && r.value.Some? ==> EyeCatcherAt(buffer, 0) == Ok(true)
    ensures r.Ok? && r.value.Some? ==>
      exists e :: 4 <= e < Min(MAX_SEARCH, |buffer|) && EyeCatcherAt(buffer, e) == Ok(true) && r.value.value == Decode(buffer[4..e])
  {
    match EyeCatcherAt(buffer, 0)
      case Err(x) => Err(x)
      case Ok(atStart) =>
        if !atStart then Ok(None)
        else match SearchFrom(buffer, 4, Min(MAX_SEARCH, |buffer|))
          case Err(x) => Err(x)
          case Ok(end) => if end.None? then Ok(None) else Ok(Some(Decode(buffer[4..end.value])))
  }

  // ---------------------------------------------------------------------------
  // Parsing and generating the command list

  /** One item `key=value`: recorded only when it splits on '=' into exactly two pieces. */
  function PutItem(commands: map<string, string>, item: string): (r: map<string, string>)
    ensures commands.Keys <= r.Keys
    ensures forall k :: k in r && (k !in commands || r[k] != commands[k]) ==> JavaSplit(item, '=') == [k, r[k]]
  {
    var elements := JavaSplit(item, '=');
    if |elements| == 2 then commands[elements[0] := elements[1]] else commands
  }

  /** Each item in turn; every entry added or changed comes from an item `key=value`. */
  function PutItems(commands: map<string, string>, items: seq<string>): (r: map<string, string>)
    ensures forall k :: k in r && (k !in commands || r[k] != commands[k]) ==>
      exists i :: 0 <= i < |items| && JavaSplit(items[i], '=') == [k, r[k]]
  {
    if items == [] then commands else PutItem(PutItems(commands, items[..|items| - 1]), items[|items| - 1])
  }

  /** The private EmbeddedAction(rawText) constructor: the items split on ',', put in order. */
  function ParseCommands(rawText: string): (r: map<string, string>)
    ensures forall k :: k in r ==> exists i :: 0 <= i < |JavaSplit(rawText, ',')| && JavaSplit(JavaSplit(rawText, ',')[i], '=') == [k, r[k]]
  {
    PutItems(map[], JavaSplit(rawText, ','))
  }

  /** `order` lists every key of `commands` once: the HashMap's iteration order. */
  ghost predicate Enumerates(order: seq<string>, commands: map<string, string>) {
    (forall i, j :: 0 <= i < j < |order| ==> order[i] != order[j]) &&
    (forall k :: k in commands <==> k in order)
  }

  /** The `key=value` texts of the keys in `order`. */
  function Pairs(commands: map<string, string>, order: seq<string>): (r: seq<string>)
    requires forall k :: k in order ==> k in commands
    ensures |r| == |order|
  {
    if order == [] then []
    else
      var k := order[|order| - 1];
      Pairs(commands, order[..|order| - 1]) + [k + "=" + commands[k]]
  }

  /** generateMessage: the pairs joined by ',' between two eye-catchers. */
  function Message(commands: map<string, string>, order: seq<string>): (r: string)
    requires Enumerates(order, commands)
    ensures StartsWith(r, EYE_CATCHER) && EndsWith(r, EYE_CATCHER)
  {
    EYE_CATCHER + Join(Pairs(commands, order), ",") + EYE_CATCHER
  }

  class EmbeddedAction {
    var commands: map<string, string>

    constructor()
      ensures commands == map[]
    {
      commands := map[];
    }

    /** EmbeddedAction(rawText): each item of the comma list that is one `key=value`. */
    constructor FromText(rawText: string)
      ensures commands == ParseCommands(rawText)
    {
      var items := JavaSplit(rawText, ',');
      var parsed: map<string, string> := map[];
      var i := 0;
      while i < |items|
        invariant 0 <= i <= |items|
        invariant parsed == PutItems(map[], items[..i])
      {
        assert items[..i + 1][..i] == items[..i];
        assert PutItems(map[], items[..i + 1]) == PutItem(parsed, items[i]);
        var elements := JavaSplit(items[i], '=');
        if |elements| == 2 {
          parsed := parsed[elements[0] := elements[1]];
        }
        i := i + 1;
      }
      assert items[..i] == items;
      commands := parsed;
    }

    method PutCommand(command: string, argument: string)
      modifies this
      ensures commands == old(commands)[command := argument]
    {
      commands := commands[command := argument];
    }

    /** getCommand(command): the argument, or None (null) for an unknown command. */
    function GetCommand(command: string): (r: Option<string>)
      reads this
      ensures r.Some? <==> command in commands
      ensures r.Some? ==> r.value == commands[command]
    {
      if command in commands then Some(commands[command]) else None
    }

    /** getCommand(command, defaultValue). */
    function GetCommandOr(command: string, defaultValue: string): (r: string)
      reads this
      ensures command in commands ==> r == commands[command]
      ensures command !in commands ==> r == defaultValue
    {
      if command in commands then commands[command] else defaultValue
    }

    /** generateMessage, visiting the entries in `order`. */
    method GenerateMessage(order: seq<string>) returns (s: string)
      requires Enumerates(order, commands)
      ensures s == Message(commands, order)
    {
      var sb := EYE_CATCHER;
      var separator := "";
      var i := 0;
      while i < |order|
        invariant 0 <= i <= |order|
        invariant separator == if i == 0 then "" else ","
        invariant sb == EYE_CATCHER + Join(Pairs(commands, order[..i]), ",")
      {
        PairsStep(commands, order, i, EYE_CATCHER, separator);
        sb := sb + separator;
        separator := ",";
        sb := sb + order[i] + "=" + commands[order[i]];
        i := i + 1;
      }
      assert order[..i] == order;
      sb := sb + EYE_CATCHER;
      s := sb;
    }
  }

  /** One more entry appends the separator, "" before the first, and its pair to the joined text. */
  lemma PairsStep(commands: map<string, string>, order: seq<string>, i: nat, head: string, separator: string)
    requires forall k :: k in order ==> k in commands
    requires i < |order| && separator == if i == 0 then "" else ","
    ensures head + Join(Pairs(commands, order[..i + 1]), ",") ==
      head + Join(Pairs(commands, order[..i]), ",") + separator + order[i] + "=" + commands[order[i]]
  {
    var pair := order[i] + "=" + commands[order[i]];
    var before := Pairs(commands, order[..i]);
    assert order[..i + 1][..i] == order[..i];
    assert Pairs(commands, order[..i + 1]) == before + [pair];
    if i > 0 {
      JoinSnoc(before, pair, ",");
    }
    assert head + Join(before, ",") + separator + order[i] + "=" + commands[order[i]] ==
      head + (Join(before, ",") + separator + pair);
  }

  /** isEyeCatcher, byte by byte. */
  method IsEyeCatcher(buffer: array<byte>, offset: nat) returns (r: Result<bool>)
    ensures r == EyeCatcherAt(buffer[..], offset)
  {
    var os := offset;
    var k := 0;
    while k < 4
      invariant 0 <= k <= 4 && os == offset + k
      invariant k > 0 ==> os <= buffer.Length && buffer[offset..os] == EYE_BYTES[..k]
    {
      if os >= buffer.Length {
        assert k > 0 ==> buffer[offset..] == buffer[offset..os];
        return Err(IndexOutOfBounds);
      }
      if buffer[os] != EYE_BYTES[k] {
        assert buffer[..][offset..][k] == buffer[os];
        return Ok(false);
      }
      assert buffer[offset..os + 1] == buffer[offset..os] + [buffer[os]];
      os := os + 1;
      k := k + 1;
    }
    return Ok(true);
  }

  /** createEmbeddedAction(byte[]): the parsed action, None (null), or the exception. */
  method CreateEmbeddedAction(buffer: array<byte>) returns (r: Result<Option<EmbeddedAction>>)
    ensures ActionText(buffer[..]).Err? ==> r == Err(ActionText(buffer[..]).error)
    ensures ActionText(buffer[..]) == Ok(None) ==> r == Ok(None)
    ensures ActionText(buffer[..]).Ok? && ActionText(buffer[..]).value.Some? ==>
      r.Ok? && r.value.Some? && fresh(r.value.value) &&
      r.value.value.commands == ParseCommands(ActionText(buffer[..]).value.value)
  {
    var start := IsEyeCatcher(buffer, 0);
    if start.Err? {
      return Err(start.error);
    }
    if start.value {
      var maxSearch := Min(MAX_SEARCH, buffer.Length);
      var endOffset := 4;
      while endOffset < maxSearch
        invariant 4 <= endOffset
        invariant SearchFrom(buffer[..], 4, maxSearch) == SearchFrom(buffer[..], endOffset, maxSearch)
      {
        var closed := IsEyeCatcher(buffer, endOffset);
        if closed.Err? {
          return Err(closed.error);
        }
        if closed.value {
          var action := new EmbeddedAction.FromText(Decode(buffer[4..endOffset]));
          return Ok(Some(action));
        }
        endOffset := endOffset + 1;
      }
    }
    return Ok(None);
  }

  // ---------------------------------------------------------------------------
  // What a generated message carries

  /** No ',', '=' or '$', and ASCII: text that survives framing and splitting unchanged. */
  predicate Plain(s: string) {
    Ascii(s) && ',' !in s && '=' !in s && '$' !in s
  }

  /** A framed body with no '$' is found whole when the closing eye-catcher starts before MAX_SEARCH. */
  lemma FramedBodyFound(body: string)
    requires Ascii(body) && '$' !in body && 4 + |body| < MAX_SEARCH
    ensures ActionText(Encode(EYE_CATCHER + body + EYE_CATCHER)) == Ok(Some(body))
  {
    var buffer := Encode(EYE_CATCHER + body + EYE_CATCHER);
    FrameShape(body);
    SearchOverBody(buffer, |body|, 4, Min(MAX_SEARCH, |buffer|));
    assert buffer[4..4 + |body|] == Encode(body);
    assert Decode(Encode(body)) == body;
  }

  /** Past MAX_SEARCH the closing eye-catcher is not looked for: the frame is not recognised. */
  lemma LongBodyIgnored(body: string)
    requires Ascii(body) && '$' !in body && 4 + |body| >= MAX_SEARCH
    ensures ActionText(Encode(EYE_CATCHER + body + EYE_CATCHER)) == Ok(None)
  {
    var buffer := Encode(EYE_CATCHER + body + EYE_CATCHER);
    FrameShape(body);
    SearchOverBody(buffer, |body|, 4, MAX_SEARCH);
  }

  /** The bytes of a framed body: the eye-catcher, the body with no 36 ('$') in it, the eye-catcher. */
  lemma FrameShape(body: string)
    requires Ascii(body) && '$' !in body
    ensures var buffer := Encode(EYE_CATCHER + body + EYE_CATCHER);
      buffer == EYE_BYTES + Encode(body) + EYE_BYTES &&
      forall i :: 4 <= i < 4 + |body| ==> buffer[i] != 36
  {
    var buffer := Encode(EYE_CATCHER + body + EYE_CATCHER);
    var rest := Encode(body);
    forall i | 0 <= i < |buffer| ensures buffer[i] == (EYE_BYTES + rest + EYE_BYTES)[i] {
      if i < 4 {
        assert buffer[i] == EYE_CATCHER[i] as int;
      } else if i < 4 + |body| {
        assert buffer[i] == body[i - 4] as int;
      } else {
        assert buffer[i] == EYE_CATCHER[i - 4 - |body|] as int;
      }
    }
    forall i | 4 <= i < 4 + |body| ensures buffer[i] != 36 {
      assert buffer[i] == body[i - 4] as int;
      assert body[i - 4] != '$';
    }
  }

  /** From inside the body the search skips every body byte and stops at the closing eye-catcher. */
  lemma {:induction false} SearchOverBody(buffer: seq<byte>, n: nat, e: nat, limit: nat)
    requires |buffer| == n + 8 && buffer[4 + n..] == EYE_BYTES && 4 <= e <= 4 + n
    requires forall i :: 4 <= i < 4 + n ==> buffer[i] != 36
    ensures SearchFrom(buffer, e, limit) == if limit <= 4 + n then Ok(None) else Ok(Some(4 + n))
    decreases 4 + n - e
  {
    if e < limit {
      if e < 4 + n {
        assert buffer[e..e + 4][0] == buffer[e];
        SearchOverBody(buffer, n, e + 1, limit);
      } else {
        assert buffer[e..e + 4] == buffer[4 + n..];
      }
    }
  }

  /** Keys and arguments are plain, and no argument is empty. */
  ghost predicate PlainCommands(commands: map<string, string>) {
    forall k :: k in commands ==> Plain(k) && Plain(commands[k]) && commands[k] != ""
  }

  /** Putting the pairs of plain keys records each key with its own argument. */
  lemma {:induction false} PutPairs(commands: map<string, string>, order: seq<string>)
    requires (forall k :: k in order ==> k in commands) && PlainCommands(commands)
    ensures var parsed := PutItems(map[], Pairs(commands, order));
      (forall k :: k in parsed <==> k in order) && (forall k :: k in parsed ==> parsed[k] == commands[k])
    decreases |order|
  {
    if order != [] {
      var init, k := order[..|order| - 1], order[|order| - 1];
      assert order == init + [k];
      var v := commands[k];
      PutPairs(commands, init);
      var ps := Pairs(commands, order);
      var prev := PutItems(map[], Pairs(commands, init));
      assert ps[..|ps| - 1] == Pairs(commands, init);
      PairSplits(k, v);
      assert PutItems(map[], ps) == prev[k := v];
    }
  }

  /** A pair of a key and a non-empty argument, neither with '=', splits back into the two. */
  lemma PairSplits(k: string, v: string)
    requires '=' !in k && '=' !in v && v != ""
    ensures JavaSplit(k + "=" + v, '=') == [k, v]
  {
    assert Join([k, v], "=") == k + "=" + v by {
      assert ([k, v])[1..] == [v];
    }
    JavaSplitJoin([k, v], '=');
  }

  /**
   * Round trip: the message generated from commands whose keys and arguments are
   * plain, with non-empty arguments, is recognised in the message's bytes and
   * parses back to the same commands, whatever the iteration order.
   */
  lemma MessageRoundTrip(commands: map<string, string>, order: seq<string>)
    requires Enumerates(order, commands)
    requires PlainCommands(commands)
    requires |Message(commands, order)| - 4 < MAX_SEARCH
    ensures Ascii(Message(commands, order))
    ensures var body := Join(Pairs(commands, order), ",");
      ActionText(Encode(Message(commands, order))) == Ok(Some(body)) && ParseCommands(body) == commands
  {
    var ps := Pairs(commands, order);
    var body := Join(ps, ",");
    assert forall k :: k in order ==> k in commands && Plain(k) && Plain(commands[k]);
    PairsPlain(commands, order);

    JoinPlain(ps, ",");
    AsciiConcat(EYE_CATCHER, body);
    AsciiConcat(EYE_CATCHER + body, EYE_CATCHER);
    FramedBodyFound(body);
    ParseOfPairs(commands, order);
  }

  /** The joined pairs parse back to the commands they came from. */
  lemma ParseOfPairs(commands: map<string, string>, order: seq<string>)
    requires Enumerates(order, commands)
    requires PlainCommands(commands)
    ensures ParseCommands(Join(Pairs(commands, order), ",")) == commands
  {
    if order == [] {
      assert commands == map[];
      EmptyTextParses();
    } else {
      var ps := Pairs(commands, order);
      PairsPlain(commands, order);
      JavaSplitJoin(ps, ',');
      PutPairs(commands, order);
      SameCommands(PutItems(map[], ps), commands, order);
    }
  }

  lemma SameCommands(a: map<string, string>, b: map<string, string>, order: seq<string>)
    requires forall k :: k in a <==> k in order
    requires forall k :: k in b <==> k in order
    requires forall k :: k in a ==> a[k] == b[k]
    ensures a == b
  {
    assert a.Keys == b.Keys;
  }

  /** An empty body is one item with no '=': nothing is recorded. */
  lemma EmptyTextParses()
    ensures ParseCommands("") == map[]
  {
    assert JavaSplit("", ',') == [""];
    assert PutItems(map[], [""]) == PutItem(PutItems(map[], []), "");
  }

  lemma AsciiConcat(a: string, b: string)
    requires Ascii(a) && Ascii(b)
    ensures Ascii(a + b)
  {
    forall i | 0 <= i < |a + b| ensures (a + b)[i] as int < 128 {
      if i < |a| {
        assert (a + b)[i] == a[i];
      } else {
        assert (a + b)[i] == b[i - |a|];
      }
    }
  }

  /** A pair as the message carries it: ASCII, no ',' or '$', not empty. */
  predicate PlainPair(p: string) {
    Ascii(p) && ',' !in p && '$' !in p && p != ""
  }

  /** Each pair of plain keys and arguments is a plain pair. */
  lemma {:induction false} PairsPlain(commands: map<string, string>, order: seq<string>)
    requires (forall k :: k in order ==> k in commands) && PlainCommands(commands)
    ensures forall i :: 0 <= i < |Pairs(commands, order)| ==> PlainPair(Pairs(commands, order)[i])
    decreases |order|
  {
    if order != [] {
      var init := order[..|order| - 1];
      assert forall x :: x in init ==> x in order;
      PairsPlain(commands, init);
      var k := order[|order| - 1];
      assert k in order;
      AsciiConcat(k, "=");
      AsciiConcat(k + "=", commands[k]);
      var ps := Pairs(commands, order);
      assert ps == Pairs(commands, init) + [k + "=" + commands[k]];
      assert forall i :: 0 <= i < |ps| - 1 ==> ps[i] == Pairs(commands, init)[i];
    }
  }

  /** Joining plain pairs with "," gives ASCII text free of '$'. */
  lemma {:induction false} JoinPlain(parts: seq<string>, sep: string)
    requires sep == ","
    requires forall i :: 0 <= i < |parts| ==> PlainPair(parts[i])
    ensures Ascii(Join(parts, sep)) && '$' !in Join(parts, sep)
    decreases |parts|
  {
    if |parts| > 1 {
      JoinPlain(parts[1..], sep);
      AsciiConcat(parts[0], sep);
      AsciiConcat(parts[0] + sep, Join(parts[1..], sep));
    }
  }

  /** What the text constructor records: keys without ',' or '=', arguments non-empty and without them. */
  lemma ParsedCommandsWellFormed(rawText: string)
    ensures forall k :: k in ParseCommands(rawText) ==>
      ',' !in k && '=' !in k && ',' !in ParseCommands(rawText)[k] && '=' !in ParseCommands(rawText)[k] &&
      ParseCommands(rawText)[k] != ""
  {
    var items := JavaSplit(rawText, ',');
    PutItemsWellFormed(items);
    assert ParseCommands(rawText) == PutItems(map[], items);
  }

  lemma {:induction false} PutItemsWellFormed(items: seq<string>)
    requires forall i :: 0 <= i < |items| ==> ',' !in items[i]
    ensures var m := PutItems(map[], items);
      forall k :: k in m ==> ',' !in k && '=' !in k && ',' !in m[k] && '=' !in m[k] && m[k] != ""
    decreases |items|
  {
    if items != [] {
      var init, item := items[..|items| - 1], items[|items| - 1];
      PutItemsWellFormed(init);
      JavaSplitAvoids(item, '=', ',');
      var elements := JavaSplit(item, '=');
      if |elements| == 2 {
        assert ',' !in elements[0] && ',' !in elements[1];
        assert '=' !in elements[0] && '=' !in elements[1] && elements[1] != "";
      }
    }
  }
}
