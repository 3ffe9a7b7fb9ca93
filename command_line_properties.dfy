/**
 * The command-line parser of the harness: "-key value words" and "-key=value"
 * arguments become entries of a map that refuses to overwrite a key.
 */
module CommandLine {
  import opened JavaLang

  /** A stored value: the NULL token of a key given without a value, or text. */
  datatype Value = NullToken | Text(s: string)

  /** An argument that starts a new key. */
  predicate IsKeyArg(arg: string) { StartsWith(arg, "-") }

  /**
   * The key and starting value of a key argument: without '=' the whole rest,
   * lower-cased, and the NULL token; with '=' the lower-cased part before the
   * first '=' and the text after it.
   */
  function KeyArg(arg: string): (r: (string, Value))
    requires IsKeyArg(arg)
    ensures |r.0| < |arg|
    ensures r.1.NullToken? <==> '=' !in arg[1..]
  {
    var body := arg[1..];
    var ik := IndexOf(body, '=');
    if ik >= 0 then (ToLower(body[..ik]), Text(body[ik + 1..])) else (ToLower(body), NullToken)
  }

  /** A value argument: the first replaces the NULL token, later ones append after a space. */
  function AppendValue(v: Value, arg: string): Value {
    match v
    case NullToken => Text(arg)
    case Text(s) => Text(s + " " + arg)
  }

  /** The loop state of readCommandLine: the pending key and value, and the puts made so far. */
  datatype ScanState = ScanState(key: Option<string>, value: Value, puts: seq<(string, Value)>)

  /** The loop of readCommandLine over the arguments, one argument at a time. */
  function Scan(args: seq<string>): (r: ScanState)
    ensures r.key.None? ==> r.puts == []
    ensures |r.puts| + (if r.key.Some? then 1 else 0) <= |args|
  {
    if args == [] then ScanState(None, Text(""), [])
    else
      var prev := Scan(args[..|args| - 1]);
      var arg := args[|args| - 1];
      if IsKeyArg(arg) then
        var emitted := if prev.key.Some? then [(prev.key.value, prev.value)] else [];
        var kv := KeyArg(arg);
        ScanState(Some(kv.0), kv.1, prev.puts + emitted)
      else ScanState(prev.key, AppendValue(prev.value, arg), prev.puts)
  }

  /** Every put readCommandLine makes, in order, the pending key after the loop included. */
  function Puts(args: seq<string>): (r: seq<(string, Value)>)
    ensures |r| <= |args|
  {
    var st := Scan(args);
    st.puts + (if st.key.Some? then [(st.key.value, st.value)] else [])
  }

  /** The overridden put, applied in order: the map afterwards and the keys reported as duplicated. */
  function PutAll(m: map<string, Value>, puts: seq<(string, Value)>): (r: (map<string, Value>, seq<string>))
    ensures m.Keys <= r.0.Keys
    ensures |r.1| <= |puts|
  {
    if puts == [] then (m, [])
    else
      var prev := PutAll(m, puts[..|puts| - 1]);
      var p := puts[|puts| - 1];
      if p.0 in prev.0 then (prev.0, prev.1 + [p.0]) else (prev.0[p.0 := p.1], prev.1)
  }

  /** get: null for an absent key, "" for the NULL token, the text otherwise. */
  function Lookup(m: map<string, Value>, key: string): Option<string> {
    if key !in m then None
    else match m[key]
      case NullToken => Some("")
      case Text(s) => Some(s)
  }

  /** The value after appending each value argument in turn. */
  function AppendAll(v: Value, vals: seq<string>): Value {
    if vals == [] then v else AppendValue(AppendAll(v, vals[..|vals| - 1]), vals[|vals| - 1])
  }

  class CommandLineProperties {
    var entries: map<string, Value>
    /** The keys Config.logger was warned about, in order. */
    var duplicated: seq<string>

    constructor()
      ensures entries == map[] && duplicated == []
    {
      entries := map[];
      duplicated := [];
    }

    constructor FromArgs(args: seq<string>)
      ensures entries == PutAll(map[], Puts(args)).0
      ensures duplicated == PutAll(map[], Puts(args)).1
    {
      entries := map[];
      duplicated := [];
      new;
      ReadCommandLine(args);
    }

    function Get(key: string): (r: Option<string>)
      reads this
      ensures r.None? <==> key !in entries
      ensures r == Some("") <== key in entries && entries[key] == NullToken
    {
      Lookup(entries, key)
    }

    /** A key already present is reported and keeps its value; the result is always null. */
    method Put(key: string, value: Value) returns (r: Option<Value>)
      modifies this
      ensures r == None
      ensures key in old(entries) ==> entries == old(entries) && duplicated == old(duplicated) + [key]
      ensures key !in old(entries) ==> entries == old(entries)[key := value] && duplicated == old(duplicated)
    {
      if key in entries {
        duplicated := duplicated + [key];
        return None;
      }
      entries := entries[key := value];
      return None;
    }

    /** The inherited HashMap.remove. */
    method Remove(key: string) returns (prev: Option<Value>)
      modifies this
      ensures entries == old(entries) - {key} && duplicated == old(duplicated)
      ensures prev == if key in old(entries) then Some(old(entries)[key]) else None
    {
      prev := if key in entries then Some(entries[key]) else None;
      entries := entries - {key};
    }

    method ReadCommandLine(args: seq<string>)
      modifies this
      ensures entries == PutAll(old(entries), Puts(args)).0
      ensures duplicated == old(duplicated) + PutAll(old(entries), Puts(args)).1
    {
      var key: Option<string> := None;
      var value := Text("");
      var i := 0;
      while i < |args|
        invariant 0 <= i <= |args|
        invariant key == Scan(args[..i]).key && value == Scan(args[..i]).value
        invariant entries == PutAll(old(entries), Scan(args[..i]).puts).0
        invariant duplicated == old(duplicated) + PutAll(old(entries), Scan(args[..i]).puts).1
      {
        var arg := args[i];
        assert args[..i + 1] == args[..i] + [arg];
        ScanSnoc(args[..i], arg);
        ghost var before := Scan(args[..i]).puts;
        if IsKeyArg(arg) {
          if key.Some? {
            var _ := Put(key.value, value);
            PutAllSnoc(old(entries), before, (key.value, value));
          } else {
            assert before + [] == before;
          }
          var kv := KeyArg(arg);
          key, value := Some(kv.0), kv.1;
        } else {
          value := AppendValue(value, arg);
        }
        i := i + 1;
      }
      assert args[..i] == args;
      if key.Some? {
        var _ := Put(key.value, value);
        PutAllSnoc(old(entries), Scan(args).puts, (key.value, value));
      } else {
        assert Scan(args).puts + [] == Scan(args).puts;
      }
    }
  }

  lemma PutAllSnoc(m: map<string, Value>, puts: seq<(string, Value)>, p: (string, Value))
    ensures PutAll(m, puts + [p]) ==
      var prev := PutAll(m, puts);
      if p.0 in prev.0 then (prev.0, prev.1 + [p.0]) else (prev.0[p.0 := p.1], prev.1)
  {
    assert (puts + [p])[..|puts|] == puts;
  }

  lemma ScanSnoc(args: seq<string>, arg: string)
    ensures Scan(args + [arg]) ==
      var prev := Scan(args);
      if IsKeyArg(arg) then
        ScanState(Some(KeyArg(arg).0), KeyArg(arg).1,
          prev.puts + (if prev.key.Some? then [(prev.key.value, prev.value)] else []))
      else ScanState(prev.key, AppendValue(prev.value, arg), prev.puts)
  {
    assert (args + [arg])[..|args|] == args;
  }

  /** Value arguments before the first key are dropped. */
  lemma {:induction false} LeadingValuesDropped(vals: seq<string>)
    requires forall i :: 0 <= i < |vals| ==> !IsKeyArg(vals[i])
    ensures Scan(vals).key == None && Scan(vals).puts == []
    ensures Puts(vals) == []
  {
    if vals != [] {
      var init := vals[..|vals| - 1];
      LeadingValuesDropped(init);
      ScanSnoc(init, vals[|vals| - 1]);
      assert init + [vals[|vals| - 1]] == vals;
    }
  }

  /** Once a key argument has been seen a key is pending, so some put is made. */
  lemma {:induction false} KeyArgPuts(args: seq<string>, j: nat)
    requires j < |args| && IsKeyArg(args[j])
    ensures Scan(args).key.Some? && Puts(args) != []
  {
    if j < |args| - 1 {
      var init := args[..|args| - 1];
      assert init[j] == args[j];
      KeyArgPuts(init, j);
    }
  }

  lemma {:induction false} ScanFromKey(seg1: seq<string>, seg2: seq<string>)
    requires seg2 != [] && IsKeyArg(seg2[0])
    ensures Scan(seg1 + seg2) == ScanState(Scan(seg2).key, Scan(seg2).value, Puts(seg1) + Scan(seg2).puts)
    decreases |seg2|
  {
    if |seg2| == 1 {
      ScanSnoc(seg1, seg2[0]);
      ScanSnoc([], seg2[0]);
      assert seg1 + seg2 == seg1 + [seg2[0]];
      assert [] + [seg2[0]] == seg2;
    } else {
      var init, arg := seg2[..|seg2| - 1], seg2[|seg2| - 1];
      ScanFromKey(seg1, init);
      assert seg1 + seg2 == (seg1 + init) + [arg];
      assert init + [arg] == seg2;
      ScanSnoc(seg1 + init, arg);
      ScanSnoc(init, arg);
    }
  }

  /** The puts of consecutive segments, the second starting with a key, are the two lists of puts in order. */
  lemma PutsFromKey(seg1: seq<string>, seg2: seq<string>)
    requires seg2 != [] && IsKeyArg(seg2[0])
    ensures Puts(seg1 + seg2) == Puts(seg1) + Puts(seg2)
  {
    ScanFromKey(seg1, seg2);
  }

  /** One key argument and its value arguments: the pending key with every value appended. */
  lemma {:induction false} ScanOneKey(opt: string, vals: seq<string>)
    requires IsKeyArg(opt)
    requires forall i :: 0 <= i < |vals| ==> !IsKeyArg(vals[i])
    ensures Scan([opt] + vals) == ScanState(Some(KeyArg(opt).0), AppendAll(KeyArg(opt).1, vals), [])
    decreases |vals|
  {
    if vals == [] {
      ScanSnoc([], opt);
      assert [] + [opt] == [opt] + vals;
    } else {
      var init, arg := vals[..|vals| - 1], vals[|vals| - 1];
      ScanOneKey(opt, init);
      assert [opt] + vals == ([opt] + init) + [arg];
      ScanSnoc([opt] + init, arg);
    }
  }

  /** Appending value arguments joins them with single spaces, after any text already there. */
  lemma {:induction false} AppendAllJoin(v: Value, vals: seq<string>)
    requires vals != []
    ensures AppendAll(v, vals) == match v
      case NullToken => Text(Join(vals, " "))
      case Text(s) => Text(Join([s] + vals, " "))
    decreases |vals|
  {
    var init, arg := vals[..|vals| - 1], vals[|vals| - 1];
    assert init + [arg] == vals;
    if init == [] {
      assert vals == [arg];
      if v.Text? {
        assert [v.s] + vals == [v.s, arg];
        assert [v.s, arg][1..] == [arg];
      }
    } else {
      AppendAllJoin(v, init);
      JoinSnoc(init, arg, " ");
      if v.Text? {
        JoinSnoc([v.s] + init, arg, " ");
        assert [v.s] + vals == ([v.s] + init) + [arg];
      }
    }
  }

  /**
   * "-name v1 v2 ..." with no '=' in name: one put of the lower-cased name with
   * the values joined by single spaces, or with the NULL token when no value follows.
   */
  lemma KeyThenValues(name: string, vals: seq<string>)
    requires '=' !in name
    requires forall i :: 0 <= i < |vals| ==> !IsKeyArg(vals[i])
    ensures Puts(["-" + name] + vals) ==
      [(ToLower(name), if vals == [] then NullToken else Text(Join(vals, " ")))]
  {
    var opt := "-" + name;
    assert opt[1..] == name;
    ScanOneKey(opt, vals);
    if vals != [] {
      AppendAllJoin(NullToken, vals);
    }
  }

  /**
   * "-k=v v1 v2 ...": the key is the lower-cased text before the first '=', and
   * the value is the text after it, not lower-cased, followed by the values.
   */
  lemma KeyEqualsValue(k: string, v: string, vals: seq<string>)
    requires '=' !in k
    requires forall i :: 0 <= i < |vals| ==> !IsKeyArg(vals[i])
    ensures Puts(["-" + k + "=" + v] + vals) == [(ToLower(k), Text(Join([v] + vals, " ")))]
  {
    var opt := "-" + k + "=" + v;
    assert opt[1..] == k + "=" + v;
    IndexOfAfter(k, '=', v);
    assert (k + "=" + v)[..|k|] == k && (k + "=" + v)[|k| + 1..] == v;
    ScanOneKey(opt, vals);
    if vals == [] {
      assert [v] + vals == [v];
    } else {
      AppendAllJoin(Text(v), vals);
    }
  }

  /** A key present before the puts keeps its value. */
  lemma {:induction false} PresentKeyKept(m: map<string, Value>, puts: seq<(string, Value)>, k: string)
    requires k in m
    ensures k in PutAll(m, puts).0 && PutAll(m, puts).0[k] == m[k]
  {
    if puts != [] {
      PresentKeyKept(m, puts[..|puts| - 1], k);
    }
  }

  /** A duplicated key keeps the value of its first put, and later puts only report it. */
  lemma {:induction false} FirstValueWins(m: map<string, Value>, puts: seq<(string, Value)>, j: nat)
    requires j < |puts| && puts[j].0 !in m
    requires forall i :: 0 <= i < j ==> puts[i].0 != puts[j].0
    ensures puts[j].0 in PutAll(m, puts).0 && PutAll(m, puts).0[puts[j].0] == puts[j].1
    decreases |puts|
  {
    var init := puts[..|puts| - 1];
    if j == |puts| - 1 {
      NotPut(m, init, puts[j].0);
    } else {
      FirstValueWins(m, init, j);
    }
  }

  /** A key no put names is absent afterwards when it was absent before. */
  lemma {:induction false} NotPut(m: map<string, Value>, puts: seq<(string, Value)>, k: string)
    requires k !in m
    requires forall i :: 0 <= i < |puts| ==> puts[i].0 != k
    ensures k !in PutAll(m, puts).0
  {
    if puts != [] {
      NotPut(m, puts[..|puts| - 1], k);
    }
  }

  /** A key given on its own reads back as "". */
  lemma KeyAloneReadsEmpty(name: string)
    requires '=' !in name
    ensures Lookup(PutAll(map[], Puts(["-" + name])).0, ToLower(name)) == Some("")
  {
    KeyThenValues(name, []);
    assert ["-" + name] + [] == ["-" + name];
    var puts := Puts(["-" + name]);
    assert puts[..0] == [];
  }
}
