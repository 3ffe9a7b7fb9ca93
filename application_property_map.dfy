/**
 * The layered property map of an application run: values set by the
 * application, then the command line, then the properties file, then the
 * defaults, looked up under the short key a long key stands for.
 */
module AppProps {
  import opened JavaLang
  import CL = CommandLine

  class ApplicationPropertyMap {
    /** Long key to short key. */
    var longKeys: map<string, string>
    /** Short key to default value. */
    var defaults: map<string, string>
    /** Short key to the value read from the properties file. */
    var fileProps: map<string, string>
    /** The command-line layer, a map that refuses to overwrite a key. */
    const cmdLine: CL.CommandLineProperties
    /** Values the application sets. */
    var application: map<string, string>
    var strict: bool
    /** The key set as last computed; emptied by put and putDefaultString only. */
    var cachedKeys: set<string>

    constructor()
      ensures longKeys == map[] && defaults == map[] && fileProps == map[] && application == map[]
      ensures cmdLine.entries == map[] && cmdLine.duplicated == []
      ensures strict && cachedKeys == {}
      ensures fresh(cmdLine)
    {
      longKeys, defaults, fileProps, application := map[], map[], map[], map[];
      cmdLine := new CL.CommandLineProperties();
      strict := true;
      cachedKeys := {};
    }

    /** The short key of a long key, or the key itself. */
    function CanonicalKey(key: string): (c: string)
      reads this
      ensures key in longKeys ==> c == longKeys[key]
      ensures key !in longKeys ==> c == key
    {
      if key in longKeys then longKeys[key] else key
    }

    /** get: the first layer holding the canonical key, in the order application, command line, file, defaults. */
    function Get(key: string): (r: Option<string>)
      reads this, cmdLine
      ensures r.Some? <==> var c := CanonicalKey(key);
        c in application || c in cmdLine.entries || c in fileProps || c in defaults
    {
      var c := CanonicalKey(key);
      if c in application then Some(application[c])
      else if c in cmdLine.entries then cmdLine.Get(c)
      else if c in fileProps then Some(fileProps[c])
      else if c in defaults then Some(defaults[c])
      else None
    }

    /** The key set keySet computes when its cache is empty. */
    function AllKeys(): (r: set<string>)
      reads this, cmdLine
      ensures defaults.Keys <= r
      ensures strict ==> r == defaults.Keys
      ensures !strict ==> forall k :: k in r <==> k in defaults || k in application || k in cmdLine.entries || k in fileProps
    {
      defaults.Keys + if strict then {} else application.Keys + cmdLine.entries.Keys + fileProps.Keys
    }

    /** Every application value has a default, as strict mode demands. */
    predicate StrictlyDefaulted()
      reads this
    {
      forall c :: c in application ==> c in defaults
    }

    /** size: the number of defaults. */
    function Size(): (n: nat)
      reads this
      ensures n == |defaults.Keys|
    {
      |defaults|
    }

    /** isEmpty is false whatever the contents. */
    function IsEmpty(): (b: bool)
      ensures !b
    {
      false
    }

    /**
     * put: empties the key-set cache, then refuses (in strict mode) a key
     * without a default, or stores the value in the application layer under the
     * canonical key and returns the value it replaces.
     */
    method Put(key: string, value: string) returns (r: Result<Option<string>>)
      modifies this
      ensures cachedKeys == {}
      ensures longKeys == old(longKeys) && defaults == old(defaults) && fileProps == old(fileProps)
      ensures strict == old(strict)
      ensures var c := CanonicalKey(key);
        if strict && c !in defaults then r == Err(ApplicationProperty) && application == old(application)
        else
          application == old(application)[c := value] &&
          r == Ok(if c in old(application) then Some(old(application)[c]) else None)
      ensures r.Ok? ==> Get(key) == Some(value)
      ensures strict && old(StrictlyDefaulted()) ==> StrictlyDefaulted()
    {
      cachedKeys := {};
      var c := CanonicalKey(key);
      if strict && c !in defaults {
        return Err(ApplicationProperty);
      }
      var prev := if c in application then Some(application[c]) else None;
      application := application[c := value];
      return Ok(prev);
    }

    /** keySet: the cached key set, computed first when the cache is empty. */
    method KeySet() returns (keys: set<string>)
      modifies this
      ensures old(cachedKeys) == {} ==> cachedKeys == AllKeys()
      ensures old(cachedKeys) != {} ==> cachedKeys == old(cachedKeys)
      ensures keys == cachedKeys
      ensures longKeys == old(longKeys) && defaults == old(defaults) && fileProps == old(fileProps)
      ensures application == old(application) && strict == old(strict)
    {
      if cachedKeys == {} {
        cachedKeys := AllKeys();
      }
      keys := cachedKeys;
    }

    /** containsKey: whether keySet holds the canonical key. */
    method ContainsKey(key: string) returns (b: bool)
      modifies this
      ensures old(cachedKeys) == {} ==> cachedKeys == AllKeys()
      ensures old(cachedKeys) != {} ==> cachedKeys == old(cachedKeys)
      ensures b <==> CanonicalKey(key) in cachedKeys
      ensures longKeys == old(longKeys) && defaults == old(defaults) && fileProps == old(fileProps)
      ensures application == old(application) && strict == old(strict)
    {
      var keys := KeySet();
      b := CanonicalKey(key) in keys;
    }

    /**
     * putDefaultString: stores the default; with a long key, maps it to the
     * short key and moves a command-line or file entry from the long key to
     * the short key. Empties the key-set cache.
     */
    method PutDefaultString(property: string, longKey: Option<string>, value: string)
      modifies this, cmdLine
      ensures defaults == old(defaults)[property := value]
      ensures longKey.None? ==>
        longKeys == old(longKeys) && fileProps == old(fileProps) && unchanged(cmdLine)
      ensures longKey.Some? ==> var lk := longKey.value;
        longKeys == old(longKeys)[lk := property] &&
        fileProps == MoveEntry(old(fileProps), lk, property) &&
        cmdLine.entries == MoveCommandLineEntry(old(cmdLine.entries), lk, property) &&
        cmdLine.duplicated == old(cmdLine.duplicated) + MoveReports(old(cmdLine.entries), lk, property)
      ensures application == old(application) && strict == old(strict) && cachedKeys == {}
      ensures longKey.Some? ==> CanonicalKey(longKey.value) == property
      ensures old(StrictlyDefaulted()) ==> StrictlyDefaulted()
    {
      defaults := defaults[property := value];
      if longKey.Some? {
        var lk := longKey.value;
        longKeys := longKeys[lk := property];
        CanonicaliseCommandLine(lk, property);
        if lk in fileProps {
          var moved := fileProps[lk];
          fileProps := (fileProps - {lk})[property := moved];
        }
      }
      cachedKeys := {};
    }

    /** canonicaliseMapEntry on the command-line layer. */
    method CanonicaliseCommandLine(longKey: string, shortKey: string)
      modifies cmdLine
      ensures cmdLine.entries == MoveCommandLineEntry(old(cmdLine.entries), longKey, shortKey)
      ensures cmdLine.duplicated == old(cmdLine.duplicated) + MoveReports(old(cmdLine.entries), longKey, shortKey)
    {
      if longKey in cmdLine.entries {
        var moved := cmdLine.Remove(longKey);
        var _ := cmdLine.Put(shortKey, moved.value);
      }
    }

    /** setStrictDefaults: sets the mode and returns the previous one. */
    method SetStrictDefaults(s: bool) returns (prev: bool)
      modifies this
      ensures prev == old(strict) && strict == s
      ensures longKeys == old(longKeys) && defaults == old(defaults) && fileProps == old(fileProps)
      ensures application == old(application) && cachedKeys == old(cachedKeys)
    {
      prev := strict;
      strict := s;
    }

    /** readCommandLine: passes the arguments to the command-line layer. */
    method ReadCommandLine(args: seq<string>)
      modifies cmdLine
      ensures cmdLine.entries == CL.PutAll(old(cmdLine.entries), CL.Puts(args)).0
      ensures cmdLine.duplicated == old(cmdLine.duplicated) + CL.PutAll(old(cmdLine.entries), CL.Puts(args)).1
    {
      cmdLine.ReadCommandLine(args);
    }

    /** readConfigFile, with the file already parsed: each loaded property is put into the file layer. */
    method ReadConfigFile(loaded: map<string, string>)
      modifies this
      ensures fileProps == old(fileProps) + loaded
      ensures longKeys == old(longKeys) && defaults == old(defaults) && application == old(application)
      ensures strict == old(strict) && cachedKeys == old(cachedKeys)
    {
      fileProps := fileProps + loaded;
    }
  }

  /** canonicaliseMapEntry on a HashMap layer: the long key's value moves to the short key, overwriting it. */
  function MoveEntry(m: map<string, string>, longKey: string, shortKey: string): (r: map<string, string>)
    ensures longKey !in m ==> r == m
    ensures longKey in m ==> shortKey in r && r[shortKey] == m[longKey]
    ensures longKey in m && longKey != shortKey ==> longKey !in r
    ensures forall k :: k != longKey && k != shortKey ==> (k in r <==> k in m) && (k in m ==> r[k] == m[k])
  {
    if longKey in m then (m - {longKey})[shortKey := m[longKey]] else m
  }

  /**
   * canonicaliseMapEntry on the command-line layer: the long key is removed,
   * and its value is put under the short key only when the short key is absent.
   */
  function MoveCommandLineEntry(m: map<string, CL.Value>, longKey: string, shortKey: string): (r: map<string, CL.Value>)
    ensures longKey !in m ==> r == m
    ensures longKey in m && longKey != shortKey ==> longKey !in r
    ensures longKey in m && shortKey !in m ==> shortKey in r && r[shortKey] == m[longKey]
    ensures longKey in m && shortKey in m && longKey != shortKey ==> shortKey in r && r[shortKey] == m[shortKey]
    ensures forall k :: k != longKey && k != shortKey ==> (k in r <==> k in m) && (k in m ==> r[k] == m[k])
  {
    if longKey !in m then m
    else
      var rest := m - {longKey};
      if shortKey in rest then rest else rest[shortKey := m[longKey]]
  }

  /**
   * The keys canonicaliseMapEntry makes the command-line layer report as
   * duplicated: the short key, when it is already present and a different
   * long key is moved onto it.
   */
  function MoveReports(m: map<string, CL.Value>, longKey: string, shortKey: string): seq<string>
  {
    if longKey in m && longKey != shortKey && shortKey in m then [shortKey] else []
  }

  /** A long key and the short key it stands for read the same value. */
  lemma LongKeyReadsShortKey(ap: ApplicationPropertyMap, longKey: string)
    requires longKey in ap.longKeys && ap.longKeys[longKey] !in ap.longKeys
    ensures ap.Get(longKey) == ap.Get(ap.longKeys[longKey])
  {
  }

  /** In strict mode the key set is the defaults; otherwise every key get can find is in it. */
  lemma KeySetCoversGet(ap: ApplicationPropertyMap, key: string)
    ensures ap.strict ==> ap.AllKeys() == ap.defaults.Keys
    ensures !ap.strict && ap.Get(key).Some? ==> ap.CanonicalKey(key) in ap.AllKeys()
  {
  }

  /** In strict mode a key get finds, when the application set values only with defaults, is a listed key. */
  lemma StrictKeySetCoversGet(ap: ApplicationPropertyMap, key: string)
    requires ap.strict && ap.StrictlyDefaulted()
    requires ap.CanonicalKey(key) !in ap.cmdLine.entries && ap.CanonicalKey(key) !in ap.fileProps
    ensures ap.Get(key).Some? <==> ap.CanonicalKey(key) in ap.AllKeys()
  {
  }

  /** Moving a command-line entry is a remove followed by the command line's own put. */
  lemma MoveIsRemoveThenPut(m: map<string, CL.Value>, longKey: string, shortKey: string)
    requires longKey in m
    ensures MoveCommandLineEntry(m, longKey, shortKey) == CL.PutAll(m - {longKey}, [(shortKey, m[longKey])]).0
  {
    var puts := [(shortKey, m[longKey])];
    assert puts[..0] == [];
  }
}
