# PerfHarness core, modelled in Dafny

PerfHarness is a performance-test harness for messaging systems (JMS, MQ,
AMQP, MQTT, HTTP). This project models the parts of it that hold logic of
their own, rather than plumbing over a client library:

- the script that summarises every `.properties` file of the tree
  (`generatePropertiesSummary.py`). Its model covers the directory filter,
  the joining of continued lines, both regular expressions as Python's
  backtracking matcher applies them, the per-class attribute store, the
  report with its `KeyError` cases, and the reset between files;
- the configuration layer:
  - `CommandLineProperties` parses `-key value…` arguments and keeps the
    first value of a duplicated key;
  - `TypedProperties` reads typed values out of a string map;
  - `ApplicationPropertyMap` layers application values, the command line,
    the configuration file and the defaults, with long-key aliases and a
    strict mode;
- the sequence checker `BasicSequence`, the round-robin `NumberSequencer`
  and the destination naming of `DefaultDestinationFactory`;
- the byte containers and streams: `ByteArray`,
  `FastByteArrayOutputStream`, `FastByteArrayInputStream` and
  `HeadOutputStream`;
- the MQ correlation-id holder `MQByteArrayHolder`, and from `MQProvider` the
  filler text, the hex-to-id conversion and the choice of message file;
- the AMQP embedded-action framing (`EmbeddedAction`), and from
  `BlockingJavaClient` the confirmation modes, the transfer-parameter checks
  and `connectionLost`;
- the rolling-average sampler of `RollingAvgStats`, the message-size
  extraction of `FileStats`, and from `TCPIPProviderBase` the message
  selection and port rotation;
- the JMS subscriber's selector strings (`Subscriber`).

There is one Dafny module per source file, plus two shared modules:

- `JavaLang` holds what the sources take from the Java and Python libraries:
  - `Option` and `Result` (Java's `null` and thrown exceptions);
  - bytes as `0..255`;
  - `int` and `long` wrap-around;
  - Java's `%`;
  - `Integer.parseInt` and `Integer.toString`;
  - `String.trim`, `String.split` and ASCII case folding.
- `HexText` holds two-digit hex spelling.

Objects whose fields the sources update become classes with `modifies` frames.
Each method is specified by a function of the old state. The loops of the
sources are `while` loops with invariants. Pure computations are functions,
and what the sources promise is stated as lemmas about them.

Java `int` arithmetic is modelled with explicit 32-bit wrap-around (`Wrap32`),
and `long` arithmetic with `Wrap64` where it matters. The Python script's
dictionaries are maps paired with their insertion order.

## Model

| member | source | states |
|---|---|---|
| JavaLang.LowByte | MQJavaPerfHarness/src/com/ibm/uk/hursley/perfharness/mqjava/MQProvider.java:336 | a `(byte)` cast keeps the value modulo 256 |
| JavaLang.Wrap32 | PerfHarness/src/com/ibm/uk/hursley/perfharness/stats/RollingAvgStats.java:249-251 | int arithmetic: in range the exact value, out of range wrapped into [MIN_VALUE, MAX_VALUE] |
| JavaLang.Wrap64 | PerfHarness/src/com/ibm/uk/hursley/perfharness/util/FastByteArrayInputStream.java:58 | long arithmetic: in range the exact value, out of range wrapped |
| JavaLang.JavaRem | JakartaJMSPerfHarness/src/com/ibm/uk/hursley/perfharness/jms/r11/NumberSequencer.java:67 | Java `%`: smaller in size than the divisor and with the sign of the dividend |
| JavaLang.ToLower | PerfHarness/src/com/ibm/uk/hursley/perfharness/util/CommandLineProperties.java:65-67 | toLowerCase keeps the length and lower-cases each character |
| JavaLang.IndexOf | PerfHarness/src/com/ibm/uk/hursley/perfharness/util/CommandLineProperties.java:61 | indexOf: -1 exactly when the character is absent, else its first position |
| JavaLang.JavaSplit | PerfHarness/src/com/ibm/uk/hursley/perfharness/util/TypedProperties.java:168 | split: the whole string when the separator is absent; no piece holds the separator; trailing empty pieces are dropped |
| JavaLang.JavaSplitJoin | AMQPPerfHarness/src/com/ibm/uk/hursley/perfharness/amqp/utils/EmbeddedAction.java:102 | split undoes a join when no part holds the separator and the last part is non-empty |
| JavaLang.ParseInteger | PerfHarness/src/com/ibm/uk/hursley/perfharness/util/TypedProperties.java:180 | parseInt: a value in range, or NumberFormatException |
| JavaLang.ParseIntOfIntToString | PerfHarness/src/com/ibm/uk/hursley/perfharness/util/TypedProperties.java:386 | parseInt reads back Integer.toString |
| PropertiesSummary.SearchDescA | PerfHarness/doc/generatePropertiesSummary.py:53 | the greedy `.+` after the package prefix backtracks from the longest choice: the match found is the one with the latest split points, and none is found only when no split matches |
| PropertiesSummary.SearchDescG | PerfHarness/doc/generatePropertiesSummary.py:53 | for a fixed dot before the class name, group 1 and the optional character before `=` are chosen longest-first, and the result is a real match |
| PropertiesSummary.ClassDescMatch | PerfHarness/doc/generatePropertiesSummary.py:53 | `re.match` of the class-description expression finds nothing exactly when no split of the line fits it |
| PropertiesSummary.SearchAttrQ | PerfHarness/doc/generatePropertiesSummary.py:34 | the lazy group 2 takes the shortest extension that still finds an `=` followed by a value |
| PropertiesSummary.SearchAttrP | PerfHarness/doc/generatePropertiesSummary.py:34 | the lazy group 1 takes the first dot after which the rest of the expression matches |
| PropertiesSummary.SearchAttrS | PerfHarness/doc/generatePropertiesSummary.py:34 | `search` takes the leftmost start at which the expression matches, and the lazy groups are shortest there |
| PropertiesSummary.AttributeMatch | PerfHarness/doc/generatePropertiesSummary.py:59 | the attribute expression finds nothing exactly when no split of the line fits it |
| PropertiesSummary.AttributeLine | PerfHarness/doc/generatePropertiesSummary.py:34 | `prop.attr=value` with no dot in prop and no `=` in attr splits back into prop, attr and value |
| PropertiesSummary.ClassDescriptionLine | PerfHarness/doc/generatePropertiesSummary.py:53 | `com.ibm.uk.hursley<pkg>.<Class>.desc=<text>` yields the class name and the description |
| PropertiesSummary.SplitLines | PerfHarness/doc/generatePropertiesSummary.py:47-64 | successive `readline` results: non-empty pieces that concatenate to the file, each but the last ending in its only newline |
| PropertiesSummary.StripContinuationIsRstrip | PerfHarness/doc/generatePropertiesSummary.py:51 | `rstrip("\\\nn")` leaves the longest prefix not ending in a backslash, a newline or the letter n, and removes only those characters |
| PropertiesSummary.StripValue | PerfHarness/doc/generatePropertiesSummary.py:62 | `rstrip("\\\n")` on the value: a prefix not ending in a backslash or newline, the rest only those |
| PropertiesSummary.StripWhitespace | PerfHarness/doc/generatePropertiesSummary.py:62 | `rstrip()` on the keys: a prefix not ending in Python whitespace, the rest only whitespace |
| PropertiesSummary.Continue | PerfHarness/doc/generatePropertiesSummary.py:50-51 | the joining loop only moves forward and ends on a line without a trailing backslash |
| PropertiesSummary.ContinueStep | PerfHarness/doc/generatePropertiesSummary.py:50-51 | one turn of the joining loop: strip, one space, the next physical line |
| PropertiesSummary.ContinuedLine | PerfHarness/doc/generatePropertiesSummary.py:48-51 | pieces each ending in a backslash, then a final line, make one logical line: the pieces and the final line joined by single spaces |
| PropertiesSummary.PlainLines | PerfHarness/doc/generatePropertiesSummary.py:47-64 | without continuation markers the logical lines are the physical lines |
| PropertiesSummary.ContinuationDropsTrailingN | PerfHarness/doc/generatePropertiesSummary.py:51 | a continued line ending in the letter n loses that letter: `open\` + `door` reads as `ope door` |
| PropertiesSummary.Classify | PerfHarness/doc/generatePropertiesSummary.py:53-59 | a line is a class description exactly when the first expression matches, and is ignored exactly when neither expression matches |
| PropertiesSummary.Store | PerfHarness/doc/generatePropertiesSummary.py:12-16 | store_attribute changes exactly the one (property, attribute) entry, appends a new property to the insertion order, and keeps the dict of dicts well formed |
| PropertiesSummary.StoreLines | PerfHarness/doc/generatePropertiesSummary.py:59-62 | storing the attribute lines of a file keeps the store well formed |
| PropertiesSummary.StoreLine | PerfHarness/doc/generatePropertiesSummary.py:59-62 | an attribute line is stored, any other leaves the store alone, and the store stays well formed |
| PropertiesSummary.LastValueWins | PerfHarness/doc/generatePropertiesSummary.py:16 | the last line that stores a (property, attribute) pair decides its value |
| PropertiesSummary.UnstoredKeepsValue | PerfHarness/doc/generatePropertiesSummary.py:12-16 | an entry that no line stores keeps its earlier value |
| PropertiesSummary.EntryText | PerfHarness/doc/generatePropertiesSummary.py:21 | one property's entry fails exactly when desc, type or dflt is missing, with KeyError on the first missing one in that order |
| PropertiesSummary.Entries | PerfHarness/doc/generatePropertiesSummary.py:20-21 | the entry loop as written: when it stops on an error, that error is a KeyError |
| PropertiesSummary.EntriesRaise | PerfHarness/doc/generatePropertiesSummary.py:20-21 | the entry loop raises exactly when some property lacks desc, type or dflt, and the loop with the per-property xtra check raises in exactly the same cases |
| PropertiesSummary.EntriesNext | PerfHarness/doc/generatePropertiesSummary.py:20-21 | while nothing has raised, one more property appends its entry text |
| PropertiesSummary.EntriesError | PerfHarness/doc/generatePropertiesSummary.py:20-21 | once an entry has raised, the properties after it add nothing |
| PropertiesSummary.ReportAsWritten | PerfHarness/doc/generatePropertiesSummary.py:18-25 | print_attributes as written: an empty store reports "No properties for this class", and an error is a KeyError |
| PropertiesSummary.ReportRaisesAt | PerfHarness/doc/generatePropertiesSummary.py:19-21 | when the entry at index i is the first to raise, the report is the entries before it and that KeyError |
| PropertiesSummary.ReportCompletes | PerfHarness/doc/generatePropertiesSummary.py:19-23 | when no entry raises, the report is all the entries followed by the xtra line of the last property only |
| PropertiesSummary.EntriesWithXtra | PerfHarness/doc/generatePropertiesSummary.py:20-23 | the loop with the xtra check inside it: when it stops on an error, that error is a KeyError |
| PropertiesSummary.Report | PerfHarness/doc/generatePropertiesSummary.py:18-25 | the report with the per-property xtra check: an empty store reports "No properties for this class", and an error is a KeyError |
| PropertiesSummary.XtraAddsLength | PerfHarness/doc/generatePropertiesSummary.py:20-23 | when nothing raises, the per-property report is longer than the plain entries by exactly the total length of the xtra lines |
| PropertiesSummary.NoXtraSameEntries | PerfHarness/doc/generatePropertiesSummary.py:20-23 | when no property has an xtra attribute, the per-property loop prints exactly the entries |
| PropertiesSummary.XtraCheckedOnlyOnLast | PerfHarness/doc/generatePropertiesSummary.py:20-23 | for every store whose entries are all complete, the report as written is the entries followed by the xtra line of the last property only, and it equals the per-property report exactly when no property before the last has an xtra attribute |
| PropertiesSummary.EntriesWithXtraError | PerfHarness/doc/generatePropertiesSummary.py:20-21 | after a KeyError, later properties print nothing more |
| PropertiesSummary.EntriesWithXtraSplit | PerfHarness/doc/generatePropertiesSummary.py:20-23 | with the per-property check, the report of a list of properties is the reports of its parts, one after the other |
| PropertiesSummary.ClassName | PerfHarness/doc/generatePropertiesSummary.py:45 | the class name is the file name up to its first dot, and contains no dot |
| PropertiesSummary.Visited | PerfHarness/doc/generatePropertiesSummary.py:38-41 | a file is reached exactly when no directory on its path is named bin |
| PropertiesSummary.Selected | PerfHarness/doc/generatePropertiesSummary.py:41-43 | a selected file is reached, and its name does not contain "build" |
| PropertiesSummary.LineOutput | PerfHarness/doc/generatePropertiesSummary.py:53-57 | a logical line prints something exactly when it is a class description |
| PropertiesSummary.FileReport | PerfHarness/doc/generatePropertiesSummary.py:43-68 | one selected file's output, with the report as written; an error that ends it is a KeyError |
| PropertiesSummary.Summary | PerfHarness/doc/generatePropertiesSummary.py:40-68 | the output of the whole walk; an error that ends it is a KeyError |
| PropertiesSummary.NothingSelectedPrintsNothing | PerfHarness/doc/generatePropertiesSummary.py:40-43 | a walk with no selected file prints nothing |
| PropertiesSummary.ErrorEndsSummary | PerfHarness/doc/generatePropertiesSummary.py:40-68 | a KeyError ends the run: files after it add no output |
| PropertiesSummary.ErrorStopsRun | PerfHarness/doc/generatePropertiesSummary.py:40-68 | once a prefix of the walk has raised, the whole walk prints what that prefix printed |
| PropertiesSummary.SummaryStep | PerfHarness/doc/generatePropertiesSummary.py:40-68 | one more file in the walk adds its block only when it is selected and nothing has raised yet |
| PropertiesSummary.SummaryGenerator.StoreAttribute | PerfHarness/doc/generatePropertiesSummary.py:12-16 | the global dict becomes Store of the old one, and nothing is printed |
| PropertiesSummary.SummaryGenerator.constructor | PerfHarness/doc/generatePropertiesSummary.py:10 | the global dict starts empty and nothing is printed |
| PropertiesSummary.SummaryGenerator.PrintAttributes | PerfHarness/doc/generatePropertiesSummary.py:18-25 | prints the report as written: "No properties for this class" for an empty store; otherwise the entries and then the xtra line of the last property only, or the entries up to the first KeyError, which it raises. The store is left as it was |
| PropertiesSummary.SummaryGenerator.JoinContinuations | PerfHarness/doc/generatePropertiesSummary.py:50-51 | the inner loop computes Continue |
| PropertiesSummary.SummaryGenerator.HandleLine | PerfHarness/doc/generatePropertiesSummary.py:53-62 | a class-description line prints the name and description, with the mismatch warning first when the name is not the file's class; an attribute line is stored; other lines do nothing |
| PropertiesSummary.SummaryGenerator.ReadPropertiesFile | PerfHarness/doc/generatePropertiesSummary.py:46-64 | the readline loop stores and prints each logical line in order |
| PropertiesSummary.SummaryGenerator.SummariseFile | PerfHarness/doc/generatePropertiesSummary.py:43-68 | one selected file prints its block, the report as written and the delineator, and leaves the store empty again |
| PropertiesSummary.SummaryGenerator.Run | PerfHarness/doc/generatePropertiesSummary.py:40-68 | the output is every selected file's block, with the report as written, in walk order, up to the first KeyError |
| CommandLine.CommandLineProperties.constructor | PerfHarness/src/com/ibm/uk/hursley/perfharness/util/CommandLineProperties.java:37-39 | starts with no entries |
| CommandLine.CommandLineProperties.FromArgs | PerfHarness/src/com/ibm/uk/hursley/perfharness/util/CommandLineProperties.java:41-43 | holds what readCommandLine puts for the arguments |
| CommandLine.CommandLineProperties.ReadCommandLine | PerfHarness/src/com/ibm/uk/hursley/perfharness/util/CommandLineProperties.java:49-89 | the entries become the old ones with every key/value pair of the scan put in order, the pending key last; the keys reported as duplicates are recorded |
| CommandLine.CommandLineProperties.Get | PerfHarness/src/com/ibm/uk/hursley/perfharness/util/CommandLineProperties.java:91-94 | null for an absent key, "" for a key given without a value |
| CommandLine.CommandLineProperties.Put | PerfHarness/src/com/ibm/uk/hursley/perfharness/util/CommandLineProperties.java:99-106 | a present key keeps its value and is reported; an absent one is stored; the result is always null |
| CommandLine.CommandLineProperties.Remove | PerfHarness/src/com/ibm/uk/hursley/perfharness/ApplicationPropertyMap.java:185-192 | the inherited remove used when an entry moves to its short key: deletes the key and returns its old value |
| CommandLine.LeadingValuesDropped | PerfHarness/src/com/ibm/uk/hursley/perfharness/util/CommandLineProperties.java:70-81 | value arguments before the first key are dropped |
| CommandLine.ScanFromKey | PerfHarness/src/com/ibm/uk/hursley/perfharness/util/CommandLineProperties.java:54-69 | a key argument closes the pending pair, so the arguments before it and from it on are scanned independently |
| CommandLine.PutsFromKey | PerfHarness/src/com/ibm/uk/hursley/perfharness/util/CommandLineProperties.java:54-87 | the pairs of two segments, the second starting with a key, are the pairs of each in order |
| CommandLine.AppendAllJoin | PerfHarness/src/com/ibm/uk/hursley/perfharness/util/CommandLineProperties.java:70-81 | value arguments are joined by single spaces, the first replacing the NULL token |
| CommandLine.KeyThenValues | PerfHarness/src/com/ibm/uk/hursley/perfharness/util/CommandLineProperties.java:54-87 | `-Name v1 v2` puts the lower-cased name with "v1 v2", and a bare `-Name` puts the NULL token |
| CommandLine.KeyEqualsValue | PerfHarness/src/com/ibm/uk/hursley/perfharness/util/CommandLineProperties.java:61-65 | `-K=v` splits at the `=`, lower-cases only K, and later values are appended to v |
| CommandLine.PresentKeyKept | PerfHarness/src/com/ibm/uk/hursley/perfharness/util/CommandLineProperties.java:99-106 | a key already present keeps its value through any later puts |
| CommandLine.FirstValueWins | PerfHarness/src/com/ibm/uk/hursley/perfharness/util/CommandLineProperties.java:99-106 | a duplicated key holds the value of its first put |
| CommandLine.NotPut | PerfHarness/src/com/ibm/uk/hursley/perfharness/util/CommandLineProperties.java:99-106 | a key no put names stays absent |
| CommandLine.KeyAloneReadsEmpty | PerfHarness/src/com/ibm/uk/hursley/perfharness/util/CommandLineProperties.java:84-94 | a key given last without a value is stored and reads back as "" |
| CommandLine.KeyArg | PerfHarness/src/com/ibm/uk/hursley/perfharness/util/CommandLineProperties.java:60-69 | the key is shorter than the argument, and the value is the NULL token exactly when no '=' follows the dash |
| CommandLine.Scan | PerfHarness/src/com/ibm/uk/hursley/perfharness/util/CommandLineProperties.java:49-82 | before any key nothing is put, and the puts plus a pending key never outnumber the arguments |
| CommandLine.Puts | PerfHarness/src/com/ibm/uk/hursley/perfharness/util/CommandLineProperties.java:49-87 | no more puts than arguments |
| CommandLine.PutAll | PerfHarness/src/com/ibm/uk/hursley/perfharness/util/CommandLineProperties.java:99-106 | the puts never remove a key, and no more keys are reported than puts made |
| CommandLine.KeyArgPuts | PerfHarness/src/com/ibm/uk/hursley/perfharness/util/CommandLineProperties.java:54-87 | any key argument leaves a pending key and at least one put |
| TypedProps.ParseBoolean | PerfHarness/src/com/ibm/uk/hursley/perfharness/util/TypedProperties.java:274-287 | false exactly for "false" in any case or "0"; true exactly for "true" in any case, "1" or ""; anything else throws TypedPropertyException |
| TypedProps.AsTyped | PerfHarness/src/com/ibm/uk/hursley/perfharness/util/TypedProperties.java:177-185 | a NumberFormatException becomes a TypedPropertyException, and a parsed value is kept |
| TypedProps.FillTo | PerfHarness/src/com/ibm/uk/hursley/perfharness/util/TypedProperties.java:218-236 | a successful fill has exactly the requested number of entries |
| TypedProps.ParseAll | PerfHarness/src/com/ibm/uk/hursley/perfharness/util/TypedProperties.java:201-216 | a successful parse has one int per piece |
| TypedProps.TypedProperties.constructor | PerfHarness/src/com/ibm/uk/hursley/perfharness/util/TypedProperties.java:59-61 | starts empty |
| TypedProps.TypedProperties.Wrap | PerfHarness/src/com/ibm/uk/hursley/perfharness/util/TypedProperties.java:52-57 | wraps the given map |
| TypedProps.TypedProperties.Get | PerfHarness/src/com/ibm/uk/hursley/perfharness/util/TypedProperties.java:79-81 | the stored value, or null for an absent key |
| TypedProps.TypedProperties.Put | PerfHarness/src/com/ibm/uk/hursley/perfharness/util/TypedProperties.java:83-85 | stores the value and returns the one it replaces |
| TypedProps.TypedProperties.Remove | PerfHarness/src/com/ibm/uk/hursley/perfharness/util/TypedProperties.java:87-89 | deletes the key and returns its old value |
| TypedProps.TypedProperties.GetString | PerfHarness/src/com/ibm/uk/hursley/perfharness/util/TypedProperties.java:152-157 | throws TypedPropertyException exactly for an absent name, else returns the trimmed value |
| TypedProps.TypedProperties.GetStringOr | PerfHarness/src/com/ibm/uk/hursley/perfharness/util/TypedProperties.java:159-162 | def for an absent name, else the trimmed value |
| TypedProps.TypedProperties.GetCSStringList | PerfHarness/src/com/ibm/uk/hursley/perfharness/util/TypedProperties.java:164-169 | throws exactly for an absent name, else splits the trimmed value at commas |
| TypedProps.TypedProperties.GetInt | PerfHarness/src/com/ibm/uk/hursley/perfharness/util/TypedProperties.java:177-185 | an int in range, or TypedPropertyException |
| TypedProps.TypedProperties.GetIntOr | PerfHarness/src/com/ibm/uk/hursley/perfharness/util/TypedProperties.java:187-199 | def when the value is missing or empty; otherwise a failure is a TypedPropertyException |
| TypedProps.TypedProperties.GetLong | PerfHarness/src/com/ibm/uk/hursley/perfharness/util/TypedProperties.java:243-252 | a long in range, or TypedPropertyException |
| TypedProps.TypedProperties.GetLongOr | PerfHarness/src/com/ibm/uk/hursley/perfharness/util/TypedProperties.java:254-266 | def when the value is missing or empty; otherwise a failure is a TypedPropertyException |
| TypedProps.TypedProperties.GetBoolean | PerfHarness/src/com/ibm/uk/hursley/perfharness/util/TypedProperties.java:274-287 | a failure is a TypedPropertyException |
| TypedProps.TypedProperties.GetBooleanOr | PerfHarness/src/com/ibm/uk/hursley/perfharness/util/TypedProperties.java:289-306 | def when the value is missing or empty; otherwise a failure is a TypedPropertyException |
| TypedProps.TypedProperties.GetCSIntList | PerfHarness/src/com/ibm/uk/hursley/perfharness/util/TypedProperties.java:201-216 | throws for an absent name; otherwise fails exactly when some piece of the trimmed value is not an int, and returns the pieces parsed (per piece by ParseAllEntries) |
| TypedProps.TypedProperties.GetCSIntListOr | PerfHarness/src/com/ibm/uk/hursley/perfharness/util/TypedProperties.java:218-236 | throws for an absent name, NegativeArraySize for n < 0; otherwise n ints, def where a piece is missing or empty, or the first bad piece's exception |
| TypedProps.TypedProperties.PutInt | PerfHarness/src/com/ibm/uk/hursley/perfharness/util/TypedProperties.java:384-388 | stores the decimal text of the int |
| TypedProps.TypedProperties.PutLong | PerfHarness/src/com/ibm/uk/hursley/perfharness/util/TypedProperties.java:390-394 | stores the decimal text of the long |
| TypedProps.TypedProperties.PutBoolean | PerfHarness/src/com/ibm/uk/hursley/perfharness/util/TypedProperties.java:402-406 | stores "true" or "false" |
| TypedProps.ParseInts | PerfHarness/src/com/ibm/uk/hursley/perfharness/util/TypedProperties.java:205-214 | the array loop of getCSIntList computes ParseAll |
| TypedProps.FillInts | PerfHarness/src/com/ibm/uk/hursley/perfharness/util/TypedProperties.java:222-234 | the array loop of getCSIntList(name, n, def) computes FillTo |
| TypedProps.FillToFails | PerfHarness/src/com/ibm/uk/hursley/perfharness/util/TypedProperties.java:218-236 | once a position fails, every longer list fails |
| TypedProps.ParseAllPrefixFails | PerfHarness/src/com/ibm/uk/hursley/perfharness/util/TypedProperties.java:201-216 | a bad piece fails the whole list |
| TypedProps.ParseAllEntries | PerfHarness/src/com/ibm/uk/hursley/perfharness/util/TypedProperties.java:201-216 | the list is parsed exactly when every piece is an int, and position k then holds the k-th piece parsed |
| TypedProps.FillToEntries | PerfHarness/src/com/ibm/uk/hursley/perfharness/util/TypedProperties.java:218-236 | the fill succeeds exactly when every position does, and position k holds def for a missing or empty piece, else the piece parsed |
| TypedProps.IntRoundTrip | PerfHarness/src/com/ibm/uk/hursley/perfharness/util/TypedProperties.java:384-388 | what putInt stores, getInt and getInt(def) read back |
| TypedProps.LongRoundTrip | PerfHarness/src/com/ibm/uk/hursley/perfharness/util/TypedProperties.java:390-394 | what putLong stores, getLong and getLong(def) read back |
| TypedProps.BooleanRoundTrip | PerfHarness/src/com/ibm/uk/hursley/perfharness/util/TypedProperties.java:402-406 | what putBoolean stores, getBoolean and getBoolean(def) read back |
| TypedProps.EmptyBoolean | PerfHarness/src/com/ibm/uk/hursley/perfharness/util/TypedProperties.java:274-306 | an empty value is true for getBoolean(name) but def for getBoolean(name, def) |
| TypedProps.DefaultedIntIsNotTrimmed | PerfHarness/src/com/ibm/uk/hursley/perfharness/util/TypedProperties.java:177-199 | getInt trims the value but getInt(name, def) does not: " 5" reads as 5 and fails respectively |
| TypedProps.EntryOrDefault | PerfHarness/src/com/ibm/uk/hursley/perfharness/util/TypedProperties.java:224-233 | position k holds def or the k-th piece parsed, and a failure is a TypedPropertyException |
| TypedProps.CSInts | PerfHarness/src/com/ibm/uk/hursley/perfharness/util/TypedProperties.java:201-216 | a successful parse has one int per piece of the trimmed value, and a failure is a TypedPropertyException |
| TypedProps.CSIntsOr | PerfHarness/src/com/ibm/uk/hursley/perfharness/util/TypedProperties.java:218-236 | a successful fill has n ints, and a failure is a TypedPropertyException |
| AppProps.ApplicationPropertyMap.constructor | PerfHarness/src/com/ibm/uk/hursley/perfharness/ApplicationPropertyMap.java:33-41 | every layer empty, strict mode on, no cached keys |
| AppProps.ApplicationPropertyMap.CanonicalKey | PerfHarness/src/com/ibm/uk/hursley/perfharness/ApplicationPropertyMap.java:173-179 | a long key maps to its short key, any other key to itself |
| AppProps.ApplicationPropertyMap.Get | PerfHarness/src/com/ibm/uk/hursley/perfharness/ApplicationPropertyMap.java:95-103 | finds a value exactly when some layer holds the canonical key |
| AppProps.ApplicationPropertyMap.Size | PerfHarness/src/com/ibm/uk/hursley/perfharness/ApplicationPropertyMap.java:73-75 | the number of defaults |
| AppProps.ApplicationPropertyMap.IsEmpty | PerfHarness/src/com/ibm/uk/hursley/perfharness/ApplicationPropertyMap.java:80-82 | always false |
| AppProps.ApplicationPropertyMap.Put | PerfHarness/src/com/ibm/uk/hursley/perfharness/ApplicationPropertyMap.java:109-119 | empties the key cache; in strict mode a key without a default throws and nothing is stored; otherwise only the application layer changes, under the canonical key, get then reads the value, and the replaced value is returned |
| AppProps.ApplicationPropertyMap.KeySet | PerfHarness/src/com/ibm/uk/hursley/perfharness/ApplicationPropertyMap.java:134-146 | computes the key set only when the cache is empty, and returns the cache |
| AppProps.ApplicationPropertyMap.ContainsKey | PerfHarness/src/com/ibm/uk/hursley/perfharness/ApplicationPropertyMap.java:84-86 | whether the key set holds the canonical key |
| AppProps.ApplicationPropertyMap.PutDefaultString | PerfHarness/src/com/ibm/uk/hursley/perfharness/ApplicationPropertyMap.java:154-167 | stores the default; with a long key, maps it to the short key and moves any command-line or file entry across, the command-line layer reporting a short key already present as duplicated; empties the key cache |
| AppProps.ApplicationPropertyMap.CanonicaliseCommandLine | PerfHarness/src/com/ibm/uk/hursley/perfharness/ApplicationPropertyMap.java:185-192 | moving an entry on the command-line layer goes through that layer's own put, so a short key already present keeps its value and is reported as duplicated |
| AppProps.ApplicationPropertyMap.SetStrictDefaults | PerfHarness/src/com/ibm/uk/hursley/perfharness/ApplicationPropertyMap.java:199-203 | sets the mode and returns the previous one |
| AppProps.ApplicationPropertyMap.ReadCommandLine | PerfHarness/src/com/ibm/uk/hursley/perfharness/ApplicationPropertyMap.java:66-68 | the command-line layer reads the arguments: its entries and its duplicate reports are those of its own put over the scan |
| AppProps.ApplicationPropertyMap.ReadConfigFile | PerfHarness/src/com/ibm/uk/hursley/perfharness/ApplicationPropertyMap.java:50-59 | each loaded property is put into the file layer |
| AppProps.MoveEntry | PerfHarness/src/com/ibm/uk/hursley/perfharness/ApplicationPropertyMap.java:185-192 | on a plain layer the long key's value moves to the short key, overwriting it; other keys are untouched |
| AppProps.MoveCommandLineEntry | PerfHarness/src/com/ibm/uk/hursley/perfharness/ApplicationPropertyMap.java:185-192 | on the command line the long key is removed, and its value lands on the short key only when that key is absent |
| AppProps.LongKeyReadsShortKey | PerfHarness/src/com/ibm/uk/hursley/perfharness/ApplicationPropertyMap.java:95-103 | a long key and its short key read the same value |
| AppProps.KeySetCoversGet | PerfHarness/src/com/ibm/uk/hursley/perfharness/ApplicationPropertyMap.java:134-146 | in strict mode the key set is the defaults; otherwise every key get finds is in it |
| AppProps.StrictKeySetCoversGet | PerfHarness/src/com/ibm/uk/hursley/perfharness/ApplicationPropertyMap.java:109-146 | in strict mode, with application values only under defaulted keys, get finds a key exactly when the key set lists it |
| AppProps.MoveIsRemoveThenPut | PerfHarness/src/com/ibm/uk/hursley/perfharness/ApplicationPropertyMap.java:185-192 | the command-line move is remove followed by that layer's put |
| AppProps.ApplicationPropertyMap.AllKeys | PerfHarness/src/com/ibm/uk/hursley/perfharness/ApplicationPropertyMap.java:136-143 | the defaults' keys; outside strict mode, exactly the keys held by any layer |
| Sequencing.AbsInt | PerfHarness/src/com/ibm/uk/hursley/perfharness/sequencing/BasicSequence.java:69 | Math.abs: the absolute value, except that MIN_VALUE stays negative |
| Sequencing.BasicSequence.constructor | PerfHarness/src/com/ibm/uk/hursley/perfharness/sequencing/BasicSequence.java:39-49 | the initial field values |
| Sequencing.BasicSequence.RegisterElement | PerfHarness/src/com/ibm/uk/hursley/perfharness/sequencing/BasicSequence.java:56-73 | the counters become Register of the old ones |
| Sequencing.BasicSequence.GetMissing | PerfHarness/src/com/ibm/uk/hursley/perfharness/sequencing/BasicSequence.java:75-78 | 0 for fewer than two elements, else max - min - count + 1 |
| Sequencing.BasicSequence.Reset | PerfHarness/src/com/ibm/uk/hursley/perfharness/sequencing/BasicSequence.java:92-103 | restores the initial field values |
| Sequencing.BasicSequence.IncrementErrors | PerfHarness/src/com/ibm/uk/hursley/perfharness/sequencing/BasicSequence.java:109-111 | one more error, nothing else changes |
| Sequencing.FirstElement | PerfHarness/src/com/ibm/uk/hursley/perfharness/sequencing/BasicSequence.java:58-61 | the first element counts as if preceded by itself minus one: no duplicate, no disorder |
| Sequencing.RegisterAllSnoc | PerfHarness/src/com/ibm/uk/hursley/perfharness/sequencing/BasicSequence.java:56-73 | registering one more element is one more registerElement on the counters so far |
| Sequencing.RangeTracked | PerfHarness/src/com/ibm/uk/hursley/perfharness/sequencing/BasicSequence.java:62-63 | max and min are the largest and smallest registered elements, and last is the latest |
| Sequencing.CountersExact | PerfHarness/src/com/ibm/uk/hursley/perfharness/sequencing/BasicSequence.java:64-71 | while nothing overflows, count is the number of elements, duplicates the consecutive repeats, ordering the sum of \|s[i] - s[i-1] - 1\| |
| Sequencing.RegisterExact | PerfHarness/src/com/ibm/uk/hursley/perfharness/sequencing/BasicSequence.java:64-71 | one later element adds one to count, one to duplicates on a repeat, and its distance to ordering |
| Sequencing.InOrderScoresZero | PerfHarness/src/com/ibm/uk/hursley/perfharness/sequencing/BasicSequence.java:28 | ABCD scores 0 |
| Sequencing.ReversedTailScoresSix | PerfHarness/src/com/ibm/uk/hursley/perfharness/sequencing/BasicSequence.java:29 | ADCB scores 6 |
| Sequencing.StepBackScoresTwo | PerfHarness/src/com/ibm/uk/hursley/perfharness/sequencing/BasicSequence.java:27 | BA scores 2 |
| Sequencing.Register | PerfHarness/src/com/ibm/uk/hursley/perfharness/sequencing/BasicSequence.java:56-73 | afterwards n lies between min and max, max never falls and min never rises, last is n, first is false, and errors are unchanged |
| Sequencing.OrderingStep | PerfHarness/src/com/ibm/uk/hursley/perfharness/sequencing/BasicSequence.java:67-69 | the next element in order adds nothing; otherwise, while nothing overflows, ordering grows by \|n - last - 1\| |
| Sequencing.Missing | PerfHarness/src/com/ibm/uk/hursley/perfharness/sequencing/BasicSequence.java:75-78 | 0 for fewer than two elements, else max - min - count + 1 modulo 2^32 |
| Sequencing.CountIsLength | PerfHarness/src/com/ibm/uk/hursley/perfharness/sequencing/BasicSequence.java:65 | while it fits an int, count is the number of registered elements |
| Sequencing.WithinRange | PerfHarness/src/com/ibm/uk/hursley/perfharness/sequencing/BasicSequence.java:62-63 | every registered element lies between the smallest and the largest |
| Sequencing.RangeSize | PerfHarness/src/com/ibm/uk/hursley/perfharness/sequencing/BasicSequence.java:77 | the integers from min to max number max - min + 1 |
| Sequencing.DistinctSize | PerfHarness/src/com/ibm/uk/hursley/perfharness/sequencing/BasicSequence.java:65 | distinct elements are as many as the values they take |
| Sequencing.MissingCountsGaps | PerfHarness/src/com/ibm/uk/hursley/perfharness/sequencing/BasicSequence.java:75-78 | for distinct elements, when the result fits an int, getMissing is the number of values between min and max that were never registered |
| Sequencing.NoGapsNoneMissing | PerfHarness/src/com/ibm/uk/hursley/perfharness/sequencing/BasicSequence.java:75-78 | after registering distinct elements that cover every value between their smallest and largest, getMissing is 0 |
| Sequencer.Advance | JakartaJMSPerfHarness/src/com/ibm/uk/hursley/perfharness/jms/r11/NumberSequencer.java:67 | `(number + 1) % maxNumber` throws exactly for a zero bound and otherwise stays below the bound in size |
| Sequencer.NumberSequencer.Default | JakartaJMSPerfHarness/src/com/ibm/uk/hursley/perfharness/jms/r11/NumberSequencer.java:29-37 | number 0, bound 10 |
| Sequencer.NumberSequencer.constructor | JakartaJMSPerfHarness/src/com/ibm/uk/hursley/perfharness/jms/r11/NumberSequencer.java:44-47 | number 0, the given bound |
| Sequencer.NumberSequencer.NextNumber | JakartaJMSPerfHarness/src/com/ibm/uk/hursley/perfharness/jms/r11/NumberSequencer.java:65-69 | returns the current number and advances it by one step; a zero bound throws |
| Sequencer.NumberSequencer.SetCurrentNumber | JakartaJMSPerfHarness/src/com/ibm/uk/hursley/perfharness/jms/r11/NumberSequencer.java:75-79 | takes a number in [0, maxNumber) and ignores any other |
| Sequencer.SequencerSlot.GetInstance | JakartaJMSPerfHarness/src/com/ibm/uk/hursley/perfharness/jms/r11/NumberSequencer.java:55-59 | the first call creates the sequencer; later calls return it and ignore their argument |
| Sequencer.SequencerSlot.constructor | JakartaJMSPerfHarness/src/com/ibm/uk/hursley/perfharness/jms/r11/NumberSequencer.java:32 | no instance yet |
| Sequencer.AdvanceInRange | JakartaJMSPerfHarness/src/com/ibm/uk/hursley/perfharness/jms/r11/NumberSequencer.java:65-69 | from a number in range, the next is (number + 1) mod maxNumber, in range |
| Sequencer.AfterIsModular | JakartaJMSPerfHarness/src/com/ibm/uk/hursley/perfharness/jms/r11/NumberSequencer.java:65-69 | k calls from a start in range land on (start + k) mod maxNumber |
| Sequencer.CycleHasPeriod | JakartaJMSPerfHarness/src/com/ibm/uk/hursley/perfharness/jms/r11/NumberSequencer.java:65-69 | the numbers stay in [0, maxNumber) and repeat with period maxNumber |
| Destinations.PartialBounds | PerfHarness/src/com/ibm/uk/hursley/perfharness/DefaultDestinationFactory.java:66-101 | with only some of db, dx, dn set: base is db, else dx - dn + 1 when both are set, else 1; max is dx, else dn + base - 1 when dn is set; the count follows; the first ID is base |
| Destinations.Configure | PerfHarness/src/com/ibm/uk/hursley/perfharness/DefaultDestinationFactory.java:42-118 | an invalid configuration changes nothing; all three set starts at dn with count dx - db + 1; some set gives PartialBounds; random mode sets the range to max - base + 1 |
| Destinations.DestinationFactory.constructor | PerfHarness/src/com/ibm/uk/hursley/perfharness/DefaultDestinationFactory.java:26-34 | the static fields before registerConfig: single mode, all bounds 0 |
| Destinations.DestinationFactory.RegisterConfig | PerfHarness/src/com/ibm/uk/hursley/perfharness/DefaultDestinationFactory.java:42-118 | the fields become Configure of the old ones, and the prefix is set unless the configuration is invalid |
| Destinations.DestinationFactory.CompleteBounds | PerfHarness/src/com/ibm/uk/hursley/perfharness/DefaultDestinationFactory.java:66-101 | the partial-settings branch computes PartialBounds |
| Destinations.DestinationFactory.GenerateDestinationID | PerfHarness/src/com/ibm/uk/hursley/perfharness/DefaultDestinationFactory.java:149-167 | in distributed mode returns the next ID and advances it, back to base after max; in other modes returns -1 and changes nothing |
| Destinations.DestinationFactory.GenerateDestination | PerfHarness/src/com/ibm/uk/hursley/perfharness/DefaultDestinationFactory.java:123-143 | the prefix in single mode, prefix + next ID in distributed mode, prefix + (draw + base) in random mode, which throws for a non-positive range |
| Destinations.SuccessorInRange | PerfHarness/src/com/ibm/uk/hursley/perfharness/DefaultDestinationFactory.java:155-160 | inside [base, max] the next ID counts up and wraps from max to base |
| Destinations.DestinationsCycle | PerfHarness/src/com/ibm/uk/hursley/perfharness/DefaultDestinationFactory.java:153-162 | from an ID in [base, max], k calls later the ID is base + (next - base + k) mod (max - base + 1) |
| Destinations.NoMaxNeverWraps | PerfHarness/src/com/ibm/uk/hursley/perfharness/DefaultDestinationFactory.java:156-158 | with max 0 the IDs only increase |
| Destinations.AllSettingsStartAtNumber | PerfHarness/src/com/ibm/uk/hursley/perfharness/DefaultDestinationFactory.java:54-60 | with db, dx and dn all set, the first ID is dn and the count is dx - db + 1 |
| Destinations.NumberOnlyCountsFromOne | PerfHarness/src/com/ibm/uk/hursley/perfharness/DefaultDestinationFactory.java:66-101 | with only dn set, IDs run from 1 to dn |
| Destinations.Successor | PerfHarness/src/com/ibm/uk/hursley/perfharness/DefaultDestinationFactory.java:155-160 | from an ID in [base, max], the next ID is also in [base, max] |
| Destinations.DestAfter | PerfHarness/src/com/ibm/uk/hursley/perfharness/DefaultDestinationFactory.java:149-167 | from an ID in [base, max], the ID after any number of calls is in [base, max] |
| Destinations.CycleStep | PerfHarness/src/com/ibm/uk/hursley/perfharness/DefaultDestinationFactory.java:155-160 | one call moves from offset j in the range to offset j + 1, wrapping at the size of the range |
| Bytes.ByteArray.WithCapacity | PerfHarness/src/com/ibm/uk/hursley/perfharness/util/ByteArray.java:32-35 | a zeroed buffer of the capacity and length 0 |
| Bytes.ByteArray.constructor | PerfHarness/src/com/ibm/uk/hursley/perfharness/util/ByteArray.java:37-40 | wraps the bytes, length their count |
| Bytes.ByteArray.EnsureCapacity | PerfHarness/src/com/ibm/uk/hursley/perfharness/util/ByteArray.java:42-50 | afterwards the buffer holds at least size bytes; a grown buffer has max(size, 2 * old) bytes and keeps the old contents; length never changes |
| Bytes.ToHexString | PerfHarness/src/com/ibm/uk/hursley/perfharness/util/ByteArray.java:59-64 | two upper-case hex digits for each byte from start up to index length (not start + length); "" when start >= length; an index outside the array throws |
| Bytes.ToHexStringAll | PerfHarness/src/com/ibm/uk/hursley/perfharness/util/ByteArray.java:56-58 | the whole array in upper-case hex |
| FastOutput.FastByteArrayOutputStream.constructor | PerfHarness/src/com/ibm/uk/hursley/perfharness/util/FastByteArrayOutputStream.java:33-35 | an empty stream over a buffer of the initial size |
| FastOutput.FastByteArrayOutputStream.Write | PerfHarness/src/com/ibm/uk/hursley/perfharness/util/FastByteArrayOutputStream.java:38-43 | appends the low byte of the int, growing the buffer as ensureCapacity does |
| FastOutput.FastByteArrayOutputStream.WriteRange | PerfHarness/src/com/ibm/uk/hursley/perfharness/util/FastByteArrayOutputStream.java:46-56 | appends b[off..off+len) and keeps the earlier contents; a bad range throws as arraycopy does |
| FastOutput.FastByteArrayOutputStream.GetFastByteArray | PerfHarness/src/com/ibm/uk/hursley/perfharness/util/FastByteArrayOutputStream.java:64-66 | the wrapped ByteArray itself |
| FastOutput.FastByteArrayOutputStream.Size | PerfHarness/src/com/ibm/uk/hursley/perfharness/util/FastByteArrayOutputStream.java:71-73 | the number of bytes written since the last reset |
| FastOutput.FastByteArrayOutputStream.Reset | PerfHarness/src/com/ibm/uk/hursley/perfharness/util/FastByteArrayOutputStream.java:79-81 | empties the stream and keeps the buffer |
| FastInput.SkipAsWritten | PerfHarness/src/com/ibm/uk/hursley/perfharness/util/FastByteArrayInputStream.java:57-66 | when position + n does not overflow a long, skip clamps n to the bytes left, returns 0 for a negative result and moves by what it returns |
| FastInput.SkipClamped | PerfHarness/src/com/ibm/uk/hursley/perfharness/util/FastByteArrayInputStream.java:57-66 | skip with the sum computed exactly: moves by min(n, bytes left) and never past the end |
| FastInput.FastByteArrayInputStream.constructor | PerfHarness/src/com/ibm/uk/hursley/perfharness/util/FastByteArrayInputStream.java:30-33 | reads the ByteArray from position 0 |
| FastInput.FastByteArrayInputStream.Read | PerfHarness/src/com/ibm/uk/hursley/perfharness/util/FastByteArrayInputStream.java:36-38 | the next byte as 0..255 and one step on, or -1 at the end without moving |
| FastInput.FastByteArrayInputStream.ReadInto | PerfHarness/src/com/ibm/uk/hursley/perfharness/util/FastByteArrayInputStream.java:40-55 | -1 at the end; 0 for len <= 0; otherwise copies min(len, available) bytes to b[off..] and advances by that many, or throws for a bad offset |
| FastInput.FastByteArrayInputStream.Skip | PerfHarness/src/com/ibm/uk/hursley/perfharness/util/FastByteArrayInputStream.java:57-66 | skip as written, long arithmetic and narrowing included; the stream stays valid, so a read can follow, and a position within the data stays within it |
| FastInput.FastByteArrayInputStream.Available | PerfHarness/src/com/ibm/uk/hursley/perfharness/util/FastByteArrayInputStream.java:68-70 | length - position |
| FastInput.FastByteArrayInputStream.Mark | PerfHarness/src/com/ibm/uk/hursley/perfharness/util/FastByteArrayInputStream.java:76-78 | remembers the position |
| FastInput.FastByteArrayInputStream.Reset | PerfHarness/src/com/ibm/uk/hursley/perfharness/util/FastByteArrayInputStream.java:80-82 | returns to the marked position |
| FastInput.SkipStaysInside | PerfHarness/src/com/ibm/uk/hursley/perfharness/util/FastByteArrayInputStream.java:57-66 | for every n, skip never makes the position negative and never moves a position within the data past its end, even when the long sum wraps |
| FastInput.SkipMaxMovesBack | PerfHarness/src/com/ibm/uk/hursley/perfharness/util/FastByteArrayInputStream.java:58-64 | as written, skip(Long.MAX_VALUE) from position p >= 1 returns Long.MAX_VALUE and moves back to p - 1 |
| FastInput.SkipMaxClampedReachesEnd | PerfHarness/src/com/ibm/uk/hursley/perfharness/util/FastByteArrayInputStream.java:57-66 | with the exact sum, skip(Long.MAX_VALUE) goes to the end and returns the bytes skipped |
| Head.HeadOutputStream.constructor | PerfHarness/src/com/ibm/uk/hursley/perfharness/HeadOutputStream.java:7-11 | offset 0 over the given buffer |
| Head.HeadOutputStream.GetOffset | PerfHarness/src/com/ibm/uk/hursley/perfharness/HeadOutputStream.java:12-14 | the offset lies between 0 and the buffer length |
| Head.HeadOutputStream.GetOverflow | PerfHarness/src/com/ibm/uk/hursley/perfharness/HeadOutputStream.java:15-17 | always false: nothing ever sets it |
| Head.HeadOutputStream.WriteAll | PerfHarness/src/com/ibm/uk/hursley/perfharness/HeadOutputStream.java:25-31 | every byte of b counts as written; the buffer holds the first bytes of everything written, up to its capacity, and the rest is dropped |
| Head.HeadOutputStream.Place | PerfHarness/src/com/ibm/uk/hursley/perfharness/HeadOutputStream.java:28-29 | System.arraycopy into the buffer at the offset, which moves past the copied bytes; the rest of the buffer is unchanged |
| Head.HeadOutputStream.WriteRange | PerfHarness/src/com/ibm/uk/hursley/perfharness/HeadOutputStream.java:33-39 | a valid range counts as written and the buffer keeps the first bytes of everything written; while there is room, a negative min(b.length, len, room) or an offset outside b throws and changes nothing |
| Head.HeadOutputStream.Write | PerfHarness/src/com/ibm/uk/hursley/perfharness/HeadOutputStream.java:41-44 | stores the low byte while there is room, else drops it |
| HexText.HexStringAt | PerfHarness/src/com/ibm/uk/hursley/perfharness/util/ByteArray.java:61-62 | characters 2i and 2i+1 of the hex text are the two digits of byte i |
| HexText.HexPair | PerfHarness/src/com/ibm/uk/hursley/perfharness/util/ByteArray.java:62 | one byte is exactly two hex digits |
| HexText.HexString | PerfHarness/src/com/ibm/uk/hursley/perfharness/util/ByteArray.java:59-64 | two digits per byte: the text is twice as long as the bytes |
| HexText.HexPairParses | MQJavaPerfHarness/src/com/ibm/uk/hursley/perfharness/mqjava/MQProvider.java:336 | parsing a byte's two hex digits in base 16 gives the byte back |
| HexText.HexStringInjective | MQJavaPerfHarness/src/com/ibm/uk/hursley/perfharness/mqjava/MQByteArrayHolder.java:54-60 | different byte sequences have different hex texts |
| CorrelId.GetHexString | MQJavaPerfHarness/src/com/ibm/uk/hursley/perfharness/mqjava/MQByteArrayHolder.java:54-60 | two lower-case hex digits per byte, in order |
| CorrelId.MQByteArrayHolder.constructor | MQJavaPerfHarness/src/com/ibm/uk/hursley/perfharness/mqjava/MQByteArrayHolder.java:20-23 | a zeroed array of the capacity, hash -1 |
| CorrelId.MQByteArrayHolder.SetData | MQJavaPerfHarness/src/com/ibm/uk/hursley/perfharness/mqjava/MQByteArrayHolder.java:24-28 | copies b over the front of the array, keeps the later bytes, and caches the hash of the whole array; a longer b throws and changes nothing |
| CorrelId.MQByteArrayHolder.ToString | MQJavaPerfHarness/src/com/ibm/uk/hursley/perfharness/mqjava/MQByteArrayHolder.java:31-34 | the hex text of the array |
| CorrelId.EqualsIffSameString | MQJavaPerfHarness/src/com/ibm/uk/hursley/perfharness/mqjava/MQByteArrayHolder.java:84-105 | two holders are equal exactly when their strings are |
| CorrelId.LastByteChangesHash | MQJavaPerfHarness/src/com/ibm/uk/hursley/perfharness/mqjava/MQByteArrayHolder.java:95-105 | arrays that differ only in the last byte have different hashes |
| CorrelId.HexOfZeros | MQJavaPerfHarness/src/com/ibm/uk/hursley/perfharness/mqjava/MQByteArrayHolder.java:54-60 | n zero bytes print as 2n zeros |
| CorrelId.IdOnePrints | MQJavaPerfHarness/src/com/ibm/uk/hursley/perfharness/mqjava/MQByteArrayHolder.java:81 | the 24-byte id ending in 1 prints as 47 zeros then 1 |
| Embedded.Encode | AMQPPerfHarness/src/com/ibm/uk/hursley/perfharness/amqp/utils/EmbeddedAction.java:81 | `getBytes` of ASCII text: one byte per character |
| Embedded.Decode | AMQPPerfHarness/src/com/ibm/uk/hursley/perfharness/amqp/utils/EmbeddedAction.java:66 | `new String(bytes)`: one character per byte |
| Embedded.SearchFrom | AMQPPerfHarness/src/com/ibm/uk/hursley/perfharness/amqp/utils/EmbeddedAction.java:64-68 | a found offset lies in [start, limit) and has the eye-catcher there |
| Embedded.Pairs | AMQPPerfHarness/src/com/ibm/uk/hursley/perfharness/amqp/utils/EmbeddedAction.java:144-150 | one `key=value` text per key, in order |
| Embedded.EmbeddedAction.constructor | AMQPPerfHarness/src/com/ibm/uk/hursley/perfharness/amqp/utils/EmbeddedAction.java:94-96 | no commands |
| Embedded.EmbeddedAction.FromText | AMQPPerfHarness/src/com/ibm/uk/hursley/perfharness/amqp/utils/EmbeddedAction.java:101-109 | the commands parsed from the text |
| Embedded.EmbeddedAction.PutCommand | AMQPPerfHarness/src/com/ibm/uk/hursley/perfharness/amqp/utils/EmbeddedAction.java:115-117 | records or overwrites one command |
| Embedded.EmbeddedAction.GetCommand | AMQPPerfHarness/src/com/ibm/uk/hursley/perfharness/amqp/utils/EmbeddedAction.java:123-125 | the argument of a known command, null exactly for an unknown one |
| Embedded.EmbeddedAction.GetCommandOr | AMQPPerfHarness/src/com/ibm/uk/hursley/perfharness/amqp/utils/EmbeddedAction.java:133-135 | the argument, or the default when the command is absent |
| Embedded.EmbeddedAction.GenerateMessage | AMQPPerfHarness/src/com/ibm/uk/hursley/perfharness/amqp/utils/EmbeddedAction.java:140-153 | the eye-catcher, the pairs joined by commas in map order, the eye-catcher |
| Embedded.IsEyeCatcher | AMQPPerfHarness/src/com/ibm/uk/hursley/perfharness/amqp/utils/EmbeddedAction.java:79-87 | compares byte by byte, false at the first difference, and throws when the buffer ends first |
| Embedded.CreateEmbeddedAction | AMQPPerfHarness/src/com/ibm/uk/hursley/perfharness/amqp/utils/EmbeddedAction.java:60-72 | the action parsed from the framed text, null without a frame, or the exception the search meets |
| Embedded.FramedBodyFound | AMQPPerfHarness/src/com/ibm/uk/hursley/perfharness/amqp/utils/EmbeddedAction.java:60-72 | a body without `$` is found whole when the closing eye-catcher starts before offset 200 |
| Embedded.LongBodyIgnored | AMQPPerfHarness/src/com/ibm/uk/hursley/perfharness/amqp/utils/EmbeddedAction.java:63-64 | a closing eye-catcher at offset 200 or later is not looked for: no action |
| Embedded.MessageRoundTrip | AMQPPerfHarness/src/com/ibm/uk/hursley/perfharness/amqp/utils/EmbeddedAction.java:140-153 | for plain keys and non-empty arguments in a message under the search limit, the generated message is found and parses back to the same commands |
| Embedded.ParseOfPairs | AMQPPerfHarness/src/com/ibm/uk/hursley/perfharness/amqp/utils/EmbeddedAction.java:101-109 | the joined pairs parse back to the commands they came from |
| Embedded.PairSplits | AMQPPerfHarness/src/com/ibm/uk/hursley/perfharness/amqp/utils/EmbeddedAction.java:104-106 | `k=v` with no `=` in either and v non-empty splits into exactly k and v |
| Embedded.EmptyTextParses | AMQPPerfHarness/src/com/ibm/uk/hursley/perfharness/amqp/utils/EmbeddedAction.java:101-109 | an empty body records no command |
| Embedded.ParsedCommandsWellFormed | AMQPPerfHarness/src/com/ibm/uk/hursley/perfharness/amqp/utils/EmbeddedAction.java:101-109 | every recorded key and argument is free of `,` and `=`, and every argument is non-empty |
| Embedded.EyeCatcherAt | AMQPPerfHarness/src/com/ibm/uk/hursley/perfharness/amqp/utils/EmbeddedAction.java:79-87 | true exactly when the four bytes at the offset are the eye-catcher; it throws only when the buffer ends first |
| Embedded.ActionText | AMQPPerfHarness/src/com/ibm/uk/hursley/perfharness/amqp/utils/EmbeddedAction.java:60-72 | a body is found only when the buffer starts with the eye-catcher; it is the text between that one and a later eye-catcher that starts before min(200, length) |
| Embedded.PutItem | AMQPPerfHarness/src/com/ibm/uk/hursley/perfharness/amqp/utils/EmbeddedAction.java:104-106 | no command is removed, and a new or changed command comes from an item that splits at '=' into exactly that key and argument |
| Embedded.PutItems | AMQPPerfHarness/src/com/ibm/uk/hursley/perfharness/amqp/utils/EmbeddedAction.java:103-107 | every new or changed command comes from one of the items that splits into exactly that key and argument |
| Embedded.ParseCommands | AMQPPerfHarness/src/com/ibm/uk/hursley/perfharness/amqp/utils/EmbeddedAction.java:101-109 | every recorded command comes from a comma-separated item that splits into exactly that key and argument |
| Embedded.Message | AMQPPerfHarness/src/com/ibm/uk/hursley/perfharness/amqp/utils/EmbeddedAction.java:140-153 | the message starts and ends with the eye-catcher |
| RollingAvg.Highest | PerfHarness/src/com/ibm/uk/hursley/perfharness/stats/RollingAvgStats.java:255-258 | the largest of the sums (one of them), or MIN_VALUE when there are none |
| RollingAvg.CountNewOperations | PerfHarness/src/com/ibm/uk/hursley/perfharness/stats/RollingAvgStats.java:204-215 | the int-wrapped total of curr[j] - prev[j] over the shared threads plus curr[j] for new ones |
| RollingAvg.AddGrowth | PerfHarness/src/com/ibm/uk/hursley/perfharness/stats/RollingAvgStats.java:206-210 | the first loop sums the differences over the shared prefix |
| RollingAvg.AddNewThreads | PerfHarness/src/com/ibm/uk/hursley/perfharness/stats/RollingAvgStats.java:212-214 | the second loop adds the counts of the new threads |
| RollingAvg.RollingAvgStats.constructor | PerfHarness/src/com/ibm/uk/hursley/perfharness/stats/RollingAvgStats.java:79-93 | an empty ring of numSamples slots (none for a negative count) and a first reading |
| RollingAvg.RollingAvgStats.NumNewOperations | PerfHarness/src/com/ibm/uk/hursley/perfharness/stats/RollingAvgStats.java:201-217 | takes the new reading and returns its growth over the previous one |
| RollingAvg.RollingAvgStats.Run | PerfHarness/src/com/ibm/uk/hursley/perfharness/stats/RollingAvgStats.java:246-260 | replaces the oldest sample, keeps sum equal to the wrapped total of the ring, moves the pointer on cyclically, and raises maxSum to the highest sum; with no slots it throws |
| RollingAvg.RollingAvgStats.TakeSample | PerfHarness/src/com/ibm/uk/hursley/perfharness/stats/RollingAvgStats.java:249-252 | the slot at the pointer gets the new count and the pointer advances modulo the ring size |
| RollingAvg.RollingAvgStats.Track | PerfHarness/src/com/ibm/uk/hursley/perfharness/stats/RollingAvgStats.java:253-258 | maxSum becomes max(maxSum, sum), the highest sum of the period |
| RollingAvg.RollingAvgStats.Replace | PerfHarness/src/com/ibm/uk/hursley/perfharness/stats/RollingAvgStats.java:249-251 | after one slot is replaced, sum is still the wrapped total of the ring |
| RollingAvg.RollingAvgStats.NotifyMeasurementPeriod | PerfHarness/src/com/ibm/uk/hursley/perfharness/stats/RollingAvgStats.java:237-242 | maxSum starts again from MIN_VALUE; the ring is untouched |
| RollingAvg.SumReplace | PerfHarness/src/com/ibm/uk/hursley/perfharness/stats/RollingAvgStats.java:249-251 | replacing one element changes the total by the difference |
| RollingAvg.RingStep | PerfHarness/src/com/ibm/uk/hursley/perfharness/stats/RollingAvgStats.java:250-252 | after a sample, each slot still holds the sample as old as its distance behind the pointer |
| RollingAvg.SharedIsDifference | PerfHarness/src/com/ibm/uk/hursley/perfharness/stats/RollingAvgStats.java:206-210 | the first loop's total is the difference of the two readings' totals |
| RollingAvg.NewOpsIsGrowth | PerfHarness/src/com/ibm/uk/hursley/perfharness/stats/RollingAvgStats.java:201-217 | the new operations are the new total minus the old total over the shared threads |
| RollingAvg.NewOps | PerfHarness/src/com/ibm/uk/hursley/perfharness/stats/RollingAvgStats.java:201-217 | two equal readings give no new operations |
| RollingAvg.SharedSelf | PerfHarness/src/com/ibm/uk/hursley/perfharness/stats/RollingAvgStats.java:206-210 | the first loop over a reading and itself totals 0 |
| MsgSize.LastDigit | PerfHarness/src/com/ibm/uk/hursley/perfharness/stats/FileStats.java:249-251 | the backward walk over non-digits stops at or before its start |
| MsgSize.LastNonDigit | PerfHarness/src/com/ibm/uk/hursley/perfharness/stats/FileStats.java:253-255 | the backward walk over digits stops at or before its start |
| MsgSize.MsgSizeOf | PerfHarness/src/com/ibm/uk/hursley/perfharness/stats/FileStats.java:246-248 | "" for null or empty input |
| MsgSize.ExtractMsgSize | PerfHarness/src/com/ibm/uk/hursley/perfharness/stats/FileStats.java:245-264 | the two loops compute MsgSizeOf |
| MsgSize.DigitRun | PerfHarness/src/com/ibm/uk/hursley/perfharness/stats/FileStats.java:249-256 | the first walk stops at the last digit at or before i (or at -1), the end index is two past it, and the start index is one past where the walk over the digits before it stops |
| MsgSize.SizeAndUnit | PerfHarness/src/com/ibm/uk/hursley/perfharness/stats/FileStats.java:249-261 | the last run of digits and the character after it |
| MsgSize.SizeAt | PerfHarness/src/com/ibm/uk/hursley/perfharness/stats/FileStats.java:249-261 | the same, stated by position in the name |
| MsgSize.DigitsAtEndThrow | PerfHarness/src/com/ibm/uk/hursley/perfharness/stats/FileStats.java:252-261 | a name ending in a digit throws, because the end index passes the length |
| MsgSize.NoDigitsFirstChar | PerfHarness/src/com/ibm/uk/hursley/perfharness/stats/FileStats.java:249-261 | a name with no digit yields its first character |
| MsgSize.MessageFileExample | PerfHarness/src/com/ibm/uk/hursley/perfharness/stats/FileStats.java:252 | `msg1K.xml` yields `1K` |
| MsgSize.SizeBetweenCases | PerfHarness/src/com/ibm/uk/hursley/perfharness/stats/FileStats.java:258-263 | the guarded substring throws exactly when the guard passes and the end lies past the string; it returns "" when the guard fails, and never more than the string |
| MQMessages.BigString | MQJavaPerfHarness/src/com/ibm/uk/hursley/perfharness/mqjava/MQProvider.java:319-329 | the filler has exactly the requested length |
| MQMessages.BigStringCycles | MQJavaPerfHarness/src/com/ibm/uk/hursley/perfharness/mqjava/MQProvider.java:319-329 | it starts at A, stays within A..z, reaches z at 57 and repeats every 58 characters |
| MQMessages.MakeBigString | MQJavaPerfHarness/src/com/ibm/uk/hursley/perfharness/mqjava/MQProvider.java:319-329 | the loop builds the filler; a negative size throws |
| MQMessages.ConvertStringToByte | MQJavaPerfHarness/src/com/ibm/uk/hursley/perfharness/mqjava/MQProvider.java:330-342 | the loop computes the conversion as written |
| MQMessages.Store | MQJavaPerfHarness/src/com/ibm/uk/hursley/perfharness/mqjava/MQProvider.java:335-336 | one turn of the loop: a substring past the end throws; a parsed pair lands at i / 2, or throws past the 24-byte id |
| MQMessages.StoreAt | MQJavaPerfHarness/src/com/ibm/uk/hursley/perfharness/mqjava/MQProvider.java:336 | the loop body on the array computes Store and leaves the array unchanged when it throws |
| MQMessages.PadOdd | MQJavaPerfHarness/src/com/ibm/uk/hursley/perfharness/mqjava/MQProvider.java:338-339 | the odd-length branch keeps the 24-byte id length |
| MQMessages.FillAsWritten | MQJavaPerfHarness/src/com/ibm/uk/hursley/perfharness/mqjava/MQProvider.java:335-339 | the loop as written keeps the 24-byte id length when it succeeds |
| MQMessages.FillPairs | MQJavaPerfHarness/src/com/ibm/uk/hursley/perfharness/mqjava/MQProvider.java:335-339 | the loop over whole pairs keeps the 24-byte id length when it succeeds |
| MQMessages.EvenLengthAgrees | MQJavaPerfHarness/src/com/ibm/uk/hursley/perfharness/mqjava/MQProvider.java:335-336 | on an even length the loop as written and the intended one agree |
| MQMessages.OddLengthThrows | MQJavaPerfHarness/src/com/ibm/uk/hursley/perfharness/mqjava/MQProvider.java:335-339 | as written, every odd-length value throws in the loop, before the padding branch |
| MQMessages.HexRoundTrip | MQJavaPerfHarness/src/com/ibm/uk/hursley/perfharness/mqjava/MQProvider.java:330-342 | the lower- or upper-case hex text of up to 24 bytes converts back to those bytes followed by zeros, both as written and as intended |
| MQMessages.OddLengthExample | MQJavaPerfHarness/src/com/ibm/uk/hursley/perfharness/mqjava/MQProvider.java:338-339 | "abc" throws as written, and is ab c0 with the padding reached |
| MQMessages.TooLongOverruns | MQJavaPerfHarness/src/com/ibm/uk/hursley/perfharness/mqjava/MQProvider.java:335-336 | more than 24 bytes' worth of hex digits, in either case, overruns the id |
| MQMessages.ConvertAsWritten | MQJavaPerfHarness/src/com/ibm/uk/hursley/perfharness/mqjava/MQProvider.java:330-342 | as written, a converted id has 24 bytes, and every odd-length value throws |
| MQMessages.ConvertStringToBytes | MQJavaPerfHarness/src/com/ibm/uk/hursley/perfharness/mqjava/MQProvider.java:330-342 | with the loop stopped before a lone last digit, a converted id has 24 bytes |
| MQMessages.HexSpells | MQJavaPerfHarness/src/com/ibm/uk/hursley/perfharness/mqjava/MQProvider.java:335-336 | the lower-case and the upper-case hex text of any bytes read back pair by pair through parseInt in base 16 and the byte cast |
| MQMessages.StorePair | MQJavaPerfHarness/src/com/ibm/uk/hursley/perfharness/mqjava/MQProvider.java:335-336 | a pair that reads as b stores b at position k and moves on by two characters |
| MQMessages.MsgFileSelector.GetMsgFileToUse | MQJavaPerfHarness/src/com/ibm/uk/hursley/perfharness/mqjava/MQProvider.java:196-204 | the k-th call returns k mod the number of files, or 0 when there are none |
| MQMessages.MsgFileSelector.constructor | MQJavaPerfHarness/src/com/ibm/uk/hursley/perfharness/mqjava/MQProvider.java:32 | no call made yet, the first file next |
| TcpIpProvider.MessageIndex | HTTPPerfHarness/src/com/ibm/uk/hursley/perfharness/tcpip/TCPIPProviderBase.java:60-73 | throws exactly when a pattern other than PRIME meets no messages; for non-negative inputs the index is in range; PRIME stays on the last message once the iteration reaches it |
| TcpIpProvider.CycleRepeats | HTTPPerfHarness/src/com/ibm/uk/hursley/perfharness/tcpip/TCPIPProviderBase.java:69-72 | CYCLE comes round to the same message every n iterations |
| TcpIpProvider.LoadMessageFromFile | HTTPPerfHarness/src/com/ibm/uk/hursley/perfharness/tcpip/TCPIPProviderBase.java:91-95 | an empty file name gives an empty message without reading anything |
| TcpIpProvider.PortRotation.constructor | HTTPPerfHarness/src/com/ibm/uk/hursley/perfharness/tcpip/TCPIPProviderBase.java:37-39 | the current port starts at the first port |
| TcpIpProvider.PortRotation.AfterConnect | HTTPPerfHarness/src/com/ibm/uk/hursley/perfharness/tcpip/TCPIPProviderBase.java:117-125 | with a range above 1 whose last port fits an int, the port moves up one and back to the first after the last; with range 1 or less, or a last port that overflows, it stays the first port; after k connections the port is k mod range places up |
| TcpIpProvider.LastPort | HTTPPerfHarness/src/com/ibm/uk/hursley/perfharness/tcpip/TCPIPProviderBase.java:121 | port + range - 1, which wraps below the first port when it overflows |
| TcpIpProvider.LastPortWraps | HTTPPerfHarness/src/com/ibm/uk/hursley/perfharness/tcpip/TCPIPProviderBase.java:147 | the last port is int arithmetic's port + range - 1 |
| TcpIpProvider.PortRotation.Rotates | HTTPPerfHarness/src/com/ibm/uk/hursley/perfharness/tcpip/TCPIPProviderBase.java:118-124 | when the ports rotate, the last port is port + range - 1 without wrapping |
| AmqpClient.PreferredNames | AMQPPerfHarness/src/com/ibm/uk/hursley/perfharness/amqp/utils/BlockingJavaClient.java:529-537 | the preferred name of each mode, in declaration order |
| AmqpClient.Options | AMQPPerfHarness/src/com/ibm/uk/hursley/perfharness/amqp/utils/BlockingJavaClient.java:529-537 | "none,auto,manual,confirm-after-sent" |
| AmqpClient.FirstMatch | AMQPPerfHarness/src/com/ibm/uk/hursley/perfharness/amqp/utils/BlockingJavaClient.java:552-556 | a found mode has the searched name; nothing is found exactly when no mode has it |
| AmqpClient.GetValue | AMQPPerfHarness/src/com/ibm/uk/hursley/perfharness/amqp/utils/BlockingJavaClient.java:550-558 | the first mode whose name is the text lower-cased and without '-' and '_', or null |
| AmqpClient.DropSeparators | AMQPPerfHarness/src/com/ibm/uk/hursley/perfharness/amqp/utils/BlockingJavaClient.java:551 | no '-' or '_' remains |
| AmqpClient.MatchesDistinct | AMQPPerfHarness/src/com/ibm/uk/hursley/perfharness/amqp/utils/BlockingJavaClient.java:515-518 | no two modes share a name |
| AmqpClient.NamesFound | AMQPPerfHarness/src/com/ibm/uk/hursley/perfharness/amqp/utils/BlockingJavaClient.java:550-558 | each mode is found under its own name and under its preferred name |
| AmqpClient.SeparatorIgnored | AMQPPerfHarness/src/com/ibm/uk/hursley/perfharness/amqp/utils/BlockingJavaClient.java:551 | a '-' or '_' anywhere in the text does not change the lookup |
| AmqpClient.CaseIgnored | AMQPPerfHarness/src/com/ibm/uk/hursley/perfharness/amqp/utils/BlockingJavaClient.java:551 | the case of the text does not change the lookup |
| AmqpClient.PropertyOrNull | AMQPPerfHarness/src/com/ibm/uk/hursley/perfharness/amqp/utils/BlockingJavaClient.java:481 | a value exactly when the name is set |
| AmqpClient.ReadAutoConfirm | AMQPPerfHarness/src/com/ibm/uk/hursley/perfharness/amqp/utils/BlockingJavaClient.java:454-465 | null or empty gives null; an unknown name throws TypedPropertyException and only then; "none" gives null; otherwise the named mode |
| AmqpClient.GetInteger | AMQPPerfHarness/src/com/ibm/uk/hursley/perfharness/amqp/utils/BlockingJavaClient.java:478-498 | null when absent or empty; a value read is the parsed int within [min, max]; anything else throws TypedPropertyException |
| AmqpClient.GetIntegerOfInt | AMQPPerfHarness/src/com/ibm/uk/hursley/perfharness/amqp/utils/BlockingJavaClient.java:478-498 | an int in decimal is read back, and refused exactly when outside the bounds |
| AmqpClient.ReadTransferParameters | AMQPPerfHarness/src/com/ibm/uk/hursley/perfharness/amqp/utils/BlockingJavaClient.java:400-411 | a mode that needs confirmation is accepted only with QOS AT_LEAST_ONCE; an unset "ac" throws; the share name is "gr" or null |
| AmqpClient.ManualAtMostOnceRefused | AMQPPerfHarness/src/com/ibm/uk/hursley/perfharness/amqp/utils/BlockingJavaClient.java:407-410 | manual confirmation with QOS 0 is refused |
| AmqpClient.ManualAtLeastOnceAccepted | AMQPPerfHarness/src/com/ibm/uk/hursley/perfharness/amqp/utils/BlockingJavaClient.java:400-411 | manual confirmation with QOS 1 is accepted, with nothing else set |
| AmqpClient.AtLeastOnceAccepted | AMQPPerfHarness/src/com/ibm/uk/hursley/perfharness/amqp/utils/BlockingJavaClient.java:400-411 | any mode with QOS 1 and nothing else set gives that mode and AT_LEAST_ONCE |
| AmqpClient.ConnectionNeverLost | AMQPPerfHarness/src/com/ibm/uk/hursley/perfharness/amqp/utils/BlockingJavaClient.java:311-316 | as written, connectionLost is false in every state |
| AmqpClient.ConnectionLostStates | AMQPPerfHarness/src/com/ibm/uk/hursley/perfharness/amqp/utils/BlockingJavaClient.java:311-316 | the intended test holds exactly in RETRYING, STOPPING and STOPPED, and differs from the written one in RETRYING |
| AmqpClient.RequiresConfirmation | AMQPPerfHarness/src/com/ibm/uk/hursley/perfharness/amqp/utils/BlockingJavaClient.java:507-510 | MANUAL and CONFIRM_AFTER_SENT require confirmation; NONE and AUTO do not |
| AmqpClient.SearchValue | AMQPPerfHarness/src/com/ibm/uk/hursley/perfharness/amqp/utils/BlockingJavaClient.java:551 | no '-' or '_' remains, and the text never grows |
| AmqpClient.ConnectionLostAsWritten | AMQPPerfHarness/src/com/ibm/uk/hursley/perfharness/amqp/utils/BlockingJavaClient.java:311-316 | as written, connectionLost holds only where the intended test does |
| AmqpClient.ConnectionLost | AMQPPerfHarness/src/com/ibm/uk/hursley/perfharness/amqp/utils/BlockingJavaClient.java:311-316 | the intended test never holds for a started client |
| Selectors.SingleSelectorShape | JMSPerfHarness/src/com/ibm/uk/hursley/perfharness/jms/r11/Subscriber.java:312-314 | the fixed prefix, the id in decimal, one closing quote |
| Selectors.SingleSelectorReadsBack | JMSPerfHarness/src/com/ibm/uk/hursley/perfharness/jms/r11/Subscriber.java:312-314 | the id reads back from between the prefix and the quote |
| Selectors.SingleSelectorInjective | JMSPerfHarness/src/com/ibm/uk/hursley/perfharness/jms/r11/Subscriber.java:312-314 | different ids give different selectors |
| Selectors.SelectorIds | JMSPerfHarness/src/com/ibm/uk/hursley/perfharness/jms/r11/Subscriber.java:293-298 | one id per selector requested |
| Selectors.SelectorIdsCycle | JMSPerfHarness/src/com/ibm/uk/hursley/perfharness/jms/r11/Subscriber.java:293-298 | the k-th id is (start + k) mod totalNumber, where the start is currentNumber when it is in range and 0 otherwise |
| Selectors.SelectorsOf | JMSPerfHarness/src/com/ibm/uk/hursley/perfharness/jms/r11/Subscriber.java:298 | the single selector of each id, in order |
| Selectors.MultipleSelectorStringAsWritten | JMSPerfHarness/src/com/ibm/uk/hursley/perfharness/jms/r11/Subscriber.java:291-305 | as written: "" for no selectors, an ArithmeticException for totalNumber 0, else the as-written text of the ids |
| Selectors.MultipleSelectorString | JMSPerfHarness/src/com/ibm/uk/hursley/perfharness/jms/r11/Subscriber.java:291-305 | the same with " OR " between consecutive selectors |
| Selectors.OneIdIsSingleSelector | JMSPerfHarness/src/com/ibm/uk/hursley/perfharness/jms/r11/Subscriber.java:297-302 | one selector is the single selector, in both versions |
| Selectors.AsWrittenShape | JMSPerfHarness/src/com/ibm/uk/hursley/perfharness/jms/r11/Subscriber.java:297-302 | as written, two or more ids start with the first two selectors run together and end with " OR " |
| Selectors.IntendedShape | JMSPerfHarness/src/com/ibm/uk/hursley/perfharness/jms/r11/Subscriber.java:297-302 | the intended text starts with the first selector and ends with a closing quote |
| Selectors.OrMisplaced | JMSPerfHarness/src/com/ibm/uk/hursley/perfharness/jms/r11/Subscriber.java:297-302 | for two or more ids the text as written is never the intended one |
| Selectors.SingleSelector | JMSPerfHarness/src/com/ibm/uk/hursley/perfharness/jms/r11/Subscriber.java:312-314 | the selector is longer than its fixed prefix and closing quote |
| Selectors.StartId | JMSPerfHarness/src/com/ibm/uk/hursley/perfharness/jms/r11/Subscriber.java:293-294 | with a positive total the first id is in [0, total), and it is currentNumber when that is in range |
| Selectors.AsWrittenText | JMSPerfHarness/src/com/ibm/uk/hursley/perfharness/jms/r11/Subscriber.java:297-302 | as written, the text is empty exactly when there are no ids |
| Selectors.IntendedText | JMSPerfHarness/src/com/ibm/uk/hursley/perfharness/jms/r11/Subscriber.java:297-302 | with " OR " between selectors, one id gives its single selector |
| Selectors.AsWrittenStarts | JMSPerfHarness/src/com/ibm/uk/hursley/perfharness/jms/r11/Subscriber.java:297-302 | as written, two or more ids start with the first two selectors run together, then " OR " |
| Selectors.SameLength | JMSPerfHarness/src/com/ibm/uk/hursley/perfharness/jms/r11/Subscriber.java:297-302 | the text as written and the intended one have the same length |

## Left out

- File and console I/O: the script's directory walk is a parameter (a list of
  files with their directory path, name and contents, in walk order), and
  its printing is an output string. The Java streams' `IOException`s are not
  modelled.
- Python dictionary order is insertion order, kept as a list next to each map.
  `HashMap` iteration order (`EmbeddedAction.generateMessage`) is a parameter
  listing the keys.
- Character encodings: the message bytes of `EmbeddedAction` are ASCII text,
  one byte per character, and the platform default charset is not modelled.
  Case folding is ASCII only.
- Randomness: `DefaultDestinationFactory`'s random mode takes the drawn number
  as a parameter. `generateRandomBytes` is not modelled.
- Clocks, timers and threads: `RollingAvgStats.Sample.run` is a method called
  once per sample. The readings of the worker threads (`updateValues`) are a
  parameter. Display, printing and rate calculations are floating point and
  are not modelled. `synchronized`, `AtomicInteger` and the static singletons
  are modelled as plain single-threaded state. The static fields of
  `DefaultDestinationFactory` are the fields of one object.
- `Config` lookups are parameters: the values `registerConfig` reads, the
  property map of `TransferParameters` (read as `getString` does, trimmed),
  the message pattern and message count of `TCPIPProviderBase`, and the first
  port and range of its connections.
- `TypedProperties`: `getDouble`, `putDouble`, `getClazz`, `load`, `store`
  and `toString` are left out (floating point, reflection, I/O). `size`,
  `isEmpty`, `containsKey` and the other `Map` delegations are the map's own
  operations.
- `ApplicationPropertyMap.entrySet` is left out. `readConfigFile` takes the
  loaded properties, because the file is I/O.
- `TCPIPProviderBase.loadMessageFromFile` takes the result of reading a named
  file as a parameter. `getSocket` and `getSSLSocket` are modelled by their
  port rotation only.
- `BlockingJavaClient`:
  - the client connection, sending, receiving and the callbacks are left out
    (library code not shown);
  - `connectionLost` is modelled on the client state, which is a parameter;
  - `getSendOptions` and `getSubscribeOptions` are left out (builders of the
    client library).
- `MQByteArrayHolder.main` is the source's own test. Its expectations
  are stated as lemmas (`IdOnePrints`, `EqualsIffSameString`,
  `LastByteChangesHash`).
- `Subscriber` uses the `NumberSequencer` of its own package. JMSPerfHarness
  `jms/r11/NumberSequencer.java` is not part of this model. The Jakarta copy
  of `NumberSequencer` stands in for it.
- FastInput.FastByteArrayInputStream.ReadInto: its contract covers the
  argument checks of `System.arraycopy` only as far as the offset and the
  destination length. A negative `len` that survives clamping returns 0 as in
  the source.
- Sequencing.CountersExact: states the counters' meaning only while no counter
  overflows an int. Beyond that the model wraps them as Java does, but no
  lemma describes the wrapped values.
- Head.HeadOutputStream.WriteRange: does not model a bad offset when the
  buffer is already full. The source copies nothing then and does not check
  the offset, and neither does the model.
- Bytes.ByteArray.WithCapacity: requires a non-negative capacity. Java
  refuses a negative one with NegativeArraySizeException, which the model
  does not represent, because a Dafny array cannot have a negative length.
- FastOutput.FastByteArrayOutputStream.constructor: requires a non-negative
  initial size, for the same reason.
- CorrelId.MQByteArrayHolder.constructor: requires a non-negative capacity,
  for the same reason.
- JavaLang.IsDigit, JavaLang.DigitValue, JavaLang.ParseInteger: only the ASCII
  digits count. `Character.isDigit` and `Integer.parseInt` also accept the
  decimal digits of other Unicode scripts, so a name or value written with
  such digits is read differently here (`MsgSize.MsgSizeOf`, the typed
  getters, the hex conversion).
- PropertiesSummary.SplitLines: the file contents are the text as Python's
  text mode delivers it. The translation of "\r\n" and "\r" line endings to
  "\n" is not modelled, so a file is assumed to be given with "\n" endings.

## Findings

| source | as written | input that shows it | evidently intended | confidence | as-written member | corrected member |
|---|---|---|---|---|---|---|
| JMSPerfHarness/src/com/ibm/uk/hursley/perfharness/jms/r11/Subscriber.java:297-302 | " OR " is appended after every selector except the first | individualTotal = 2, totalNumber = 2, currentNumber = 0 gives `…property0'…property1' OR ` | selectors separated by " OR " | high (not executed) | Selectors.OrMisplaced | Selectors.MultipleSelectorString |
| AMQPPerfHarness/src/com/ibm/uk/hursley/perfharness/amqp/utils/BlockingJavaClient.java:311-316 | the state must equal RETRYING and STOPPED and STOPPING at once | any state, e.g. RETRYING, gives false | RETRYING or STOPPED or STOPPING | high (not executed) | AmqpClient.ConnectionNeverLost | AmqpClient.ConnectionLostStates |
| MQJavaPerfHarness/src/com/ibm/uk/hursley/perfharness/mqjava/MQProvider.java:335-339 | the loop runs `substring(i, i + 2)` while i < length, so an odd length throws before the padding branch | "abc" throws at `substring(2, 4)` | the loop stops before a lone last digit, which is padded with 0 | high (not executed) | MQMessages.OddLengthThrows | MQMessages.OddLengthExample |
| PerfHarness/doc/generatePropertiesSummary.py:22-23 | the xtra check is indented at the level of the `for`, so it runs once, on the last property | two complete properties, each with an xtra attribute: only the second's xtra line is printed | each property's xtra line under its entry | medium (not executed) | PropertiesSummary.XtraCheckedOnlyOnLast | PropertiesSummary.EntriesWithXtraSplit |
| PerfHarness/src/com/ibm/uk/hursley/perfharness/util/FastByteArrayInputStream.java:58-64 | `position + n` overflows a long for a huge n, so the clamp is skipped and `position += n` narrows to an int | position 1, skip(Long.MAX_VALUE) returns Long.MAX_VALUE and moves to position 0 | clamp to the bytes left and move to the end | medium (not executed) | FastInput.SkipMaxMovesBack | FastInput.SkipMaxClampedReachesEnd |

Both versions of the selector text are modelled. `MultipleSelectorStringAsWritten`
follows the code as written and `MultipleSelectorString` is the corrected
text. `OrMisplaced` proves the two differ for two or more ids, and
`SameLength` proves they have the same length.

The script's model follows the script as written. `FileReport`, `Summary`
and `SummaryGenerator.PrintAttributes` print the xtra line of the last
property only (`ReportAsWritten`). The corrected `Report`, which prints each
property's xtra line under its entry, stays beside it, and
`XtraCheckedOnlyOnLast` relates the two for every store.

The as-written versions (`MultipleSelectorStringAsWritten`,
`ConnectionLostAsWritten`, `ConvertAsWritten`, `SkipAsWritten`) stay beside
the corrected ones. `MQMessages.ConvertStringToByte` and
`FastInput.FastByteArrayInputStream.Skip` model the code exactly as written.
The intended behaviour of those two is `ConvertStringToBytes` and
`SkipClamped`.
