/**
 * The documentation generator: walks a source tree, reads every `.properties` file,
 * joins continued lines, recognises class descriptions and `property.attribute=value`
 * lines, and prints one block per file.
 *
 * Python's two regular expressions are modelled by the positions where they can
 * match; the greedy expression picks the lexicographically greatest choice of
 * positions, the lazy one the least.  Python's `.` matches every character but
 * '\n', and `$` matches at the end or before a final '\n'.
 */
module PropertiesSummary {
  import opened JavaLang

  // ---------------------------------------------------------------------------
  // The class-description expression `com.ibm.uk.hursley.+\.(.+).desc.?=([\S\s]+)`,
  // applied with re.match (anchored at the start of the line).

  const CLASS_PREFIX: string := "com.ibm.uk.hursley"

  /** The first 18 characters match `com.ibm.uk.hursley`, whose three dots are wildcards. */
  predicate PrefixMatches(line: string) {
    |line| >= 18 &&
    forall i :: 0 <= i < 18 ==>
      if i == 3 || i == 7 || i == 10 then line[i] != '\n' else line[i] == CLASS_PREFIX[i]
  }

  /**
   * The class-description expression matches with the escaped dot at `a`, group 1
   * ending at `g` (the wildcard before `desc`), `o` characters for `.?` and the
   * `=` at g + 5 + o; group 2 is everything after the `=`.
   */
  predicate DescAt(line: string, a: int, g: int, o: int) {
    PrefixMatches(line) && 19 <= a && a + 2 <= g && 0 <= o <= 1 && g + 6 + o < |line| &&
    '\n' !in line[..g + 5 + o] && line[a] == '.' && line[g + 1..g + 5] == "desc" &&
    line[g + 5 + o] == '='
  }

  /** Backtracking over group 1 and `.?` for a fixed escaped dot: longest first. */
  function SearchDescG(line: string, a: int, g: int): (r: Option<(int, int)>)
    decreases g - a
    ensures r.Some? ==> a + 2 <= r.value.0 <= g && DescAt(line, a, r.value.0, r.value.1)
    ensures r.Some? ==> forall g2, o2 | a + 2 <= g2 <= g && DescAt(line, a, g2, o2) ::
      g2 < r.value.0 || (g2 == r.value.0 && o2 <= r.value.1)
    ensures r.None? ==> forall g2, o2 | a + 2 <= g2 <= g :: !DescAt(line, a, g2, o2)
  {
    if g < a + 2 then None
    else if DescAt(line, a, g, 1) then Some((g, 1))
    else if DescAt(line, a, g, 0) then Some((g, 0))
    else SearchDescG(line, a, g - 1)
  }

  /** Backtracking over the greedy `.+` after `hursley`: longest first. */
  function SearchDescA(line: string, a: int): (r: Option<(int, int, int)>)
    decreases a
    ensures r.Some? ==> r.value.0 <= a && DescAt(line, r.value.0, r.value.1, r.value.2)
    ensures r.Some? ==> forall a2, g2, o2 | a2 <= a && DescAt(line, a2, g2, o2) ::
      a2 < r.value.0 || (a2 == r.value.0 && (g2 < r.value.1 || (g2 == r.value.1 && o2 <= r.value.2)))
    ensures r.None? ==> forall a2, g2, o2 | a2 <= a :: !DescAt(line, a2, g2, o2)
  {
    if a < 19 then None
    else match SearchDescG(line, a, |line|)
      case Some((g, o)) => Some((a, g, o))
      case None => SearchDescA(line, a - 1)
  }

  /** re.match of the class-description expression: groups 1 and 2, if it matches. */
  function ClassDescMatch(line: string): (r: Option<(string, string)>)
    ensures r.None? <==> forall a, g, o :: !DescAt(line, a, g, o)
  {
    match SearchDescA(line, |line|)
    case Some((a, g, o)) => Some((line[a + 1..g], line[g + 6 + o..]))
    case None => None
  }

  // ---------------------------------------------------------------------------
  // The attribute expression `(.+?)\.(.+?)=([\S\s]+)`, applied with search.

  /**
   * The attribute expression matches from `s`, with the escaped dot at `p` and the
   * `=` at `q`: group 1 is line[s..p], group 2 line[p+1..q], group 3 the rest.
   */
  predicate AttrAt(line: string, s: int, p: int, q: int) {
    0 <= s < p && p + 2 <= q && q + 1 < |line| && '\n' !in line[s..q] &&
    line[p] == '.' && line[q] == '='
  }

  /** The lazy group 2: the shortest choice from q on. */
  function SearchAttrQ(line: string, s: int, p: int, q: int): (r: Option<int>)
    decreases |line| - q
    ensures r.Some? ==> q <= r.value && AttrAt(line, s, p, r.value)
    ensures r.Some? ==> forall q2 | q <= q2 < r.value :: !AttrAt(line, s, p, q2)
    ensures r.None? ==> forall q2 | q <= q2 :: !AttrAt(line, s, p, q2)
  {
    if q + 1 >= |line| then None
    else if AttrAt(line, s, p, q) then Some(q)
    else SearchAttrQ(line, s, p, q + 1)
  }

  /** The lazy group 1: the shortest choice from p on. */
  function SearchAttrP(line: string, s: int, p: int): (r: Option<(int, int)>)
    decreases |line| - p
    ensures r.Some? ==> p <= r.value.0 && AttrAt(line, s, r.value.0, r.value.1)
    ensures r.Some? ==> forall p2, q2 | p <= p2 && AttrAt(line, s, p2, q2) ::
      r.value.0 < p2 || (r.value.0 == p2 && r.value.1 <= q2)
    ensures r.None? ==> forall p2, q2 | p <= p2 :: !AttrAt(line, s, p2, q2)
  {
    if p >= |line| then None
    else match SearchAttrQ(line, s, p, p + 2)
      case Some(q) => Some((p, q))
      case None => SearchAttrP(line, s, p + 1)
  }

  /** re.search tries every start position from the left. */
  function SearchAttrS(line: string, s: nat): (r: Option<(int, int, int)>)
    decreases |line| - s
    ensures r.Some? ==> s <= r.value.0 && AttrAt(line, r.value.0, r.value.1, r.value.2)
    ensures r.Some? ==> forall s2, p2, q2 | s <= s2 && AttrAt(line, s2, p2, q2) ::
      r.value.0 < s2 || (r.value.0 == s2 && (r.value.1 < p2 || (r.value.1 == p2 && r.value.2 <= q2)))
    ensures r.None? ==> forall s2, p2, q2 | s <= s2 :: !AttrAt(line, s2, p2, q2)
  {
    if s >= |line| then None
    else match SearchAttrP(line, s, s + 1)
      case Some((p, q)) => Some((s, p, q))
      case None => SearchAttrS(line, s + 1)
  }

  /** re.search of the attribute expression: groups 1, 2 and 3, if it matches. */
  function AttributeMatch(line: string): (r: Option<(string, string, string)>)
    ensures r.None? <==> forall s, p, q :: !AttrAt(line, s, p, q)
  {
    match SearchAttrS(line, 0)
    case Some((s, p, q)) => Some((line[s..p], line[p + 1..q], line[q + 1..]))
    case None => None
  }

  lemma AttributeLine(prop: string, attr: string, value: string)
    requires prop != [] && '.' !in prop && '\n' !in prop
    requires attr != [] && '=' !in attr && '\n' !in attr
    requires value != []
    ensures AttributeMatch(prop + "." + attr + "=" + value) == Some((prop, attr, value))
  {
    var line := prop + "." + attr + "=" + value;
    var p, q := |prop|, |prop| + 1 + |attr|;
    assert line[..p] == prop && line[p + 1..q] == attr && line[q + 1..] == value;
    assert line[0..q] == prop + "." + attr;
    assert AttrAt(line, 0, p, q);
    var m := SearchAttrS(line, 0);
    var (s', p', q') := m.value;
    assert s' == 0;
    forall k | 0 <= k < p ensures line[k] != '.' {
      assert line[k] == prop[k];
    }
    forall k | p + 1 <= k < q ensures line[k] != '=' {
      assert line[k] == attr[k - p - 1];
    }
  }

  lemma ClassDescriptionLine(pkg: string, cls: string, text: string)
    requires pkg != [] && '\n' !in pkg
    requires cls != [] && '.' !in cls && '\n' !in cls
    requires text != [] && '=' !in text
    ensures ClassDescMatch(CLASS_PREFIX + pkg + "." + cls + ".desc=" + text) == Some((cls, text))
  {
    var line := CLASS_PREFIX + pkg + "." + cls + ".desc=" + text;
    var a, g := 18 + |pkg|, 18 + |pkg| + 1 + |cls|;
    assert line[..18] == CLASS_PREFIX;
    assert PrefixMatches(line) by {
      forall i | 0 <= i < 18 ensures line[i] == CLASS_PREFIX[i] {
        assert line[i] == line[..18][i];
      }
    }
    assert line[..g + 5] == CLASS_PREFIX + pkg + "." + cls + ".desc";
    assert line[g + 1..g + 5] == "desc";
    assert line[a + 1..g] == cls && line[g + 6..] == text;
    assert DescAt(line, a, g, 0);
    var (a', g', o') := SearchDescA(line, |line|).value;
    forall k | g + 6 <= k < |line| ensures line[k] != '=' {
      assert line[k] == text[k - g - 6];
    }
    forall k | a < k < g ensures line[k] != '.' {
      assert line[k] == cls[k - a - 1];
    }
    assert g' + 5 + o' <= g + 5;
    assert a' == a;
    assert g' == g && o' == 0;
  }

  // ---------------------------------------------------------------------------
  // Reading lines and joining continuations

  /** The position just after the next '\n' from `pos`, or the end of the content. */
  function LineEnd(content: string, pos: nat): (e: nat)
    requires pos <= |content|
    ensures pos <= e <= |content| && (pos < |content| ==> pos < e)
    ensures forall i :: pos <= i < e - 1 ==> content[i] != '\n'
    ensures e < |content| ==> content[e - 1] == '\n'
    decreases |content| - pos
  {
    if pos == |content| then pos
    else if content[pos] == '\n' then pos + 1
    else LineEnd(content, pos + 1)
  }

  function Concat(parts: seq<string>): string {
    if parts == [] then "" else parts[0] + Concat(parts[1..])
  }

  /**
   * The physical lines file.readline() returns one after another: each ends just
   * after a '\n', except possibly the last.
   */
  function SplitLines(content: string): (r: seq<string>)
    ensures Concat(r) == content
    ensures forall i :: 0 <= i < |r| ==> r[i] != ""
    ensures forall i :: 0 <= i < |r| - 1 ==> r[i][|r[i]| - 1] == '\n'
    ensures forall i, j :: 0 <= i < |r| && 0 <= j < |r[i]| - 1 ==> r[i][j] != '\n'
    decreases |content|
  {
    if content == "" then []
    else
      var e := LineEnd(content, 0);
      var rest := SplitLines(content[e..]);
      assert content == content[..e] + content[e..];
      assert forall j :: 0 <= j < e - 1 ==> content[..e][j] != '\n';
      [content[..e]] + rest
  }

  /** file.readline() after `i` lines have been read: "" at the end of the file. */
  function ReadLine(lines: seq<string>, i: nat): string {
    if i < |lines| then lines[i] else ""
  }

  /** The read position after one more readline(). */
  function Advance(lines: seq<string>, i: nat): nat {
    if i < |lines| then i + 1 else i
  }

  /** re.search(r"\\$", line): a backslash at the end, or just before a final '\n'. */
  predicate EndsWithMarker(line: string) {
    (|line| >= 1 && line[|line| - 1] == '\\') ||
    (|line| >= 2 && line[|line| - 2] == '\\' && line[|line| - 1] == '\n')
  }

  /** The characters rstrip("\\\nn") removes: backslash, newline and the letter n. */
  predicate IsContinuationStrip(c: char) { c == '\\' || c == '\n' || c == 'n' }

  /** str.rstrip("\\\nn"), applied to a line before its continuation is appended. */
  function StripContinuation(s: string): string {
    if s != [] && IsContinuationStrip(s[|s| - 1]) then StripContinuation(s[..|s| - 1]) else s
  }

  /** The result is the longest prefix that does not end in one of the stripped characters. */
  lemma {:induction false} StripContinuationIsRstrip(s: string)
    ensures var r := StripContinuation(s);
      |r| <= |s| && r == s[..|r|] &&
      (r != [] ==> !IsContinuationStrip(r[|r| - 1])) &&
      (forall i :: |r| <= i < |s| ==> IsContinuationStrip(s[i]))
  {
    if s != [] && IsContinuationStrip(s[|s| - 1]) {
      var t := s[..|s| - 1];
      StripContinuationIsRstrip(t);
      var r := StripContinuation(t);
      assert s[..|r|] == t[..|r|];
      forall i | |r| <= i < |s| ensures IsContinuationStrip(s[i]) {
        if i < |t| { assert s[i] == t[i]; }
      }
    }
  }

  /** str.rstrip("\\\n"), applied to group 3. */
  function StripValue(s: string): (r: string)
    ensures |r| <= |s| && r == s[..|r|]
    ensures r != [] ==> r[|r| - 1] != '\\' && r[|r| - 1] != '\n'
    ensures forall i :: |r| <= i < |s| ==> s[i] == '\\' || s[i] == '\n'
  {
    if s != [] && (s[|s| - 1] == '\\' || s[|s| - 1] == '\n') then StripValue(s[..|s| - 1]) else s
  }

  /** Python's str.isspace(): the characters rstrip() with no argument removes. */
  predicate IsPyWhitespace(c: char) {
    ('\t' <= c <= '\r') || ('\U{1C}' <= c <= ' ') || c == '\U{85}' || c == '\U{A0}' ||
    c == '\U{1680}' || ('\U{2000}' <= c <= '\U{200A}') || c == '\U{2028}' || c == '\U{2029}' ||
    c == '\U{202F}' || c == '\U{205F}' || c == '\U{3000}'
  }

  /** str.rstrip(), applied to groups 1 and 2. */
  function StripWhitespace(s: string): (r: string)
    ensures |r| <= |s| && r == s[..|r|]
    ensures r != [] ==> !IsPyWhitespace(r[|r| - 1])
    ensures forall i :: |r| <= i < |s| ==> IsPyWhitespace(s[i])
  {
    if s != [] && IsPyWhitespace(s[|s| - 1]) then StripWhitespace(s[..|s| - 1]) else s
  }

  /**
   * The inner while loop: while the line ends with a marker, strip the marker
   * characters and append a space and the next physical line.
   */
  function Continue(lines: seq<string>, line: string, i: nat): (r: (string, nat))
    requires i <= |lines|
    ensures i <= r.1 <= |lines|
    ensures !EndsWithMarker(r.0)
    decreases |lines| - i, if EndsWithMarker(line) then 1 else 0
  {
    if !EndsWithMarker(line) then (line, i)
    else
      var joined := StripContinuation(line) + " " + ReadLine(lines, i);
      assert i == |lines| ==> joined[|joined| - 1] == ' ';
      Continue(lines, joined, Advance(lines, i))
  }

  /** The logical lines from the `i`th physical line on, after joining continuations. */
  function LogicalLinesFrom(lines: seq<string>, i: nat): seq<string>
    requires i <= |lines|
    decreases |lines| - i
  {
    var raw := ReadLine(lines, i);
    if raw == "" then []
    else
      var (line, j) := Continue(lines, raw, i + 1);
      [line] + LogicalLinesFrom(lines, j)
  }

  function LogicalLines(content: string): seq<string> { LogicalLinesFrom(SplitLines(content), 0) }

  /** A piece of a continued line, whose end rstrip("\\\nn") leaves alone. */
  predicate ContinuablePiece(p: string) {
    p != [] && !IsContinuationStrip(p[|p| - 1])
  }

  /** Lines i, i+1, ... hold the pieces, each with its marker, and then the last piece. */
  predicate ContinuedAt(lines: seq<string>, i: nat, pieces: seq<string>, last: string) {
    i + |pieces| < |lines| && lines[i + |pieces|] == last &&
    forall k :: 0 <= k < |pieces| ==> lines[i + k] == pieces[k] + "\\\n"
  }

  lemma StripMarker(acc: string)
    requires acc != [] && !IsContinuationStrip(acc[|acc| - 1])
    ensures StripContinuation(acc + "\\\n") == acc
  {
    var l := acc + "\\\n";
    assert l[..|l| - 1] == acc + "\\";
    assert (acc + "\\")[..|acc|] == acc;
    assert StripContinuation(acc) == acc;
    assert StripContinuation(acc + "\\") == acc;
  }

  lemma MarkerAfterSpace(x: string, y: string)
    requires x != [] && x[|x| - 1] == ' ' && y != []
    ensures EndsWithMarker(x + y) == EndsWithMarker(y)
  {
    var z := x + y;
    assert z[|z| - 1] == y[|y| - 1];
    if |y| >= 2 {
      assert z[|z| - 2] == y[|y| - 2];
    } else {
      assert z[|z| - 2] == ' ';
    }
  }

  lemma JoinCons(x: string, rest: seq<string>)
    requires rest != []
    ensures Join([x] + rest, " ") == x + " " + Join(rest, " ")
  {
    assert ([x] + rest)[1..] == rest;
  }

  /** One turn of the inner loop, when the line ends with a marker. */
  lemma ContinueStep(lines: seq<string>, line: string, i: nat)
    requires i < |lines| && EndsWithMarker(line)
    ensures Continue(lines, line, i) == Continue(lines, StripContinuation(line) + " " + lines[i], i + 1)
  {
  }

  lemma MarkerEnds(acc: string)
    ensures EndsWithMarker(acc + "\\\n")
  {
    var l := acc + "\\\n";
    assert l[|l| - 2] == '\\' && l[|l| - 1] == '\n';
  }

  /** The pieces after the first are continued from the next line on. */
  lemma ContinuedAtNext(lines: seq<string>, i: nat, pieces: seq<string>, last: string)
    requires pieces != [] && ContinuedAt(lines, i, pieces, last)
    ensures lines[i] == pieces[0] + "\\\n" && ContinuedAt(lines, i + 1, pieces[1..], last)
  {
    assert lines[i + 0] == pieces[0] + "\\\n";
    forall k | 0 <= k < |pieces[1..]| ensures lines[i + 1 + k] == pieces[1..][k] + "\\\n" {
      assert lines[i + (k + 1)] == pieces[k + 1] + "\\\n";
    }
  }

  /** Joining the pieces and the last piece, split off the first piece. */
  lemma JoinFront(pieces: seq<string>, last: string)
    requires pieces != []
    ensures Join(pieces + [last], " ") == pieces[0] + " " + Join(pieces[1..] + [last], " ")
  {
    assert pieces + [last] == [pieces[0]] + (pieces[1..] + [last]);
    JoinCons(pieces[0], pieces[1..] + [last]);
  }

  lemma Regroup(acc: string, p: string, rest: string)
    ensures acc + " " + p + " " + rest == acc + " " + (p + " " + rest)
  {
  }

  /** The marker on `acc` joins the last piece, which ends the logical line. */
  lemma TailLast(lines: seq<string>, i: nat, last: string, acc: string)
    requires i < |lines| && lines[i] == last && last != "" && !EndsWithMarker(last)
    requires ContinuablePiece(acc)
    ensures Continue(lines, acc + "\\\n", i) == (acc + " " + last, i + 1)
  {
    StripMarker(acc);
    MarkerEnds(acc);
    ContinueStep(lines, acc + "\\\n", i);
    MarkerAfterSpace(acc + " ", last);
  }

  /** The marker on `acc` joins a piece that carries its own marker. */
  lemma TailPiece(lines: seq<string>, i: nat, piece: string, acc: string)
    requires i < |lines| && lines[i] == piece + "\\\n" && ContinuablePiece(piece)
    requires ContinuablePiece(acc)
    ensures ContinuablePiece(acc + " " + piece)
    ensures Continue(lines, acc + "\\\n", i) == Continue(lines, acc + " " + piece + "\\\n", i + 1)
  {
    StripMarker(acc);
    MarkerEnds(acc);
    ContinueStep(lines, acc + "\\\n", i);
    Assoc3(acc + " ", piece, "\\\n");
  }

  /** The first piece of a continuation: what ContinuedTail needs to go on from the next line. */
  lemma ContinuedTailStep(lines: seq<string>, i: nat, pieces: seq<string>, last: string, acc: string, line: string, next: string)
    requires pieces != [] && forall k :: 0 <= k < |pieces| ==> ContinuablePiece(pieces[k])
    requires ContinuedAt(lines, i, pieces, last) && ContinuablePiece(acc)
    requires line == acc + "\\\n" && next == acc + " " + pieces[0] + "\\\n"
    ensures ContinuablePiece(acc + " " + pieces[0]) && ContinuedAt(lines, i + 1, pieces[1..], last)
    ensures forall k :: 0 <= k < |pieces[1..]| ==> ContinuablePiece(pieces[1..][k])
    ensures Continue(lines, line, i) == Continue(lines, next, i + 1)
    ensures acc + " " + pieces[0] + " " + Join(pieces[1..] + [last], " ") == acc + " " + Join(pieces + [last], " ")
  {
    var tail := pieces[1..];
    ContinuedAtNext(lines, i, pieces, last);
    TailPiece(lines, i, pieces[0], acc);
    forall k | 0 <= k < |tail| ensures ContinuablePiece(tail[k]) {
      assert tail[k] == pieces[k + 1];
    }
    JoinFront(pieces, last);
    Regroup(acc, pieces[0], Join(tail + [last], " "));
  }

  lemma JoinOne(last: string)
    ensures Join([last], " ") == last
  {
  }

  /** The line `acc` with its marker, continued by the last piece alone. */
  lemma ContinuedTailLast(lines: seq<string>, i: nat, pieces: seq<string>, last: string, acc: string, line: string)
    requires pieces == [] && last != "" && !EndsWithMarker(last) && ContinuedAt(lines, i, pieces, last)
    requires ContinuablePiece(acc) && line == acc + "\\\n"
    ensures Continue(lines, line, i).0 == acc + " " + Join(pieces + [last], " ")
    ensures Continue(lines, line, i).1 == i + |pieces| + 1
  {
    TailLast(lines, i, last, acc);
    assert pieces + [last] == [last];
    JoinOne(last);
  }

  /** The line `acc` with its marker, continued by the pieces and the last piece. */
  lemma {:induction false} ContinuedTail(lines: seq<string>, i: nat, pieces: seq<string>, last: string, acc: string, line: string)
    requires forall k :: 0 <= k < |pieces| ==> ContinuablePiece(pieces[k])
    requires last != "" && !EndsWithMarker(last) && ContinuedAt(lines, i, pieces, last)
    requires ContinuablePiece(acc) && line == acc + "\\\n"
    ensures Continue(lines, line, i).0 == acc + " " + Join(pieces + [last], " ")
    ensures Continue(lines, line, i).1 == i + |pieces| + 1
    decreases |pieces|
  {
    if pieces == [] {
      ContinuedTailLast(lines, i, pieces, last, acc, line);
    } else {
      var acc' := acc + " " + pieces[0];
      ContinuedTailStep(lines, i, pieces, last, acc, line, acc' + "\\\n");
      ContinuedTail(lines, i + 1, pieces[1..], last, acc', acc' + "\\\n");
    }
  }

  /**
   * A continued line: pieces on consecutive physical lines, each but the last
   * ending in a backslash and newline, read as one logical line with one space
   * between the pieces, and reading goes on after the last piece.
   */
  lemma ContinuedLine(lines: seq<string>, i: nat, pieces: seq<string>, last: string)
    requires forall k :: 0 <= k < |pieces| ==> ContinuablePiece(pieces[k])
    requires last != "" && !EndsWithMarker(last) && ContinuedAt(lines, i, pieces, last)
    ensures LogicalLinesFrom(lines, i)
      == [Join(pieces + [last], " ")] + LogicalLinesFrom(lines, i + |pieces| + 1)
  {
    if pieces == [] {
      assert Continue(lines, last, i + 1) == (last, i + 1);
      assert Join([last], " ") == last;
    } else {
      ContinuedAtNext(lines, i, pieces, last);
      ContinuedTail(lines, i + 1, pieces[1..], last, pieces[0], pieces[0] + "\\\n");
      JoinFront(pieces, last);
      assert Continue(lines, lines[i], i + 1) == (Join(pieces + [last], " "), i + |pieces| + 1);
    }
  }

  /** Without continuation markers the logical lines are the physical lines. */
  lemma {:induction false} PlainLines(lines: seq<string>, i: nat)
    requires i <= |lines|
    requires forall k :: i <= k < |lines| ==> lines[k] != "" && !EndsWithMarker(lines[k])
    ensures LogicalLinesFrom(lines, i) == lines[i..]
    decreases |lines| - i
  {
    if i < |lines| {
      assert Continue(lines, lines[i], i + 1) == (lines[i], i + 1);
      PlainLines(lines, i + 1);
      assert lines[i..] == [lines[i]] + lines[i + 1..];
    }
  }

  /**
   * rstrip("\\\nn") also strips the letter n, so a continued word ending in n
   * loses it: "open\" followed by "door" reads as "ope door".
   */
  lemma ContinuationDropsTrailingN()
    ensures LogicalLinesFrom(["open\\\n", "door"], 0) == ["ope door"]
  {
    assert StripContinuation("open\\") == "ope" by {
      assert "open\\"[..4] == "open";
      assert "open"[..3] == "ope";
    }
    assert StripContinuation("open\\\n") == "ope" by {
      assert "open\\\n"[..5] == "open\\";
    }
    var lines := ["open\\\n", "door"];
    assert "ope" + " " + ReadLine(lines, 1) == "ope door";
    assert !EndsWithMarker("ope door");
    assert Continue(lines, "open\\\n", 1) == Continue(lines, "ope door", 2);
    assert LogicalLinesFrom(lines, 2) == [];
  }

  // ---------------------------------------------------------------------------
  // Recognising lines

  datatype LineKind =
    | ClassDescription(name: string, description: string)
    | Attribute(prop: string, attr: string, value: string)
    | Other

  /**
   * The class-description expression is tried first; otherwise the attribute
   * expression, whose groups are stripped as the script strips them.
   */
  function Classify(line: string): (r: LineKind)
    ensures r.ClassDescription? <==> ClassDescMatch(line).Some?
    ensures r.Other? <==> ClassDescMatch(line).None? && AttributeMatch(line).None?
  {
    match ClassDescMatch(line)
    case Some((name, desc)) => ClassDescription(name, desc)
    case None =>
      match AttributeMatch(line)
      case Some((k1, k2, v)) => Attribute(StripWhitespace(k1), StripWhitespace(k2), StripValue(v))
      case None => Other
  }

  // ---------------------------------------------------------------------------
  // The per-class store: a dictionary of dictionaries, in insertion order

  /** A Python dict of dicts: the maps and the order in which the outer keys were inserted. */
  datatype Props = Props(attrs: map<string, map<string, string>>, order: seq<string>)

  const EmptyProps: Props := Props(map[], [])

  /** Every key is listed once in the insertion order, and only keys are listed. */
  predicate WellFormed(p: Props) {
    (forall k :: k in p.attrs ==> k in p.order) && (forall k :: k in p.order ==> k in p.attrs) &&
    (forall i, j :: 0 <= i < j < |p.order| ==> p.order[i] != p.order[j])
  }

  function Lookup(p: Props, prop: string, attr: string): Option<string> {
    if prop in p.attrs && attr in p.attrs[prop] then Some(p.attrs[prop][attr]) else None
  }

  /** store_attribute: creates the inner dict on first use, then overwrites one entry. */
  function Store(p: Props, prop: string, attr: string, value: string): (r: Props)
    ensures WellFormed(p) ==> WellFormed(r)
    ensures forall a, b :: Lookup(r, a, b) == if a == prop && b == attr then Some(value) else Lookup(p, a, b)
    ensures r.order == if prop in p.attrs then p.order else p.order + [prop]
  {
    if prop in p.attrs then Props(p.attrs[prop := p.attrs[prop][attr := value]], p.order)
    else Props(p.attrs[prop := map[attr := value]], p.order + [prop])
  }

  /** The store after one logical line: only an attribute line changes it. */
  function StoreLine(p: Props, line: string): (r: Props)
    ensures WellFormed(p) ==> WellFormed(r)
  {
    match Classify(line)
    case Attribute(prop, attr, value) => Store(p, prop, attr, value)
    case _ => p
  }

  /** The store after the lines, in order. */
  function StoreLines(p: Props, lines: seq<string>): (r: Props)
    ensures WellFormed(p) ==> WellFormed(r)
  {
    if lines == [] then p else StoreLine(StoreLines(p, lines[..|lines| - 1]), lines[|lines| - 1])
  }

  /** The line at `j` stores `value` under (prop, attr). */
  predicate StoresAt(lines: seq<string>, j: int, prop: string, attr: string, value: string)
    requires 0 <= j < |lines|
  {
    Classify(lines[j]) == Attribute(prop, attr, value)
  }

  predicate StoresKey(line: string, prop: string, attr: string) {
    Classify(line).Attribute? && Classify(line).prop == prop && Classify(line).attr == attr
  }

  /** A later value for the same property and attribute overwrites an earlier one. */
  lemma {:induction false} LastValueWins(p: Props, lines: seq<string>, j: nat, prop: string, attr: string, value: string)
    requires j < |lines| && StoresAt(lines, j, prop, attr, value)
    requires forall k :: j < k < |lines| ==> !StoresKey(lines[k], prop, attr)
    ensures Lookup(StoreLines(p, lines), prop, attr) == Some(value)
    decreases |lines|
  {
    var init := lines[..|lines| - 1];
    if j < |lines| - 1 {
      LastValueWins(p, init, j, prop, attr, value);
      assert !StoresKey(lines[|lines| - 1], prop, attr);
    }
  }

  /** Without an attribute line for (prop, attr), its entry is whatever it was. */
  lemma {:induction false} UnstoredKeepsValue(p: Props, lines: seq<string>, prop: string, attr: string)
    requires forall k :: 0 <= k < |lines| ==> !StoresKey(lines[k], prop, attr)
    ensures Lookup(StoreLines(p, lines), prop, attr) == Lookup(p, prop, attr)
  {
    if lines != [] {
      UnstoredKeepsValue(p, lines[..|lines| - 1], prop, attr);
      assert !StoresKey(lines[|lines| - 1], prop, attr);
    }
  }

  // ---------------------------------------------------------------------------
  // print_attributes

  /** One property's line pair; a missing desc, type or dflt raises KeyError, in that order. */
  function EntryText(name: string, a: map<string, string>): (r: Result<string>)
    ensures r.Err? <==> "desc" !in a || "type" !in a || "dflt" !in a
    ensures r.Err? ==> r.error == KeyError(if "desc" !in a then "desc" else if "type" !in a then "type" else "dflt")
  {
    if "desc" !in a then Err(KeyError("desc"))
    else if "type" !in a then Err(KeyError("type"))
    else if "dflt" !in a then Err(KeyError("dflt"))
    else Ok(name + "\t" + a["desc"] + "\n\t Type =" + a["type"] + " (default: " + a["dflt"] + ")\n")
  }

  /** The optional indented "xtra" line. */
  function XtraText(a: map<string, string>): string {
    if "xtra" in a then "      " + a["xtra"] + "\n" else ""
  }

  /**
   * The for loop of print_attributes: the entries in insertion order, stopping at
   * the first KeyError with what was printed before it.
   */
  function Entries(attrs: map<string, map<string, string>>, keys: seq<string>): (r: (string, Option<Exception>))
    requires forall k :: k in keys ==> k in attrs
    ensures r.1.Some? ==> r.1.value.KeyError?
  {
    if keys == [] then ("", None)
    else
      var prev := Entries(attrs, keys[..|keys| - 1]);
      if prev.1.Some? then prev
      else match EntryText(keys[|keys| - 1], attrs[keys[|keys| - 1]])
        case Err(e) => (prev.0, Some(e))
        case Ok(l) => (prev.0 + l, None)
  }

  const NO_PROPERTIES: string := "No properties for this class\n"

  /**
   * print_attributes as written: the xtra check sits after the loop, so it runs
   * once, on the attributes of the last property.
   */
  function ReportAsWritten(p: Props): (r: (string, Option<Exception>))
    requires WellFormed(p)
    ensures p.order == [] ==> r == (NO_PROPERTIES, None)
    ensures r.1.Some? ==> r.1.value.KeyError?
  {
    if p.order == [] then (NO_PROPERTIES, None)
    else
      var entries := Entries(p.attrs, p.order);
      if entries.1.Some? then entries else (entries.0 + XtraText(p.attrs[p.order[|p.order| - 1]]), None)
  }

  /** Each entry followed by its own xtra line. */
  function EntriesWithXtra(attrs: map<string, map<string, string>>, keys: seq<string>): (r: (string, Option<Exception>))
    requires forall k :: k in keys ==> k in attrs
    ensures r.1.Some? ==> r.1.value.KeyError?
  {
    if keys == [] then ("", None)
    else
      var prev := EntriesWithXtra(attrs, keys[..|keys| - 1]);
      if prev.1.Some? then prev
      else match EntryText(keys[|keys| - 1], attrs[keys[|keys| - 1]])
        case Err(e) => (prev.0, Some(e))
        case Ok(l) => (prev.0 + l + XtraText(attrs[keys[|keys| - 1]]), None)
  }

  /** print_attributes with the xtra check inside the loop, for every property. */
  function Report(p: Props): (r: (string, Option<Exception>))
    requires WellFormed(p)
    ensures p.order == [] ==> r == (NO_PROPERTIES, None)
    ensures r.1.Some? ==> r.1.value.KeyError?
  {
    if p.order == [] then (NO_PROPERTIES, None) else EntriesWithXtra(p.attrs, p.order)
  }

  /**
   * Both loops raise exactly when some property lacks desc, type or dflt, and
   * they raise the same KeyError.
   */
  lemma {:induction false} EntriesRaise(attrs: map<string, map<string, string>>, keys: seq<string>)
    requires forall k :: k in keys ==> k in attrs
    ensures Entries(attrs, keys).1.None? <==> forall i :: 0 <= i < |keys| ==> EntryText(keys[i], attrs[keys[i]]).Ok?
    ensures EntriesWithXtra(attrs, keys).1 == Entries(attrs, keys).1
  {
    if keys != [] {
      var init := keys[..|keys| - 1];
      EntriesRaise(attrs, init);
      assert forall i :: 0 <= i < |init| ==> init[i] == keys[i];
    }
  }

  /** The combined length of the keys' xtra lines. */
  function XtraLength(attrs: map<string, map<string, string>>, keys: seq<string>): nat
    requires forall k :: k in keys ==> k in attrs
  {
    if keys == [] then 0 else XtraLength(attrs, keys[..|keys| - 1]) + |XtraText(attrs[keys[|keys| - 1]])|
  }

  /** Without a KeyError, the per-property report is longer by exactly the xtra lines. */
  lemma {:induction false} XtraAddsLength(attrs: map<string, map<string, string>>, keys: seq<string>)
    requires forall k :: k in keys ==> k in attrs
    requires Entries(attrs, keys).1.None?
    ensures |EntriesWithXtra(attrs, keys).0| == |Entries(attrs, keys).0| + XtraLength(attrs, keys)
  {
    if keys != [] {
      EntriesRaise(attrs, keys[..|keys| - 1]);
      XtraAddsLength(attrs, keys[..|keys| - 1]);
    }
  }

  /** A key with an xtra attribute makes the xtra lines non-empty. */
  lemma {:induction false} XtraLengthPositive(attrs: map<string, map<string, string>>, keys: seq<string>, i: nat)
    requires forall k :: k in keys ==> k in attrs
    requires i < |keys| && "xtra" in attrs[keys[i]]
    ensures XtraLength(attrs, keys) > 0
  {
    if i < |keys| - 1 {
      XtraLengthPositive(attrs, keys[..|keys| - 1], i);
    }
  }

  /** With no xtra attribute among the keys, the two loops print the same. */
  lemma {:induction false} NoXtraSameEntries(attrs: map<string, map<string, string>>, keys: seq<string>)
    requires forall k :: k in keys ==> k in attrs
    requires forall i :: 0 <= i < |keys| ==> "xtra" !in attrs[keys[i]]
    ensures EntriesWithXtra(attrs, keys) == Entries(attrs, keys)
  {
    if keys != [] {
      var init := keys[..|keys| - 1];
      assert forall i :: 0 <= i < |init| ==> init[i] == keys[i];
      NoXtraSameEntries(attrs, init);
      var last := keys[|keys| - 1];
      assert XtraText(attrs[last]) == "";
      match EntryText(last, attrs[last]) {
        case Err(_) =>
        case Ok(l) => assert Entries(attrs, init).0 + l + "" == Entries(attrs, init).0 + l;
      }
    }
  }

  /**
   * As written, only the last property's xtra line is printed: when every property
   * is complete, the report is the entries followed by the last property's xtra
   * line, and it equals the per-property report exactly when no other property
   * has an xtra attribute.
   */
  lemma XtraCheckedOnlyOnLast(p: Props)
    requires WellFormed(p) && p.order != []
    requires forall i :: 0 <= i < |p.order| ==> EntryText(p.order[i], p.attrs[p.order[i]]).Ok?
    ensures ReportAsWritten(p) == (Entries(p.attrs, p.order).0 + XtraText(p.attrs[p.order[|p.order| - 1]]), None)
    ensures ReportAsWritten(p) == Report(p) <==> forall i :: 0 <= i < |p.order| - 1 ==> "xtra" !in p.attrs[p.order[i]]
  {
    var keys := p.order;
    var init, last := keys[..|keys| - 1], keys[|keys| - 1];
    assert forall i :: 0 <= i < |init| ==> init[i] == keys[i];
    EntriesRaise(p.attrs, keys);
    EntriesRaise(p.attrs, init);
    var prev, prevX := Entries(p.attrs, init), EntriesWithXtra(p.attrs, init);
    var l, x := EntryText(last, p.attrs[last]).value, XtraText(p.attrs[last]);
    assert Entries(p.attrs, keys) == (prev.0 + l, None);
    assert ReportAsWritten(p) == (prev.0 + l + x, None);
    assert Report(p) == (prevX.0 + l + x, None);
    if forall i :: 0 <= i < |keys| - 1 ==> "xtra" !in p.attrs[keys[i]] {
      NoXtraSameEntries(p.attrs, init);
    } else {
      var i :| 0 <= i < |keys| - 1 && "xtra" in p.attrs[keys[i]];
      XtraLengthPositive(p.attrs, init, i);
      XtraAddsLength(p.attrs, init);
      assert |ReportAsWritten(p).0| < |Report(p).0|;
    }
  }

  /** One more complete entry extends the as-written loop's text by its line pair. */
  lemma EntriesNext(attrs: map<string, map<string, string>>, keys: seq<string>, i: nat)
    requires forall k :: k in keys ==> k in attrs
    requires i < |keys| && Entries(attrs, keys[..i]).1.None? && EntryText(keys[i], attrs[keys[i]]).Ok?
    ensures Entries(attrs, keys[..i + 1]) == (Entries(attrs, keys[..i]).0 + EntryText(keys[i], attrs[keys[i]]).value, None)
  {
    assert keys[..i + 1][..i] == keys[..i];
  }

  /** Once an entry raises KeyError, the later keys add nothing to the as-written loop. */
  lemma {:induction false} EntriesError(attrs: map<string, map<string, string>>, k1: seq<string>, k2: seq<string>)
    requires forall k :: k in k1 + k2 ==> k in attrs
    requires Entries(attrs, k1).1.Some?
    ensures Entries(attrs, k1 + k2) == Entries(attrs, k1)
    decreases |k2|
  {
    if k2 == [] {
      assert k1 + k2 == k1;
    } else {
      var init := k2[..|k2| - 1];
      assert (k1 + k2)[..|k1 + k2| - 1] == k1 + init;
      EntriesError(attrs, k1, init);
    }
  }

  /** The as-written report when the entry at index i is the first to raise. */
  lemma ReportRaisesAt(p: Props, i: nat)
    requires WellFormed(p) && i < |p.order|
    requires Entries(p.attrs, p.order[..i]).1.None?
    requires EntryText(p.order[i], p.attrs[p.order[i]]).Err?
    ensures ReportAsWritten(p) ==
      (Entries(p.attrs, p.order[..i]).0, Some(EntryText(p.order[i], p.attrs[p.order[i]]).error))
  {
    assert p.order[..i + 1][..i] == p.order[..i];
    EntriesError(p.attrs, p.order[..i + 1], p.order[i + 1..]);
    assert p.order[..i + 1] + p.order[i + 1..] == p.order;
  }

  /** The as-written report when no entry raises: the entries and the last property's xtra line. */
  lemma ReportCompletes(p: Props)
    requires WellFormed(p) && p.order != []
    requires Entries(p.attrs, p.order[..|p.order|]).1.None?
    ensures ReportAsWritten(p) ==
      (Entries(p.attrs, p.order[..|p.order|]).0 + XtraText(p.attrs[p.order[|p.order| - 1]]), None)
  {
    assert p.order[..|p.order|] == p.order;
  }

  lemma Assoc3<T>(a: seq<T>, b: seq<T>, c: seq<T>)
    ensures a + b + c == a + (b + c)
  {
  }

  lemma Assoc(a: string, b: string, c: string, d: string)
    ensures (a + b) + c + d == a + (b + c + d)
  {
  }

  /** Once an entry raises KeyError, the later keys add nothing. */
  lemma {:induction false} EntriesWithXtraError(attrs: map<string, map<string, string>>, k1: seq<string>, k2: seq<string>)
    requires forall k :: k in k1 + k2 ==> k in attrs
    requires EntriesWithXtra(attrs, k1).1.Some?
    ensures EntriesWithXtra(attrs, k1 + k2) == EntriesWithXtra(attrs, k1)
    decreases |k2|
  {
    if k2 == [] {
      assert k1 + k2 == k1;
    } else {
      var init := k2[..|k2| - 1];
      assert (k1 + k2)[..|k1 + k2| - 1] == k1 + init;
      EntriesWithXtraError(attrs, k1, init);
    }
  }

  /** With the check per property, the report of the keys is the report of any split of them. */
  lemma {:induction false} EntriesWithXtraSplit(attrs: map<string, map<string, string>>, k1: seq<string>, k2: seq<string>)
    requires forall k :: k in k1 + k2 ==> k in attrs
    requires EntriesWithXtra(attrs, k1).1.None?
    ensures EntriesWithXtra(attrs, k1 + k2).0 == EntriesWithXtra(attrs, k1).0 + EntriesWithXtra(attrs, k2).0
    ensures EntriesWithXtra(attrs, k1 + k2).1 == EntriesWithXtra(attrs, k2).1
    decreases |k2|
  {
    if k2 == [] {
      assert k1 + k2 == k1;
    } else {
      var init, last := k2[..|k2| - 1], k2[|k2| - 1];
      assert (k1 + k2)[..|k1 + k2| - 1] == k1 + init;
      assert (k1 + k2)[|k1 + k2| - 1] == last;
      EntriesWithXtraSplit(attrs, k1, init);
      var prefix := EntriesWithXtra(attrs, k1).0;
      var whole := EntriesWithXtra(attrs, k1 + init);
      var part := EntriesWithXtra(attrs, init);
      assert whole.0 == prefix + part.0 && whole.1 == part.1;
      if part.1.None? {
        match EntryText(last, attrs[last])
        case Err(e) =>
          assert EntriesWithXtra(attrs, k2) == (part.0, Some(e));
          assert EntriesWithXtra(attrs, k1 + k2) == (whole.0, Some(e));
        case Ok(l) =>
          var x := XtraText(attrs[last]);
          assert EntriesWithXtra(attrs, k2) == (part.0 + l + x, None);
          assert EntriesWithXtra(attrs, k1 + k2) == (whole.0 + l + x, None);
          Assoc(prefix, part.0, l, x);
      }
    }
  }

  // ---------------------------------------------------------------------------
  // The walk

  /** A file found by os.walk: the directories below the root, its name and its text. */
  datatype FileEntry = FileEntry(dirs: seq<string>, name: string, content: string)

  const DELINEATOR: string :=
    "\n+---------------------------------------------------------------------------------------------------------------------------------+\n"

  /** The walk prunes every directory named "bin", so nothing below one is visited. */
  predicate Visited(e: FileEntry)
    ensures Visited(e) <==> "bin" !in e.dirs
  {
    forall i :: 0 <= i < |e.dirs| ==> e.dirs[i] != "bin"
  }

  /** re.search(r"\.properties$", name) and "build" not in name. */
  predicate IsPropertiesFile(name: string) {
    (EndsWith(name, ".properties") || EndsWith(name, ".properties\n")) && !Contains(name, "build")
  }

  /** A file the script reads: outside every "bin" directory, a .properties name without "build". */
  predicate Selected(e: FileEntry)
    ensures Selected(e) ==> "bin" !in e.dirs && !Contains(e.name, "build")
  {
    Visited(e) && IsPropertiesFile(e.name)
  }

  /** fileName.split('.')[0]. */
  function ClassName(name: string): (r: string)
    ensures '.' !in r
    ensures |r| <= |name| && r == name[..|r|] && (|r| < |name| ==> name[|r|] == '.')
  {
    var k := IndexOf(name, '.');
    if k == -1 then name else name[..k]
  }

  /** os.path.normpath(dirpath + "/" + fileName) for a path the walk built. */
  function FilePath(root: string, e: FileEntry): string {
    Join([root] + e.dirs + [e.name], "/")
  }

  function WarningText(described: string, path: string): string {
    "Warning: Class described in properties file (" + described +
    ") does not match property file name " + path + "\n"
  }

  /** What a logical line prints while the file is read. */
  function LineOutput(line: string, className: string, path: string): (r: string)
    ensures r != "" <==> Classify(line).ClassDescription?
  {
    match Classify(line)
    case ClassDescription(name, desc) =>
      (if name != className then WarningText(name, path) else "") + name + "\n" + desc + "\n"
    case _ => ""
  }

  function LinesOutput(lines: seq<string>, className: string, path: string): string {
    if lines == [] then ""
    else LinesOutput(lines[..|lines| - 1], className, path) + LineOutput(lines[|lines| - 1], className, path)
  }

  /** One file's block: descriptions while reading, then the report and the delineator. */
  function FileReport(root: string, e: FileEntry): (r: (string, Option<Exception>))
    ensures r.1.Some? ==> r.1.value.KeyError?
  {
    var lines := LogicalLines(e.content);
    var described := LinesOutput(lines, ClassName(e.name), FilePath(root, e));
    var report := ReportAsWritten(StoreLines(EmptyProps, lines));
    if report.1.Some? then (described + report.0, report.1)
    else (described + report.0 + DELINEATOR + "\n", None)
  }

  /** The whole output: the selected files' blocks in walk order, up to the first KeyError. */
  function Summary(root: string, tree: seq<FileEntry>): (r: (string, Option<Exception>))
    ensures r.1.Some? ==> r.1.value.KeyError?
  {
    if tree == [] then ("", None)
    else
      var prev := Summary(root, tree[..|tree| - 1]);
      if prev.1.Some? || !Selected(tree[|tree| - 1]) then prev
      else var file := FileReport(root, tree[|tree| - 1]); (prev.0 + file.0, file.1)
  }

  /** A tree without a selected file prints nothing at all. */
  lemma {:induction false} NothingSelectedPrintsNothing(root: string, tree: seq<FileEntry>)
    requires forall i :: 0 <= i < |tree| ==> !Selected(tree[i])
    ensures Summary(root, tree) == ("", None)
  {
    if tree != [] {
      NothingSelectedPrintsNothing(root, tree[..|tree| - 1]);
    }
  }

  /** A KeyError ends the run: the files after it add nothing. */
  lemma {:induction false} ErrorEndsSummary(root: string, tree: seq<FileEntry>, rest: seq<FileEntry>)
    requires Summary(root, tree).1.Some?
    ensures Summary(root, tree + rest) == Summary(root, tree)
    decreases |rest|
  {
    if rest != [] {
      assert (tree + rest)[..|tree + rest| - 1] == tree + rest[..|rest| - 1];
      ErrorEndsSummary(root, tree, rest[..|rest| - 1]);
    } else {
      assert tree + rest == tree;
    }
  }

  lemma LogicalStep(lines: seq<string>, start: nat, line: string, i: nat)
    requires start < |lines| && lines[start] != "" && (line, i) == Continue(lines, lines[start], start + 1)
    ensures LogicalLinesFrom(lines, start) == [line] + LogicalLinesFrom(lines, i)
  {
  }

  lemma ReadStep(p: Props, done: seq<string>, line: string, className: string, path: string)
    ensures StoreLines(p, done + [line]) == StoreLine(StoreLines(p, done), line)
    ensures LinesOutput(done + [line], className, path) == LinesOutput(done, className, path) + LineOutput(line, className, path)
  {
    assert (done + [line])[..|done|] == done;
  }

  /** The run stops at the first KeyError, in the file before position k. */
  lemma ErrorStopsRun(root: string, tree: seq<FileEntry>, k: nat)
    requires k <= |tree| && Summary(root, tree[..k]).1.Some?
    ensures Summary(root, tree) == Summary(root, tree[..k])
  {
    ErrorEndsSummary(root, tree[..k], tree[k..]);
    assert tree[..k] + tree[k..] == tree;
  }

  /** The whole output after one more file of the walk. */
  lemma SummaryStep(root: string, tree: seq<FileEntry>, k: nat)
    requires k < |tree|
    ensures var prev := Summary(root, tree[..k]);
      Summary(root, tree[..k + 1]) ==
        if prev.1.Some? || !Selected(tree[k]) then prev
        else (prev.0 + FileReport(root, tree[k]).0, FileReport(root, tree[k]).1)
  {
    assert tree[..k + 1][..k] == tree[..k];
  }

  /**
   * The generator's global state: the store for the current file and everything
   * printed so far.
   */
  class SummaryGenerator {
    var properties: Props
    var out: string

    constructor()
      ensures properties == EmptyProps && out == ""
    {
      properties := EmptyProps;
      out := "";
    }

    method StoreAttribute(prop: string, attr: string, value: string)
      modifies this
      ensures properties == Store(old(properties), prop, attr, value)
      ensures out == old(out)
    {
      if prop !in properties.attrs {
        properties := Props(properties.attrs[prop := map[]], properties.order + [prop]);
      }
      properties := Props(properties.attrs[prop := properties.attrs[prop][attr := value]], properties.order);
    }

    /**
     * print_attributes: the loop prints each entry; the xtra check after it reads
     * the attributes the loop variable still holds, those of the last property.
     */
    method PrintAttributes() returns (err: Option<Exception>)
      requires WellFormed(properties)
      modifies this
      ensures properties == old(properties)
      ensures out == old(out) + ReportAsWritten(properties).0 && err == ReportAsWritten(properties).1
    {
      var p := properties;
      if p.order == [] {
        out := out + NO_PROPERTIES;
        return None;
      }
      var text := "";
      var a: map<string, string> := map[];
      var i := 0;
      assert p.order[..0] == [];
      while i < |p.order|
        invariant 0 <= i <= |p.order|
        invariant Entries(p.attrs, p.order[..i]) == (text, None)
        invariant i > 0 ==> a == p.attrs[p.order[i - 1]]
        invariant properties == p && out == old(out)
      {
        var name := p.order[i];
        a := p.attrs[name];
        var entry := EntryText(name, a);
        if entry.Err? {
          ReportRaisesAt(p, i);
          out := out + text;
          return Some(entry.error);
        }
        EntriesNext(p.attrs, p.order, i);
        text := text + entry.value;
        i := i + 1;
      }
      ReportCompletes(p);
      out := out + (text + XtraText(a));
      err := None;
    }

    /** The inner while loop, joining a line with the lines that continue it. */
    static method JoinContinuations(lines: seq<string>, first: string, i0: nat) returns (line: string, i: nat)
      requires i0 <= |lines|
      ensures (line, i) == Continue(lines, first, i0)
    {
      line, i := first, i0;
      while EndsWithMarker(line)
        invariant i <= |lines| && Continue(lines, line, i) == Continue(lines, first, i0)
        decreases |lines| - i, if EndsWithMarker(line) then 1 else 0
      {
        var next := ReadLine(lines, i);
        line := StripContinuation(line) + " " + next;
        assert next == "" ==> line[|line| - 1] == ' ';
        i := Advance(lines, i);
      }
    }

    /** One logical line: print a class description, or store an attribute. */
    method HandleLine(line: string, className: string, path: string) returns (printed: string)
      modifies this
      ensures properties == StoreLine(old(properties), line) && out == old(out)
      ensures printed == LineOutput(line, className, path)
    {
      printed := "";
      match Classify(line) {
        case ClassDescription(name, desc) =>
          if name != className {
            printed := WarningText(name, path);
          }
          printed := printed + name + "\n" + desc + "\n";
        case Attribute(prop, attr, value) =>
          StoreAttribute(prop, attr, value);
        case Other =>
      }
    }

    /** The with-open block: reads the file line by line, joining continued lines. */
    method ReadPropertiesFile(className: string, path: string, lines: seq<string>)
      modifies this
      ensures properties == StoreLines(old(properties), LogicalLinesFrom(lines, 0))
      ensures out == old(out) + LinesOutput(LogicalLinesFrom(lines, 0), className, path)
    {
      var text := "";
      ghost var done: seq<string> := [];
      ghost var start: nat := 0;
      var i: nat := 0;
      var line := ReadLine(lines, i);
      i := Advance(lines, i);
      while line != ""
        invariant start <= |lines| && line == ReadLine(lines, start) && i == Advance(lines, start)
        invariant LogicalLinesFrom(lines, 0) == done + LogicalLinesFrom(lines, start)
        invariant properties == StoreLines(old(properties), done)
        invariant out == old(out) && text == LinesOutput(done, className, path)
        decreases |lines| - start
      {
        line, i := JoinContinuations(lines, line, i);
        LogicalStep(lines, start, line, i);
        Assoc3(done, [line], LogicalLinesFrom(lines, i));
        ReadStep(old(properties), done, line, className, path);
        var printed := HandleLine(line, className, path);
        text := text + printed;
        done := done + [line];
        start := i;
        line := ReadLine(lines, i);
        i := Advance(lines, i);
      }
      assert LogicalLinesFrom(lines, start) == [];
      assert done + [] == done;
      out := out + text;
    }

    /** One selected file: read it, print its report, then reset the store. */
    method SummariseFile(root: string, e: FileEntry) returns (err: Option<Exception>)
      requires properties == EmptyProps
      modifies this
      ensures out == old(out) + FileReport(root, e).0 && err == FileReport(root, e).1
      ensures err.None? ==> properties == EmptyProps
    {
      ghost var lines := LogicalLines(e.content);
      ghost var described := LinesOutput(lines, ClassName(e.name), FilePath(root, e));
      ghost var report := ReportAsWritten(StoreLines(EmptyProps, lines));
      assert FileReport(root, e) == if report.1.Some? then (described + report.0, report.1)
        else (described + report.0 + DELINEATOR + "\n", None);
      ReadPropertiesFile(ClassName(e.name), FilePath(root, e), SplitLines(e.content));
      err := PrintAttributes();
      assert out == old(out) + described + report.0 && err == report.1;
      Assoc3(old(out), described, report.0);
      if err.None? {
        properties := EmptyProps;
        out := out + DELINEATOR + "\n";
        Assoc(old(out), described + report.0, DELINEATOR, "\n");
      }
    }

    /** The script: every selected file's block in walk order; a KeyError ends the run. */
    method Run(root: string, tree: seq<FileEntry>) returns (err: Option<Exception>)
      requires properties == EmptyProps
      modifies this
      ensures out == old(out) + Summary(root, tree).0 && err == Summary(root, tree).1
    {
      var k := 0;
      assert tree[..0] == [];
      while k < |tree|
        invariant 0 <= k <= |tree| && properties == EmptyProps
        invariant Summary(root, tree[..k]).1 == None
        invariant out == old(out) + Summary(root, tree[..k]).0
      {
        var e := tree[k];
        SummaryStep(root, tree, k);
        if Visited(e) && IsPropertiesFile(e.name) {
          var failed := SummariseFile(root, e);
          Assoc3(old(out), Summary(root, tree[..k]).0, FileReport(root, e).0);
          if failed.Some? {
            ErrorStopsRun(root, tree, k + 1);
            return failed;
          }
        }
        k := k + 1;
      }
      assert tree[..k] == tree;
      return None;
    }
  }
}
