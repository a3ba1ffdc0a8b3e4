/**
 The two rewrites of pgbouncer.ini: the [databases] section from the allowed
 databases, and the pool settings from system_config.
 */
module PgBouncerIni {
  import opened Prelude
  import opened Text

  const NL := '\n'
  const HEADER := "[databases]"
  const NOTHING_SERVED := "; no databases allowed through PgBouncer"

  predicate OneLine(s: string) {
    NL !in s
  }

  predicate AllOneLine(lines: seq<string>) {
    forall i :: 0 <= i < |lines| ==> OneLine(lines[i])
  }

  /** What a line means to the scan for [databases]. */
  datatype Kind = Header | Opens | Plain

  datatype Line = Line(text: string, kind: Kind)

  function ReadLine(s: string): Line {
    Line(s, if Trim(s) == HEADER then Header else if HasPrefix(Trim(s), "[") then Opens else Plain)
  }

  function ReadLines(lines: seq<string>): (r: seq<Line>)
    ensures |r| == |lines|
    ensures forall i :: 0 <= i < |r| ==> r[i] == ReadLine(lines[i])
  {
    seq(|lines|, i requires 0 <= i < |lines| => ReadLine(lines[i]))
  }

  function Texts(lines: seq<Line>): (r: seq<string>)
    ensures |r| == |lines|
    ensures forall i :: 0 <= i < |r| ==> r[i] == lines[i].text
  {
    seq(|lines|, i requires 0 <= i < |lines| => lines[i].text)
  }

  /** The lines are classified as reading them would classify them, and each is one line. */
  ghost predicate WellRead(lines: seq<Line>) {
    forall i :: 0 <= i < |lines| ==> lines[i] == ReadLine(lines[i].text) && OneLine(lines[i].text)
  }

  lemma ReadBack(lines: seq<string>)
    requires AllOneLine(lines)
    ensures Texts(ReadLines(lines)) == lines && WellRead(ReadLines(lines))
  {
  }

  lemma TextBack(lines: seq<Line>)
    requires WellRead(lines)
    ensures ReadLines(Texts(lines)) == lines && AllOneLine(Texts(lines))
  {
  }

  // ---------- The [databases] section ----------

  /** The connection string of a served database. */
  function Target(name: string): string {
    "host=db port=5432 dbname=" + name
  }

  function Entry(name: string): string {
    name + " = " + Target(name)
  }

  function Entries(names: seq<string>): (r: seq<string>)
    ensures |r| == |names|
    ensures forall i :: 0 <= i < |r| ==> r[i] == Entry(names[i])
  {
    seq(|names|, i requires 0 <= i < |names| => Entry(names[i]))
  }

  function Middle(names: seq<string>): seq<string> {
    if names != [] then Entries(names) else [NOTHING_SERVED]
  }

  /** The replacement section, a multi-line string spliced into a list of lines. */
  function Section(middle: seq<string>): string {
    HEADER + [NL] + (Join(middle, "\n") + [NL] + "")
  }

  function Body(middle: seq<string>): seq<Line> {
    ReadLines([HEADER] + middle + [""])
  }

  function NextInside(kind: Kind, inside: bool): bool {
    match kind
    case Header => true
    case Opens => false
    case Plain => inside
  }

  /** Is the line after these inside [databases]? */
  function Inside(lines: seq<Line>, inside: bool): bool
    decreases |lines|
  {
    if lines == [] then inside else Inside(lines[1..], NextInside(lines[0].kind, inside))
  }

  /** Every [databases] section of the lines replaced by `body`, which starts with the header. */
  function Replace(lines: seq<Line>, inside: bool, body: seq<Line>): seq<Line>
    decreases |lines|
  {
    if lines == [] then []
    else
      var next := NextInside(lines[0].kind, inside);
      (if lines[0].kind == Header then body else if next then [] else [lines[0]]) + Replace(lines[1..], next, body)
  }

  predicate HasHeader(lines: seq<Line>) {
    exists i :: 0 <= i < |lines| && lines[i].kind == Header
  }

  function RewriteLines(lines: seq<Line>, body: seq<Line>): seq<Line> {
    Replace(lines, false, body) + (if HasHeader(lines) then [] else body)
  }

  function Document(content: string): seq<Line> {
    ReadLines(Split(content, NL))
  }

  function Print(lines: seq<Line>): string {
    Join(Texts(lines), "\n")
  }

  function RewriteWith(content: string, middle: seq<string>): string {
    Print(RewriteLines(Document(content), Body(middle)))
  }

  /** The file after a rebuild that allows these databases. */
  function RewriteDatabases(content: string, names: seq<string>): string {
    RewriteWith(content, Middle(names))
  }

  predicate ValidNames(names: seq<string>) {
    forall i :: 0 <= i < |names| ==> ValidName(names[i])
  }

  /** A section body: the header, then lines that neither repeat it nor open another section. */
  ghost predicate IsBody(body: seq<Line>) {
    && body != [] && body[0].kind == Header
    && forall i :: 1 <= i < |body| ==> body[i].kind == Plain
  }

  lemma NameIsPlain(name: string)
    requires ValidName(name)
    ensures OneLine(name) && ' ' !in name && '=' !in name
    ensures !IsSpace(name[0]) && !IsSpace(name[|name| - 1]) && name[0] !in {'[', ';', '#'}
  {
  }

  lemma EntryIsPlain(name: string)
    requires ValidName(name)
    ensures Trim(Entry(name)) == Entry(name) && OneLine(Entry(name)) && ReadLine(Entry(name)).kind == Plain
  {
    NameIsPlain(name);
    var e := Entry(name);
    assert e[0] == name[0] && e[|e| - 1] == name[|name| - 1];
    TrimIdle(e);
  }

  ghost predicate PlainLines(lines: seq<string>) {
    forall i :: 0 <= i < |lines| ==> OneLine(lines[i]) && ReadLine(lines[i]).kind == Plain
  }

  lemma CommentIsPlain()
    ensures OneLine(NOTHING_SERVED) && ReadLine(NOTHING_SERVED).kind == Plain
  {
    TrimIdle(NOTHING_SERVED);
    assert NOTHING_SERVED[0] == ';' && HEADER[0] == '[';
  }

  lemma MiddleIsPlain(names: seq<string>)
    requires ValidNames(names)
    ensures Middle(names) != [] && PlainLines(Middle(names))
  {
    if names == [] {
      CommentIsPlain();
      assert Middle(names) == [NOTHING_SERVED];
    } else {
      forall i | 0 <= i < |names|
        ensures OneLine(Entry(names[i])) && ReadLine(Entry(names[i])).kind == Plain
      {
        EntryIsPlain(names[i]);
      }
    }
  }

  lemma BodyIsBody(middle: seq<string>)
    requires PlainLines(middle)
    ensures IsBody(Body(middle)) && WellRead(Body(middle))
  {
    TrimIdle(HEADER);
    assert ReadLine(HEADER).kind == Header && ReadLine("").kind == Plain;
    var lines := [HEADER] + middle + [""];
    assert forall i :: 1 <= i <= |middle| ==> lines[i] == middle[i - 1];
    assert AllOneLine(lines);
    ReadBack(lines);
  }

  lemma SectionSplits(middle: seq<string>)
    requires middle != [] && PlainLines(middle)
    ensures Split(Section(middle), NL) == [HEADER] + middle + [""]
  {
    LinesRoundTrip(middle, NL);
    SplitPlain(HEADER, NL);
    SplitPlain("", NL);
    SplitAtSep(HEADER, Join(middle, "\n") + [NL] + "", NL);
    SplitAtSep(Join(middle, "\n"), "", NL);
  }

  // ---------- Line by line ----------

  lemma {:induction false} ReplaceAppend(a: seq<Line>, b: seq<Line>, inside: bool, body: seq<Line>)
    ensures Replace(a + b, inside, body) == Replace(a, inside, body) + Replace(b, Inside(a, inside), body)
    ensures Inside(a + b, inside) == Inside(b, Inside(a, inside))
    decreases |a|
  {
    if a == [] {
      assert a + b == b;
    } else {
      assert (a + b)[1..] == a[1..] + b;
      var next := NextInside(a[0].kind, inside);
      var piece := if a[0].kind == Header then body else if next then [] else [a[0]];
      ReplaceAppend(a[1..], b, next, body);
      assert Replace(a + b, inside, body) == piece + Replace(a[1..] + b, next, body);
      assert Replace(a, inside, body) == piece + Replace(a[1..], next, body);
    }
  }

  /** Plain lines inside the section all vanish. */
  lemma {:induction false} ReplacePlain(lines: seq<Line>, body: seq<Line>)
    requires forall i :: 0 <= i < |lines| ==> lines[i].kind == Plain
    ensures Replace(lines, true, body) == [] && Inside(lines, true)
    decreases |lines|
  {
    if lines != [] { ReplacePlain(lines[1..], body); }
  }

  lemma ReplaceBody(was: seq<Line>, inside: bool, body: seq<Line>)
    requires IsBody(was)
    ensures Replace(was, inside, body) == body && Inside(was, inside)
  {
    ReplacePlain(was[1..], body);
  }

  /** Replacing what a replacement left is replacing the original. */
  lemma {:induction false} ReplaceAgain(lines: seq<Line>, inside: bool, first: seq<Line>, second: seq<Line>)
    requires IsBody(first)
    ensures Replace(Replace(lines, inside, first), inside, second) == Replace(lines, inside, second)
    ensures Inside(Replace(lines, inside, first), inside) == Inside(lines, inside)
    decreases |lines|
  {
    if lines != [] {
      var next := NextInside(lines[0].kind, inside);
      var rest := Replace(lines[1..], next, first);
      ReplaceAgain(lines[1..], next, first, second);
      if lines[0].kind == Header {
        ReplaceBody(first, inside, second);
        ReplaceAppend(first, rest, inside, second);
      } else if !next {
        assert Replace(lines, inside, first) == [lines[0]] + rest;
        assert ([lines[0]] + rest)[1..] == rest;
      } else {
        assert Replace(lines, inside, first) == rest;
      }
    }
  }

  lemma {:induction false} NoHeaderKept(lines: seq<Line>, body: seq<Line>)
    requires !HasHeader(lines)
    ensures Replace(lines, false, body) == lines && !Inside(lines, false)
    decreases |lines|
  {
    if lines != [] {
      NoHeaderKept(lines[1..], body);
      assert [lines[0]] + lines[1..] == lines;
    }
  }

  lemma {:induction false} ReplaceHasHeader(lines: seq<Line>, inside: bool, body: seq<Line>)
    requires IsBody(body) && HasHeader(lines)
    ensures HasHeader(Replace(lines, inside, body))
    decreases |lines|
  {
    var r := Replace(lines, inside, body);
    if lines[0].kind == Header {
      assert r[0] == body[0];
    } else {
      var i :| 0 <= i < |lines| && lines[i].kind == Header;
      assert lines[1..][i - 1] == lines[i];
      var next := NextInside(lines[0].kind, inside);
      var rest := Replace(lines[1..], next, body);
      ReplaceHasHeader(lines[1..], next, body);
      var j :| 0 <= j < |rest| && rest[j].kind == Header;
      assert r[if next then j else j + 1] == rest[j];
    }
  }

  lemma RewriteAgain(lines: seq<Line>, first: seq<Line>, second: seq<Line>)
    requires IsBody(first) && IsBody(second)
    ensures RewriteLines(RewriteLines(lines, first), second) == RewriteLines(lines, second)
  {
    if HasHeader(lines) {
      ReplaceHasHeader(lines, false, first);
      ReplaceAgain(lines, false, first, second);
      assert RewriteLines(lines, first) == Replace(lines, false, first);
    } else {
      NoHeaderKept(lines, first);
      NoHeaderKept(lines, second);
      assert RewriteLines(lines, first) == lines + first;
      assert (lines + first)[|lines|] == first[0];
      ReplaceAppend(lines, first, false, second);
      ReplaceBody(first, false, second);
    }
  }

  lemma {:induction false} ReplaceWellRead(lines: seq<Line>, inside: bool, body: seq<Line>)
    requires WellRead(lines) && WellRead(body)
    ensures WellRead(Replace(lines, inside, body))
    decreases |lines|
  {
    if lines != [] { ReplaceWellRead(lines[1..], NextInside(lines[0].kind, inside), body); }
  }

  /** Printed lines read back as they were. */
  lemma PrintRoundTrip(lines: seq<Line>)
    requires lines != [] && WellRead(lines)
    ensures Document(Print(lines)) == lines
  {
    TextBack(lines);
    LinesRoundTrip(Texts(lines), NL);
  }

  /** The text of the result reads back as exactly the rewritten lines. */
  lemma RewrittenDocument(content: string, middle: seq<string>)
    requires PlainLines(middle)
    ensures Document(RewriteWith(content, middle)) == RewriteLines(Document(content), Body(middle))
    ensures WellRead(Document(content))
  {
    BodyIsBody(middle);
    ReadBack(Split(content, NL));
    ReplaceWellRead(Document(content), false, Body(middle));
    PrintRoundTrip(RewriteLines(Document(content), Body(middle)));
  }

  // ---------- Sections ----------

  /** Line j is the last before line i to open a section, and it is the [databases] header, spaces aside. */
  ghost predicate OpensDatabases(lines: seq<string>, j: nat, i: nat) {
    && j < i <= |lines| && Trim(lines[j]) == "[databases]"
    && forall k :: j < k < i ==> !HasPrefix(Trim(lines[k]), "[")
  }

  /** The nearest section header above line i is [databases]. */
  ghost predicate InDatabases(lines: seq<string>, i: nat) {
    exists j: nat :: OpensDatabases(lines, j, i)
  }

  /** The scan is inside [databases] exactly where the nearest section header above says so. */
  lemma {:induction false} InsideIff(lines: seq<string>, i: nat)
    requires i <= |lines|
    ensures Inside(ReadLines(lines)[..i], false) <==> InDatabases(lines, i)
    decreases i
  {
    if i > 0 {
      InsideIff(lines, i - 1);
      var doc := ReadLines(lines);
      assert doc[..i] == doc[..i - 1] + [doc[i - 1]];
      ReplaceAppend(doc[..i - 1], [doc[i - 1]], false, []);
      InsideSnoc(lines, i - 1, i);
    }
  }

  lemma InsideSnoc(lines: seq<string>, i: nat, next: nat)
    requires i < |lines| && next == i + 1
    ensures InDatabases(lines, next) <==> NextInside(ReadLine(lines[i]).kind, InDatabases(lines, i))
  {
    assert HasPrefix("[databases]", "[");
    if Trim(lines[i]) == "[databases]" {
      assert OpensDatabases(lines, i, next);
    } else if !HasPrefix(Trim(lines[i]), "[") {
      if j: nat :| OpensDatabases(lines, j, i) { assert OpensDatabases(lines, j, next); }
      if j: nat :| OpensDatabases(lines, j, next) { assert OpensDatabases(lines, j, i); }
    }
  }

  // ---------- Main results on [databases] ----------

  lemma RewriteWithAgain(content: string, first: seq<string>, second: seq<string>)
    requires PlainLines(first) && PlainLines(second)
    ensures RewriteWith(RewriteWith(content, first), second) == RewriteWith(content, second)
  {
    RewrittenDocument(content, first);
    BodyIsBody(first);
    BodyIsBody(second);
    RewriteAgain(Document(content), Body(first), Body(second));
  }

  /** Only the last rewrite counts: with the same names it changes nothing, with others it starts afresh. */
  lemma LastRewriteWins(content: string, first: seq<string>, second: seq<string>)
    requires ValidNames(first) && ValidNames(second)
    ensures RewriteDatabases(RewriteDatabases(content, first), second) == RewriteDatabases(content, second)
  {
    MiddleIsPlain(first);
    MiddleIsPlain(second);
    RewriteWithAgain(content, Middle(first), Middle(second));
  }

  // ---------- Reading the file ----------

  /** The lines of every other section, headers included, in order. */
  function Others(lines: seq<Line>, inside: bool): seq<Line>
    decreases |lines|
  {
    if lines == [] then []
    else
      var next := NextInside(lines[0].kind, inside);
      (if next then [] else [lines[0]]) + Others(lines[1..], next)
  }

  /** The lines under [databases], wherever that section is opened. */
  function Inner(lines: seq<Line>, inside: bool): seq<string>
    decreases |lines|
  {
    if lines == [] then []
    else
      var next := NextInside(lines[0].kind, inside);
      (if next && lines[0].kind == Plain then [lines[0].text] else []) + Inner(lines[1..], next)
  }

  /** A `key = value` line; comments and anything else are no entry. */
  function EntryOf(line: string): Option<(string, string)> {
    var t := Trim(line);
    if t == "" || t[0] == ';' || t[0] == '#' then None
    else
      var parts := Split(t, '=');
      if |parts| == 1 then None else Some((Trim(parts[0]), Trim(Join(parts[1..], "="))))
  }

  /** Later entries override earlier ones. */
  function ReadEntries(lines: seq<string>): map<string, string>
    decreases |lines|
  {
    if lines == [] then map[]
    else
      var later := ReadEntries(lines[1..]);
      var e := EntryOf(lines[0]);
      if e.Some? && e.value.0 !in later then later[e.value.0 := e.value.1] else later
  }

  /** The databases a client can ask PgBouncer for, with the connection string of each. */
  function Databases(content: string): map<string, string> {
    ReadEntries(Inner(Document(content), false))
  }

  /** The value of a parameter in a connection string. */
  function Param(conn: string, key: string): Option<string> {
    FirstParam(Split(conn, ' '), key)
  }

  function FirstParam(words: seq<string>, key: string): Option<string>
    decreases |words|
  {
    if words == [] then None
    else if HasPrefix(words[0], key + "=") then Some(words[0][|key| + 1..])
    else FirstParam(words[1..], key)
  }

  ghost predicate CleanKey(key: string) {
    && key != "" && '=' !in key && key[0] !in {';', '#'}
    && !IsSpace(key[0]) && !IsSpace(key[|key| - 1])
  }

  lemma KeyValueReads(key: string, value: string)
    requires CleanKey(key)
    requires value != "" && !IsSpace(value[0]) && !IsSpace(value[|value| - 1])
    ensures EntryOf(key + " = " + value) == Some((key, value))
  {
    var t := key + " = " + value;
    assert t[0] == key[0] && t[|t| - 1] == value[|value| - 1];
    TrimIdle(t);
    assert t == (key + " ") + ['='] + (" " + value);
    SplitAtSep(key + " ", " " + value, '=');
    SplitPlain(key + " ", '=');
    assert Split(t, '=')[1..] == Split(" " + value, '=');
    JoinSplit(" " + value, '=');
    TrimOneAfter(key);
    TrimOneAfter(value);
  }

  lemma EntryReads(name: string)
    requires ValidName(name)
    ensures EntryOf(Entry(name)) == Some((name, Target(name)))
  {
    NameIsPlain(name);
    var v := Target(name);
    assert v[0] == 'h' && v[|v| - 1] == name[|name| - 1];
    KeyValueReads(name, v);
  }

  lemma ThreeWords(a: string, b: string, c: string)
    requires ' ' !in a && ' ' !in b && ' ' !in c
    ensures Split(a + " " + b + " " + c, ' ') == [a, b, c]
  {
    assert a + " " + b + " " + c == a + [' '] + (b + [' '] + c);
    SplitAtSep(a, b + [' '] + c, ' ');
    SplitAtSep(b, c, ' ');
    SplitPlain(a, ' ');
    SplitPlain(b, ' ');
    SplitPlain(c, ' ');
  }

  lemma FirstOf(words: seq<string>, key: string, k: nat, value: string)
    requires k < |words| && words[k] == key + "=" + value
    requires forall i :: 0 <= i < k ==> !HasPrefix(words[i], key + "=")
    ensures FirstParam(words, key) == Some(value)
    decreases |words|
  {
    if k == 0 {
      assert HasPrefix(words[0], key + "=");
      assert words[0][|key| + 1..] == value;
    } else {
      FirstOf(words[1..], key, k - 1, value);
    }
  }

  lemma TargetReads(name: string)
    requires ValidName(name)
    ensures Param(Target(name), "dbname") == Some(name)
    ensures Param(Target(name), "host") == Some("db") && Param(Target(name), "port") == Some("5432")
  {
    NameIsPlain(name);
    var words := ["host=db", "port=5432", "dbname=" + name];
    TargetWords(name);
    assert words[0][0] == 'h' && words[1][0] == 'p';
    FirstOf(words, "host", 0, "db");
    FirstOf(words, "port", 1, "5432");
    FirstOf(words, "dbname", 2, name);
  }

  lemma TargetWords(name: string)
    requires ' ' !in name
    ensures Split(Target(name), ' ') == ["host=db", "port=5432", "dbname=" + name]
  {
    ThreeWords("host=db", "port=5432", "dbname=" + name);
    TargetHead();
    Regroup("host=db", "port=5432", "dbname=", name);
  }

  lemma TargetHead()
    ensures "host=db port=5432 dbname=" == "host=db" + " " + "port=5432" + " " + "dbname="
  {
  }

  lemma Regroup(a: string, b: string, c: string, d: string)
    ensures a + " " + b + " " + c + d == a + " " + b + " " + (c + d)
  {
  }

  /** Lines that are all comments, blanks or entries of these names read as those entries. */
  lemma {:induction false} ReadKnown(lines: seq<string>, names: set<string>)
    requires forall i :: 0 <= i < |lines| ==>
               EntryOf(lines[i]) == None || exists n :: n in names && EntryOf(lines[i]) == Some((n, Target(n)))
    ensures forall n :: n in ReadEntries(lines) ==> n in names && ReadEntries(lines)[n] == Target(n)
    ensures forall n, i :: 0 <= i < |lines| && EntryOf(lines[i]) == Some((n, Target(n))) ==> n in ReadEntries(lines)
    decreases |lines|
  {
    if lines != [] {
      ReadKnown(lines[1..], names);
      forall n, i | 0 <= i < |lines| && EntryOf(lines[i]) == Some((n, Target(n)))
        ensures n in ReadEntries(lines)
      {
        if i > 0 { assert lines[1..][i - 1] == lines[i]; }
      }
    }
  }

  lemma {:induction false} InnerAppend(a: seq<Line>, b: seq<Line>, inside: bool)
    ensures Inner(a + b, inside) == Inner(a, inside) + Inner(b, Inside(a, inside))
    decreases |a|
  {
    if a == [] {
      assert a + b == b;
    } else {
      assert (a + b)[1..] == a[1..] + b;
      InnerAppend(a[1..], b, NextInside(a[0].kind, inside));
    }
  }

  lemma {:induction false} OthersAppend(a: seq<Line>, b: seq<Line>, inside: bool)
    ensures Others(a + b, inside) == Others(a, inside) + Others(b, Inside(a, inside))
    decreases |a|
  {
    if a == [] {
      assert a + b == b;
    } else {
      assert (a + b)[1..] == a[1..] + b;
      OthersAppend(a[1..], b, NextInside(a[0].kind, inside));
    }
  }

  lemma {:induction false} InnerPlain(lines: seq<Line>)
    requires forall i :: 0 <= i < |lines| ==> lines[i].kind == Plain
    ensures Inner(lines, true) == Texts(lines) && Others(lines, true) == []
    decreases |lines|
  {
    if lines != [] {
      InnerPlain(lines[1..]);
      assert Texts(lines) == [lines[0].text] + Texts(lines[1..]);
    }
  }

  lemma InnerBody(body: seq<Line>, inside: bool)
    requires IsBody(body)
    ensures Inner(body, inside) == Texts(body[1..]) && Others(body, inside) == [] && Inside(body, inside)
  {
    InnerPlain(body[1..]);
    ReplacePlain(body[1..], []);
  }

  lemma HeaderInTail(lines: seq<Line>)
    requires HasHeader(lines) && lines[0].kind != Header
    ensures HasHeader(lines[1..])
  {
    var i :| 0 <= i < |lines| && lines[i].kind == Header;
    assert lines[1..][i - 1] == lines[i];
  }

  /** After a replacement the other sections are as they were... */
  lemma {:induction false} ReplaceOthers(lines: seq<Line>, inside: bool, body: seq<Line>)
    requires IsBody(body)
    ensures Others(Replace(lines, inside, body), inside) == Others(lines, inside)
    decreases |lines|
  {
    if lines != [] {
      var next := NextInside(lines[0].kind, inside);
      var rest := Replace(lines[1..], next, body);
      ReplaceOthers(lines[1..], next, body);
      if lines[0].kind == Header {
        InnerBody(body, inside);
        OthersAppend(body, rest, inside);
      } else if next {
        assert Replace(lines, inside, body) == rest;
      } else {
        assert Replace(lines, inside, body) == [lines[0]] + rest;
        assert ([lines[0]] + rest)[1..] == rest;
      }
    }
  }

  /** ...and every [databases] section is the new body. */
  lemma {:induction false} ReplaceInner(lines: seq<Line>, inside: bool, body: seq<Line>)
    requires IsBody(body)
    ensures forall s :: s in Inner(Replace(lines, inside, body), inside) ==> s in Texts(body[1..])
    ensures HasHeader(lines) ==> forall s :: s in Texts(body[1..]) ==> s in Inner(Replace(lines, inside, body), inside)
    decreases |lines|
  {
    if lines != [] {
      var next := NextInside(lines[0].kind, inside);
      var rest := Replace(lines[1..], next, body);
      ReplaceInner(lines[1..], next, body);
      if lines[0].kind == Header {
        InnerBody(body, inside);
        InnerAppend(body, rest, inside);
      } else {
        if HasHeader(lines) { HeaderInTail(lines); }
        if next {
          assert Replace(lines, inside, body) == rest;
        } else {
          assert Replace(lines, inside, body) == [lines[0]] + rest;
          assert ([lines[0]] + rest)[1..] == rest;
        }
      }
    }
  }

  lemma RewriteReads(lines: seq<Line>, body: seq<Line>)
    requires IsBody(body)
    ensures Others(RewriteLines(lines, body), false) == Others(lines, false)
    ensures forall s :: s in Inner(RewriteLines(lines, body), false) <==> s in Texts(body[1..])
  {
    if HasHeader(lines) {
      assert RewriteLines(lines, body) == Replace(lines, false, body);
      ReplaceOthers(lines, false, body);
      ReplaceInner(lines, false, body);
    } else {
      NoHeaderKept(lines, body);
      assert RewriteLines(lines, body) == lines + body;
      OthersAppend(lines, body, false);
      InnerAppend(lines, body, false);
      InnerBody(body, false);
      NoInner(lines);
    }
  }

  lemma {:induction false} NoInner(lines: seq<Line>)
    requires !HasHeader(lines)
    ensures Inner(lines, false) == [] && Others(lines, false) == lines
    decreases |lines|
  {
    if lines != [] {
      NoInner(lines[1..]);
      assert [lines[0]] + lines[1..] == lines;
    }
  }

  lemma CommentReadsNothing()
    ensures EntryOf(NOTHING_SERVED) == None && EntryOf("") == None
  {
    TrimIdle(NOTHING_SERVED);
    assert NOTHING_SERVED[0] == ';';
  }

  lemma MiddleReads(names: seq<string>, lines: seq<string>)
    requires ValidNames(names)
    requires forall s :: s in lines <==> s in Middle(names) + [""]
    ensures ReadEntries(lines) == map n | n in names :: Target(n)
  {
    var all := set n | n in names;
    forall i | 0 <= i < |lines|
      ensures EntryOf(lines[i]) == None || exists n :: n in all && EntryOf(lines[i]) == Some((n, Target(n)))
    {
      assert lines[i] in lines;
      MiddleLine(names, lines[i]);
    }
    ReadKnown(lines, all);
    forall n | n in names
      ensures n in ReadEntries(lines)
    {
      var i := MiddleHas(names, lines, n);
    }
  }

  lemma MiddleHas(names: seq<string>, lines: seq<string>, n: string) returns (i: nat)
    requires ValidNames(names) && n in names
    requires forall s :: s in lines <==> s in Middle(names) + [""]
    ensures i < |lines| && EntryOf(lines[i]) == Some((n, Target(n)))
  {
    var k :| 0 <= k < |names| && names[k] == n;
    EntryReads(names[k]);
    assert Middle(names)[k] == Entry(n);
    assert (Middle(names) + [""])[k] == Entry(n);
    assert Entry(n) in Middle(names) + [""];
    i :| 0 <= i < |lines| && lines[i] == Entry(n);
  }

  lemma MiddleLine(names: seq<string>, line: string)
    requires ValidNames(names) && line in Middle(names) + [""]
    ensures EntryOf(line) == None || exists n :: n in names && EntryOf(line) == Some((n, Target(n)))
  {
    CommentReadsNothing();
    if names != [] && line in Entries(names) {
      var k :| 0 <= k < |names| && Entries(names)[k] == line;
      EntryReads(names[k]);
    }
  }

  /**
   After a rebuild PgBouncer serves exactly the allowed databases, each under its own name, and
   every line outside [databases] is kept in order - whatever text was there before.
   */
  lemma RewriteServesExactly(content: string, names: seq<string>)
    requires ValidNames(names)
    ensures var after := RewriteDatabases(content, names);
            && (forall n :: n in Databases(after) <==> n in names)
            && (forall n :: n in names ==>
                  && Param(Databases(after)[n], "dbname") == Some(n)
                  && Param(Databases(after)[n], "host") == Some("db")
                  && Param(Databases(after)[n], "port") == Some("5432"))
            && Others(Document(after), false) == Others(Document(content), false)
  {
    var middle := Middle(names);
    MiddleIsPlain(names);
    RewrittenDocument(content, middle);
    BodyIsBody(middle);
    RewriteReads(Document(content), Body(middle));
    BodyTexts(middle);
    var inner := Inner(Document(RewriteDatabases(content, names)), false);
    MiddleReads(names, inner);
    forall n | n in names { TargetReads(n); }
  }

  lemma BodyTexts(middle: seq<string>)
    ensures Texts(Body(middle)[1..]) == middle + [""]
  {
  }

  /** The new section is in the result. */
  lemma {:induction false} BodyStays(lines: seq<Line>, inside: bool, body: seq<Line>, line: Line)
    requires HasHeader(lines) && line in body
    ensures line in Replace(lines, inside, body)
    decreases |lines|
  {
    if lines[0].kind != Header {
      HeaderInTail(lines);
      BodyStays(lines[1..], NextInside(lines[0].kind, inside), body, line);
    }
  }

  lemma BodyInRewrite(lines: seq<Line>, body: seq<Line>, line: Line)
    requires line in body
    ensures line in RewriteLines(lines, body)
  {
    if HasHeader(lines) { BodyStays(lines, false, body, line); }
  }

  lemma BodyHas(middle: seq<string>, text: string) returns (line: Line)
    requires text == HEADER || text in middle
    ensures line in Body(middle) && line.text == text
  {
    var texts := [HEADER] + middle + [""];
    var k := 0;
    if text in middle {
      var j :| 0 <= j < |middle| && middle[j] == text;
      k := j + 1;
    }
    assert texts[k] == text;
    line := Body(middle)[k];
  }

  lemma WrittenLine(content: string, middle: seq<string>, text: string)
    requires PlainLines(middle) && (text == HEADER || text in middle)
    ensures text in Split(RewriteWith(content, middle), NL)
  {
    var doc := Document(content);
    RewrittenDocument(content, middle);
    var line := BodyHas(middle, text);
    BodyInRewrite(doc, Body(middle), line);
    var i :| 0 <= i < |RewriteLines(doc, Body(middle))| && RewriteLines(doc, Body(middle))[i] == line;
    assert Split(RewriteWith(content, middle), NL)[i] == text;
  }

  /** The header and, for each allowed database, its line stand in the file as written. */
  lemma RewriteWrites(content: string, names: seq<string>, name: string)
    requires ValidNames(names) && name in names
    ensures var lines := Split(RewriteDatabases(content, names), '\n');
            "[databases]" in lines && (name + " = " + ("host=db port=5432 dbname=" + name)) in lines
  {
    MiddleIsPlain(names);
    var k :| 0 <= k < |names| && names[k] == name;
    assert Middle(names)[k] == Entry(name);
    WrittenLine(content, Middle(names), HEADER);
    WrittenLine(content, Middle(names), Entry(name));
  }
}
