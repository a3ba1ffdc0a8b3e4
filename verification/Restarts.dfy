/**
 The watcher and the rebuilds share pgbouncer.ini.  Every restart puts the base file back, which
 serves every database; this module follows the file through any interleaving of the two.
 */
module Restarts {
  import opened Prelude
  import opened Text
  import opened PgBouncerIni
  import T = TlsRestart

  // ---------- The file a restart starts from ----------

  const FALLBACK_TARGET := "host=db port=5432"
  const FALLBACK := "*" + " = " + FALLBACK_TARGET
  const OTHER_HEADER := "[pgbouncer]"
  const BASE_HEAD := [HEADER, FALLBACK, "", OTHER_HEADER]

  /** The base file: [databases] with the fallback entry, then settings only. */
  ghost predicate IsBase(base: string) {
    exists tail :: Split(base, NL) == BASE_HEAD + tail && PlainLines(tail)
  }

  /** The lines the four `sed` calls leave. */
  predicate Survives(line: string) {
    && !HasPrefix(line, "client_tls_") && !HasPrefix(line, "server_tls_")
    && !HasPrefix(line, "; Client TLS") && !HasPrefix(line, "; Server TLS")
  }

  function Stripped(lines: seq<string>): seq<string>
    decreases |lines|
  {
    if lines == [] then [] else (if Survives(lines[0]) then [lines[0]] else []) + Stripped(lines[1..])
  }

  /** The shared file after `cp` and `sed`. */
  function Started(base: string): string {
    Join(Stripped(Split(base, NL)), "\n")
  }

  const TLS_COMMENT := "; Client TLS " + "(enabled by pgmanager)"
  const TLS_MODE := "client_tls_sslmode = require"
  const CERT_FILE := "/var/lib/postgresql/data/server.crt"
  const KEY_FILE := "/var/lib/postgresql/data/server.key"
  const TLS_CERT := "client_tls_cert_file = " + CERT_FILE
  const TLS_KEY := "client_tls_key_file = " + KEY_FILE
  const TLS_LINES := [TLS_COMMENT, TLS_MODE, TLS_CERT, TLS_KEY, ""]

  function WithLines(content: string, lines: seq<string>): string {
    content + [NL] + Join(lines, "\n")
  }

  /** A name with an entry, or any name when there is the fallback entry. */
  predicate Serves(content: string, name: string) {
    name in Databases(content) || "*" in Databases(content)
  }

  /** There is a [databases] section, and the file ends in another one. */
  ghost predicate Closed(content: string) {
    HasHeader(Document(content)) && !Inside(Document(content), false)
  }

  // ---------- What each writer does to the file ----------

  lemma PlainStart(line: string)
    requires line == "" || (!IsSpace(line[0]) && line[0] != '[')
    ensures ReadLine(line).kind == Plain
  {
    if line != "" {
      assert TrimLeft(line) == line && [line[0]] <= line;
      TrimRightKeeps(line, [line[0]]);
      assert Trim(line)[0] == line[0] && HEADER[0] == '[';
    }
  }

  lemma TlsCommentIsPlain()
    ensures OneLine(TLS_COMMENT) && ReadLine(TLS_COMMENT).kind == Plain
  {
    PlainConcat("; Client TLS ", "(enabled by pgmanager)");
  }

  lemma TlsModeIsPlain()
    ensures OneLine(TLS_MODE) && ReadLine(TLS_MODE).kind == Plain
  {
    PlainStart(TLS_MODE);
  }

  lemma PathsOneLine()
    ensures OneLine(CERT_FILE) && OneLine(KEY_FILE)
  {
  }

  lemma TlsCertIsPlain()
    ensures OneLine(TLS_CERT) && ReadLine(TLS_CERT).kind == Plain
  {
    PathsOneLine();
    PlainConcat("client_tls_cert_file = ", CERT_FILE);
  }

  lemma TlsKeyIsPlain()
    ensures OneLine(TLS_KEY) && ReadLine(TLS_KEY).kind == Plain
  {
    PathsOneLine();
    PlainConcat("client_tls_key_file = ", KEY_FILE);
  }

  lemma PlainConcat(key: string, value: string)
    requires key != "" && OneLine(key) && OneLine(value) && !IsSpace(key[0]) && key[0] != '['
    ensures OneLine(key + value) && ReadLine(key + value).kind == Plain
  {
    PlainStart(key + value);
  }

  lemma FivePlain(a: string, b: string, c: string, d: string, e: string)
    requires OneLine(a) && ReadLine(a).kind == Plain && OneLine(b) && ReadLine(b).kind == Plain
    requires OneLine(c) && ReadLine(c).kind == Plain && OneLine(d) && ReadLine(d).kind == Plain
    requires OneLine(e) && ReadLine(e).kind == Plain
    ensures PlainLines([a, b, c, d, e])
  {
  }

  lemma TlsLinesArePlain()
    ensures PlainLines(TLS_LINES)
  {
    TlsCommentIsPlain();
    TlsModeIsPlain();
    TlsCertIsPlain();
    TlsKeyIsPlain();
    PlainStart("");
    FivePlain(TLS_COMMENT, TLS_MODE, TLS_CERT, TLS_KEY, "");
  }

  lemma {:induction false} StrippedPlain(lines: seq<string>)
    requires PlainLines(lines)
    ensures PlainLines(Stripped(lines))
    decreases |lines|
  {
    if lines != [] { StrippedPlain(lines[1..]); }
  }

  lemma StrippedFour(a: string, b: string, c: string, d: string, tail: seq<string>)
    requires Stripped([a]) == [a] && Stripped([b]) == [b] && Stripped([c]) == [c] && Stripped([d]) == [d]
    ensures Stripped([a, b, c, d] + tail) == [a, b, c, d] + Stripped(tail)
  {
    StrippedAppend([a], [b, c, d] + tail);
    StrippedAppend([b], [c, d] + tail);
    StrippedAppend([c], [d] + tail);
    StrippedAppend([d], tail);
    assert [a, b, c, d] + tail == [a] + ([b, c, d] + tail);
    assert [b, c, d] + tail == [b] + ([c, d] + tail);
    assert [c, d] + tail == [c] + ([d] + tail);
  }

  lemma {:induction false} StrippedAppend(a: seq<string>, b: seq<string>)
    ensures Stripped(a + b) == Stripped(a) + Stripped(b)
    decreases |a|
  {
    if a == [] {
      assert a + b == b;
    } else {
      assert (a + b)[1..] == a[1..] + b;
      StrippedAppend(a[1..], b);
    }
  }

  lemma StrippedHead(tail: seq<string>)
    ensures Stripped(BASE_HEAD + tail) == BASE_HEAD + Stripped(tail)
  {
    StrippedOne(HEADER);
    StrippedOne(FALLBACK);
    StrippedOne("");
    StrippedOne(OTHER_HEADER);
    StrippedFour(HEADER, FALLBACK, "", OTHER_HEADER, tail);
  }

  lemma StrippedOne(line: string)
    requires line == "" || line[0] !in {'c', 's', ';'}
    ensures Stripped([line]) == [line]
  {
    assert [line][1..] == [];
  }

  lemma HeadKinds()
    ensures ReadLine(HEADER).kind == Header && ReadLine(FALLBACK).kind == Plain
    ensures ReadLine("").kind == Plain && ReadLine(OTHER_HEADER).kind == Opens
  {
    TrimIdle(HEADER);
    PlainStart(FALLBACK);
    PlainStart("");
    TrimIdle(OTHER_HEADER);
    assert OTHER_HEADER[1] == 'p' && HEADER[1] == 'd' && "[" <= OTHER_HEADER;
  }

  lemma FallbackReads()
    ensures EntryOf(FALLBACK) == Some(("*", FALLBACK_TARGET)) && EntryOf("") == None
  {
    FallbackEntry("*", FALLBACK_TARGET);
  }

  lemma FallbackEntry(key: string, value: string)
    requires CleanKey(key) && value != "" && !IsSpace(value[0]) && !IsSpace(value[|value| - 1])
    ensures EntryOf(key + " = " + value) == Some((key, value)) && EntryOf("") == None
  {
    KeyValueReads(key, value);
  }

  lemma HeadOneLine()
    ensures OneLine(HEADER) && OneLine(FALLBACK) && OneLine(OTHER_HEADER)
  {
  }

  lemma {:induction false} PlainOutside(lines: seq<Line>)
    requires forall i :: 0 <= i < |lines| ==> lines[i].kind == Plain
    ensures Inner(lines, false) == [] && !Inside(lines, false)
    decreases |lines|
  {
    if lines != [] { PlainOutside(lines[1..]); }
  }

  lemma FourSplit<X>(a: X, b: X, c: X, d: X, tail: seq<X>)
    ensures [a, b, c, d] + tail == [a, b] + ([c, d] + tail)
  {
  }

  lemma HeadInner(a: Line, b: Line, c: Line, d: Line, tail: seq<Line>)
    requires a.kind == Header && b.kind == Plain && c.kind == Plain && d.kind == Opens
    requires forall i :: 0 <= i < |tail| ==> tail[i].kind == Plain
    ensures Inner([a, b, c, d] + tail, false) == [b.text, c.text] && !Inside([a, b, c, d] + tail, false)
  {
    OpenPair(a, b, [c, d] + tail);
    ClosePair(c, d, tail);
    PlainOutside(tail);
    FourSplit(a, b, c, d, tail);
  }

  lemma OpenPair(a: Line, b: Line, rest: seq<Line>)
    requires a.kind == Header && b.kind == Plain
    ensures Inner([a, b] + rest, false) == [b.text] + Inner(rest, true)
    ensures Inside([a, b] + rest, false) == Inside(rest, true)
  {
    assert ([a, b] + rest)[1..] == [b] + rest && ([b] + rest)[1..] == rest;
  }

  lemma ClosePair(c: Line, d: Line, rest: seq<Line>)
    requires c.kind == Plain && d.kind == Opens
    ensures Inner([c, d] + rest, true) == [c.text] + Inner(rest, false)
    ensures Inside([c, d] + rest, true) == Inside(rest, false)
  {
    assert ([c, d] + rest)[1..] == [d] + rest && ([d] + rest)[1..] == rest;
  }

  /** The base file serves every name. */
  lemma StartServesEverything(base: string)
    requires IsBase(base)
    ensures Closed(Started(base)) && forall n :: Serves(Started(base), n)
  {
    var tail :| Split(base, NL) == BASE_HEAD + tail && PlainLines(tail);
    StrippedHead(tail);
    StrippedPlain(tail);
    StartedReads(Stripped(tail));
  }

  /** Four lines and a plain tail, printed and read back. */
  lemma FourLines(a: string, b: string, c: string, d: string, tail: seq<string>)
    requires OneLine(a) && OneLine(b) && OneLine(c) && OneLine(d) && PlainLines(tail)
    requires ReadLine(a).kind == Header && ReadLine(b).kind == Plain && ReadLine(c).kind == Plain && ReadLine(d).kind == Opens
    ensures var content := Join([a, b, c, d] + tail, "\n");
            Closed(content) && Inner(Document(content), false) == [b, c]
  {
    var lines := [a, b, c, d] + tail;
    LinesRoundTrip(lines, NL);
    ReadFour(a, b, c, d, tail);
    HeadInner(ReadLine(a), ReadLine(b), ReadLine(c), ReadLine(d), ReadLines(tail));
    assert ReadLines(lines)[0] == ReadLine(a);
  }

  lemma ReadFour(a: string, b: string, c: string, d: string, tail: seq<string>)
    ensures ReadLines([a, b, c, d] + tail) == [ReadLine(a), ReadLine(b), ReadLine(c), ReadLine(d)] + ReadLines(tail)
  {
  }

  lemma StartedReads(tail: seq<string>)
    requires PlainLines(tail)
    ensures Closed(Join(BASE_HEAD + tail, "\n"))
    ensures Databases(Join(BASE_HEAD + tail, "\n")) == map["*" := FALLBACK_TARGET]
  {
    HeadOneLine();
    HeadKinds();
    FourLines(HEADER, FALLBACK, "", OTHER_HEADER, tail);
    FallbackReads();
    OneEntry(FALLBACK, "*", FALLBACK_TARGET);
  }

  lemma ReadConcat(a: seq<string>, b: seq<string>)
    ensures ReadLines(a + b) == ReadLines(a) + ReadLines(b)
  {
  }

  lemma OneEntry(line: string, key: string, value: string)
    requires EntryOf(line) == Some((key, value)) && EntryOf("") == None
    ensures ReadEntries([line, ""]) == map[key := value]
  {
    assert [line, ""][1..] == [""] && [""][1..] == [];
    assert ReadEntries([""]) == map[];
  }

  /** Plain lines appended to another section change no entry. */
  lemma AppendServesSame(content: string, lines: seq<string>)
    requires Closed(content) && lines != [] && PlainLines(lines)
    ensures Closed(WithLines(content, lines)) && Databases(WithLines(content, lines)) == Databases(content)
  {
    AppendedDocument(content, lines);
    ClosedAppend(Document(content), ReadLines(lines));
  }

  lemma AppendedDocument(content: string, lines: seq<string>)
    requires lines != [] && PlainLines(lines)
    ensures Document(WithLines(content, lines)) == Document(content) + ReadLines(lines)
  {
    SplitAtSep(content, Join(lines, "\n"), NL);
    LinesRoundTrip(lines, NL);
    ReadConcat(Split(content, NL), lines);
  }

  lemma ClosedAppend(doc: seq<Line>, more: seq<Line>)
    requires HasHeader(doc) && !Inside(doc, false) && forall i :: 0 <= i < |more| ==> more[i].kind == Plain
    ensures HasHeader(doc + more) && !Inside(doc + more, false) && Inner(doc + more, false) == Inner(doc, false)
  {
    var i :| 0 <= i < |doc| && doc[i].kind == Header;
    assert (doc + more)[i].kind == Header;
    InnerAppend(doc, more, false);
    ReplaceAppend(doc, more, false, []);
    PlainOutside(more);
  }

  /** A rebuild serves exactly the names it was given, and leaves the file closed. */
  lemma RebuildServesOnly(content: string, names: seq<string>)
    requires Closed(content) && ValidNames(names)
    ensures Closed(RewriteDatabases(content, names))
    ensures forall n :: Serves(RewriteDatabases(content, names), n) <==> n in names
  {
    var middle := Middle(names);
    MiddleIsPlain(names);
    BodyIsBody(middle);
    RewrittenDocument(content, middle);
    ReplaceHasHeader(Document(content), false, Body(middle));
    ReplaceAgain(Document(content), false, Body(middle), []);
    assert RewriteLines(Document(content), Body(middle)) == Replace(Document(content), false, Body(middle));
    RewriteServesExactly(content, names);
    StarIsNoName(names);
  }

  lemma StarIsNoName(names: seq<string>)
    requires ValidNames(names)
    ensures "*" !in names
  {
    forall i | 0 <= i < |names|
      ensures names[i] != "*"
    {
      assert IsWordChar(names[i][0]);
    }
  }

  // ---------- The two processes ----------

  /** Which databases the last writer of [databases] meant to serve. */
  datatype Meant = Everything | Only(names: seq<string>)

  predicate Allows(m: Meant, name: string) {
    m.Everything? || name in m.names
  }

  /**
   `loaded` is the text PgBouncer read last, and `listening` says whether it accepts connections.  History
   variables: `last` is what the writer of `ini` meant, `heard` what the writer of `loaded` meant, and
   `missed` says that some rebuild has come since `loaded` was read.
   */
  datatype Shared = Shared(
    tls: T.State,
    ini: string,
    loaded: string,
    listening: bool,
    last: Meant,
    heard: Meant,
    missed: bool)

  datatype Action = Tls(action: T.Action) | Listen | Rebuild(names: seq<string>) | Reload

  predicate Up(r: T.Running) {
    r.Plain? || r.Tls?
  }

  /** The text has been read, and the process is coming up or running. */
  predicate Reading(s: T.State) {
    s.watcher.LoadKey? || Up(s.running)
  }

  /**
   RELOAD is sent over a connection without TLS (sslmode=disable), and a PgBouncer started with
   client_tls_sslmode = require rejects those.
   */
  predicate Hears(s: Shared) {
    s.listening && s.tls.running.Plain?
  }

  /** A rebuild rewrites the file, and reloads PgBouncer if that gets through; a failed RELOAD is only logged. */
  function RebuildStep(s: Shared, names: seq<string>): Shared {
    var ini := RewriteDatabases(s.ini, names);
    if Hears(s) then s.(ini := ini, loaded := ini, last := Only(names), heard := Only(names), missed := false)
    else s.(ini := ini, last := Only(names), missed := true)
  }

  /**
   start_pgbouncer: the base file goes over the shared one, TLS lines are added, and the new process
   reads the result before the certificates it names.
   */
  function WatcherStep(base: string, s: Shared): Shared {
    var tls := T.Watch(s.tls);
    match s.tls.watcher
    case Stopping => s.(tls := tls, ini := Started(base), listening := false, last := Everything)
    case CheckKey => s.(tls := tls, ini := if tls.watcher == T.Launch(true) then WithLines(s.ini, TLS_LINES) else s.ini)
    case Launch(_) => s.(tls := tls, loaded := s.ini, heard := s.last, missed := false)
    case _ => s.(tls := tls)
  }

  /** One action; the process starts to listen at any time after its start, and other handlers send a RELOAD too. */
  function Next(base: string, s: Shared, a: Action): Shared {
    match a
    case Tls(action) => if action.WatchStep? then WatcherStep(base, s) else s.(tls := T.Next(s.tls, action))
    case Listen => s.(listening := Up(s.tls.running))
    case Rebuild(names) => if ValidNames(names) then RebuildStep(s, names) else s
    case Reload => if Hears(s) then s.(loaded := s.ini, heard := s.last, missed := false) else s
  }

  function Run(base: string, s: Shared, actions: seq<Action>): Shared
    decreases |actions|
  {
    if actions == [] then s else Run(base, Next(base, s, actions[0]), actions[1..])
  }

  ghost predicate Init(base: string, s: Shared) {
    T.Init(s.tls) && s.ini == Started(base) && !s.listening && s.last == Everything && !s.missed
  }

  ghost predicate ServesMeant(content: string, m: Meant) {
    forall n :: Serves(content, n) <==> Allows(m, n)
  }

  /** Both writers meant the same databases. */
  ghost predicate SameMeaning(m: Meant, m': Meant) {
    forall n :: Allows(m, n) <==> Allows(m', n)
  }

  ghost predicate Inv(s: Shared) {
    && Closed(s.ini) && ServesMeant(s.ini, s.last)
    && (s.listening ==> Up(s.tls.running))
    && (Up(s.tls.running) ==> s.tls.watcher.Poll? || s.tls.watcher.Seen? || s.tls.watcher.Stopping?)
    && (Reading(s.tls) ==> ServesMeant(s.loaded, s.heard) && (!s.missed ==> s.heard == s.last))
  }

  lemma InvWatcher(base: string, s: Shared)
    requires IsBase(base) && Inv(s)
    ensures Inv(WatcherStep(base, s))
  {
    match s.tls.watcher
    case Stopping => StartServesEverything(base);
    case CheckKey => InvCheckKey(base, s);
    case _ =>
  }

  lemma InvCheckKey(base: string, s: Shared)
    requires Inv(s) && s.tls.watcher.CheckKey?
    ensures Inv(WatcherStep(base, s))
  {
    TlsLinesArePlain();
    AppendKeepsMeaning(s.ini, TLS_LINES, s.last);
  }

  lemma AppendKeepsMeaning(content: string, lines: seq<string>, m: Meant)
    requires Closed(content) && ServesMeant(content, m) && lines != [] && PlainLines(lines)
    ensures Closed(WithLines(content, lines)) && ServesMeant(WithLines(content, lines), m)
  {
    AppendServesSame(content, lines);
    forall n
      ensures Serves(WithLines(content, lines), n) <==> Allows(m, n)
    {
      assert Serves(content, n) <==> Allows(m, n);
    }
  }

  lemma InvNext(base: string, s: Shared, a: Action)
    requires IsBase(base) && Inv(s)
    ensures Inv(Next(base, s, a))
  {
    match a
    case Tls(action) => if action.WatchStep? { InvWatcher(base, s); }
    case Listen =>
    case Rebuild(names) => if ValidNames(names) { RebuildServesOnly(s.ini, names); }
    case Reload =>
  }

  lemma {:induction false} InvRun(base: string, s: Shared, actions: seq<Action>)
    requires IsBase(base) && Inv(s)
    ensures Inv(Run(base, s, actions))
    decreases |actions|
  {
    if actions != [] {
      InvNext(base, s, actions[0]);
      InvRun(base, Next(base, s, actions[0]), actions[1..]);
    }
  }

  // ---------- Main results ----------

  /** The actions of the restart protocol among them. */
  function TlsActions(actions: seq<Action>): seq<T.Action>
    decreases |actions|
  {
    if actions == [] then []
    else (if actions[0].Tls? then [actions[0].action] else []) + TlsActions(actions[1..])
  }

  lemma {:induction false} RebuildsDoNotDisturb(base: string, s: Shared, actions: seq<Action>)
    ensures Run(base, s, actions).tls == T.Run(s.tls, TlsActions(actions))
    decreases |actions|
  {
    if actions != [] {
      RebuildsDoNotDisturb(base, Next(base, s, actions[0]), actions[1..]);
      if actions[0].Tls? {
        var rest := TlsActions(actions[1..]);
        assert ([actions[0].action] + rest)[1..] == rest;
      } else {
        assert [] + TlsActions(actions[1..]) == TlsActions(actions[1..]);
      }
    }
  }

  lemma MeaningOfText(content: string, heard: Meant, last: Meant)
    requires ServesMeant(content, heard)
    ensures ServesMeant(content, last) <==> SameMeaning(heard, last)
  {
    if ServesMeant(content, last) {
      forall n
        ensures Allows(heard, n) <==> Allows(last, n)
      {
        assert Serves(content, n) <==> Allows(last, n);
      }
    }
  }

  /** The step makes PgBouncer read the file: a launch, or a RELOAD it hears. */
  predicate Reads(s: Shared, a: Action) {
    match a
    case Tls(action) => action.WatchStep? && s.tls.watcher.Launch?
    case Listen => false
    case Rebuild(names) => ValidNames(names) && Hears(s)
    case Reload => Hears(s)
  }

  /** A rebuild nobody hears. */
  predicate Unheard(s: Shared, a: Action) {
    a.Rebuild? && ValidNames(a.names) && !Hears(s)
  }

  ghost predicate SomeRead(base: string, s: Shared, actions: seq<Action>)
    decreases |actions|
  {
    actions != [] && (Reads(s, actions[0]) || SomeRead(base, Next(base, s, actions[0]), actions[1..]))
  }

  /** The last steps of the run to touch the file's text or its reader are unheard rebuilds. */
  ghost predicate EndsUnheard(base: string, s: Shared, actions: seq<Action>)
    decreases |actions|
  {
    && actions != []
    && var next := Next(base, s, actions[0]);
       || EndsUnheard(base, next, actions[1..])
       || (Unheard(s, actions[0]) && !SomeRead(base, next, actions[1..]))
  }

  /** A rebuild is missed exactly when PgBouncer did not hear it and has not read the file since. */
  lemma {:induction false} MissedIff(base: string, s: Shared, actions: seq<Action>)
    ensures Run(base, s, actions).missed <==>
            EndsUnheard(base, s, actions) || (s.missed && !SomeRead(base, s, actions))
    decreases |actions|
  {
    if actions != [] { MissedIff(base, Next(base, s, actions[0]), actions[1..]); }
  }

  /**
   In every interleaving of handlers, watcher and rebuilds: a listening PgBouncer serves what the last
   writer of the file meant if and only if no rebuild went unheard since it read the text, or the last
   of those means the same databases again; and at rest it runs the TLS configuration the files ask for.
   */
  lemma ServedIsLastMeantIff(base: string, s: Shared, actions: seq<Action>)
    requires IsBase(base) && Init(base, s)
    ensures var s' := Run(base, s, actions);
            && ServesMeant(s'.ini, s'.last)
            && (s'.listening ==>
                  (ServesMeant(s'.loaded, s'.last) <==> !EndsUnheard(base, s, actions) || SameMeaning(s'.heard, s'.last)))
            && (T.Quiescent(s'.tls) ==> s'.tls.running == T.Desired(s'.tls.files))
  {
    StartServesEverything(base);
    InvRun(base, s, actions);
    var s' := Run(base, s, actions);
    if s'.listening { MeaningOfText(s'.loaded, s'.heard, s'.last); }
    MissedIff(base, s, actions);
    RebuildsDoNotDisturb(base, s, actions);
    T.NoLostRestart(s.tls, TlsActions(actions));
  }

  /** A start with TLS in which a rebuild comes between the reading of the file and the listening. */
  function LateRebuild(names: seq<string>): seq<Action> {
    var w := Tls(T.WatchStep);
    [w, w, w, w, Rebuild(names), w, Listen]
  }

  lemma RunStep(base: string, s: Shared, a: Action, rest: seq<Action>)
    ensures Run(base, s, [a] + rest) == Run(base, Next(base, s, a), rest)
  {
    assert ([a] + rest)[1..] == rest;
  }

  lemma RunSplit(base: string, s: Shared, a: Action, b: Action, c: Action, rest: seq<Action>)
    ensures Run(base, s, [a, b, c] + rest) == Run(base, Next(base, Next(base, Next(base, s, a), b), c), rest)
  {
    RunStep(base, s, a, [b, c] + rest);
    RunStep(base, Next(base, s, a), b, [c] + rest);
    RunStep(base, Next(base, Next(base, s, a), b), c, rest);
    assert [a, b, c] + rest == [a] + ([b, c] + rest) && [b, c] + rest == [b] + ([c] + rest);
  }

  /** The text is read, and PgBouncer is still loading its certificates. */
  ghost predicate Loading(s: Shared) {
    && s.tls.watcher.LoadKey? && T.ServerKey in s.tls.files.certs && !s.listening
    && Closed(s.ini) && s.loaded == s.ini && ServesMeant(s.loaded, Everything)
  }

  lemma StartLoads(base: string, s: Shared)
    requires IsBase(base) && Init(base, s) && s.tls.files.pref != Some(T.Off) && s.tls.files.HasPair()
    ensures var w := Tls(T.WatchStep);
            Loading(Next(base, Next(base, Next(base, Next(base, s, w), w), w), w))
  {
    StartServesEverything(base);
    StartWrites(base, s);
    var w := Tls(T.WatchStep);
    var s2 := Next(base, Next(base, s, w), w);
    CertsChecked(base, s2);
    LaunchLoads(base, Next(base, s2, w));
  }

  lemma StartWrites(base: string, s: Shared)
    requires Init(base, s) && s.tls.files.pref != Some(T.Off) && s.tls.files.HasPair()
    ensures var w := Tls(T.WatchStep);
            var s2 := Next(base, Next(base, s, w), w);
            s2.ini == s.ini && !s2.listening && s2.tls == s.tls.(watcher := T.CheckKey)
  {
  }

  lemma CertsChecked(base: string, s: Shared)
    requires s.tls.watcher.CheckKey? && s.tls.files.HasPair() && !s.listening
    requires Closed(s.ini) && forall n :: Serves(s.ini, n)
    ensures var s' := Next(base, s, Tls(T.WatchStep));
            && s'.tls == s.tls.(watcher := T.Launch(true)) && !s'.listening
            && Closed(s'.ini) && forall n :: Serves(s'.ini, n)
  {
    TlsLinesArePlain();
    AppendServesSame(s.ini, TLS_LINES);
    var s' := Next(base, s, Tls(T.WatchStep));
    forall n
      ensures Serves(s'.ini, n)
    {
      assert Serves(s.ini, n);
    }
  }

  lemma LaunchLoads(base: string, s: Shared)
    requires s.tls.watcher == T.Launch(true) && s.tls.files.HasPair() && !s.listening
    requires Closed(s.ini) && forall n :: Serves(s.ini, n)
    ensures Loading(Next(base, s, Tls(T.WatchStep)))
  {
  }

  /** The file has been rewritten for these names, and the process does not know. */
  ghost predicate Behind(s: Shared, names: seq<string>) {
    && !s.listening && s.missed && s.last == Only(names)
    && ServesMeant(s.loaded, Everything) && ServesMeant(s.ini, Only(names))
  }

  lemma LoadingMisses(base: string, s: Shared, names: seq<string>)
    requires Loading(s) && ValidNames(names)
    ensures var s' := Next(base, s, Rebuild(names)); Behind(s', names) && s'.tls == s.tls
  {
    RebuildServesOnly(s.ini, names);
  }

  lemma BehindListens(base: string, s: Shared, names: seq<string>)
    requires Behind(s, names) && s.tls.watcher.LoadKey? && T.ServerKey in s.tls.files.certs
    ensures var end := Next(base, Next(base, s, Tls(T.WatchStep)), Listen);
            end.listening && Behind(end.(listening := false), names)
  {
  }

  lemma LateRebuildMissed(base: string, s: Shared, names: seq<string>)
    requires Loading(s) && ValidNames(names)
    ensures var end := Run(base, s, [Rebuild(names), Tls(T.WatchStep), Listen]);
            end.listening && Behind(end.(listening := false), names)
  {
    var w := Tls(T.WatchStep);
    RunSplit(base, s, Rebuild(names), w, Listen, []);
    assert [Rebuild(names), w, Listen] == [Rebuild(names), w, Listen] + [];
    LoadingMisses(base, s, names);
    BehindListens(base, Next(base, s, Rebuild(names)), names);
  }

  /** Such a rebuild is missed: PgBouncer goes on serving every database while the file lists only some. */
  lemma RebuildMissedAtStart(base: string, s: Shared, names: seq<string>)
    requires IsBase(base) && Init(base, s) && s.tls.files.pref != Some(T.Off) && s.tls.files.HasPair()
    requires ValidNames(names)
    ensures var end := Run(base, s, LateRebuild(names));
            && end.listening && end.missed && end.last == Only(names)
            && (forall n :: Serves(end.loaded, n)) && (forall n :: Serves(end.ini, n) <==> n in names)
  {
    var w := Tls(T.WatchStep);
    RunSplit(base, s, w, w, w, [w, Rebuild(names), w, Listen]);
    assert LateRebuild(names) == [w, w, w] + [w, Rebuild(names), w, Listen];
    var s3 := Next(base, Next(base, Next(base, s, w), w), w);
    RunStep(base, s3, w, [Rebuild(names), w, Listen]);
    assert [w, Rebuild(names), w, Listen] == [w] + [Rebuild(names), w, Listen];
    StartLoads(base, s);
    LateRebuildMissed(base, Next(base, s3, w), names);
  }

  /** What one more rebuild does to a PgBouncer that serves everything. */
  ghost predicate ClosesWithoutTls(base: string, open: Shared, names: seq<string>) {
    var closed := Next(base, open, Rebuild(names));
    && (forall n :: Serves(open.loaded, n))
    && (open.tls.running.Plain? ==> forall n :: Serves(closed.loaded, n) <==> n in names)
    && (open.tls.running.Tls? ==> closed.loaded == open.loaded)
  }

  /**
   A restart serves every database, whatever else goes on, until the next rebuild that is heard: without
   TLS the next one makes PgBouncer serve exactly its list, with TLS it changes nothing.
   */
  lemma RestartReopensUntilRebuild(base: string, s: Shared, actions: seq<Action>, names: seq<string>)
    requires IsBase(base) && s.tls.watcher.Stopping? && ValidNames(names)
    requires forall i :: 0 <= i < |actions| ==> !actions[i].Rebuild?
    ensures var open := Run(base, Next(base, s, Tls(T.WatchStep)), actions);
            open.listening ==> ClosesWithoutTls(base, open, names)
  {
    RestartOpens(base, s);
    OpenUntilRebuild(base, Next(base, s, Tls(T.WatchStep)), actions, names);
  }

  lemma OpenUntilRebuild(base: string, s: Shared, actions: seq<Action>, names: seq<string>)
    requires IsBase(base) && Open(s) && ValidNames(names)
    requires forall i :: 0 <= i < |actions| ==> !actions[i].Rebuild?
    ensures var open := Run(base, s, actions); open.listening ==> ClosesWithoutTls(base, open, names)
  {
    StaysOpen(base, s, actions);
    HeardRebuild(base, Run(base, s, actions), names);
  }

  lemma RestartOpens(base: string, s: Shared)
    requires IsBase(base) && s.tls.watcher.Stopping?
    ensures Open(Next(base, s, Tls(T.WatchStep)))
  {
    StartServesEverything(base);
  }

  lemma HeardRebuild(base: string, s: Shared, names: seq<string>)
    requires Open(s) && ValidNames(names)
    ensures s.listening ==> ClosesWithoutTls(base, s, names)
  {
    RebuildServesOnly(s.ini, names);
  }

  ghost predicate Open(s: Shared) {
    Inv(s) && s.last == Everything && (Reading(s.tls) ==> s.heard == Everything)
  }

  lemma OpenNext(base: string, s: Shared, a: Action)
    requires IsBase(base) && Open(s) && !a.Rebuild?
    ensures Open(Next(base, s, a))
  {
    InvNext(base, s, a);
    HeardNext(base, s, a);
  }

  lemma HeardNext(base: string, s: Shared, a: Action)
    requires s.last == Everything && (Reading(s.tls) ==> s.heard == Everything) && !a.Rebuild?
    ensures var s' := Next(base, s, a); s'.last == Everything && (Reading(s'.tls) ==> s'.heard == Everything)
  {
  }

  lemma {:induction false} StaysOpen(base: string, s: Shared, actions: seq<Action>)
    requires IsBase(base) && Open(s) && forall i :: 0 <= i < |actions| ==> !actions[i].Rebuild?
    ensures Open(Run(base, s, actions))
    decreases |actions|
  {
    if actions != [] {
      OpenNext(base, s, actions[0]);
      StaysOpen(base, Next(base, s, actions[0]), actions[1..]);
    }
  }

  // ---------- With TLS ----------

  /** The watcher takes no step that stops PgBouncer. */
  ghost predicate NoStop(base: string, s: Shared, actions: seq<Action>)
    decreases |actions|
  {
    actions == [] ||
    (!(actions[0] == Tls(T.WatchStep) && s.tls.watcher.Stopping?) && NoStop(base, Next(base, s, actions[0]), actions[1..]))
  }

  lemma TlsKeepsText(base: string, s: Shared, a: Action)
    requires Inv(s) && s.tls.running.Tls? && !(a == Tls(T.WatchStep) && s.tls.watcher.Stopping?)
    ensures var s' := Next(base, s, a);
            s'.loaded == s.loaded && s'.heard == s.heard && s'.tls.running == s.tls.running
  {
  }

  lemma {:induction false} TextKeptUntilStop(base: string, s: Shared, actions: seq<Action>)
    requires IsBase(base) && Inv(s) && s.tls.running.Tls? && NoStop(base, s, actions)
    ensures var s' := Run(base, s, actions); s'.loaded == s.loaded && s'.heard == s.heard
    decreases |actions|
  {
    if actions != [] {
      InvNext(base, s, actions[0]);
      TlsKeepsText(base, s, actions[0]);
      TextKeptUntilStop(base, Next(base, s, actions[0]), actions[1..]);
    }
  }

  /**
   From any reachable state with TLS on: until the next restart PgBouncer serves what it read at its start,
   whatever rebuilds come, so it follows the last of them exactly when both mean the same databases.
   */
  lemma TlsServesWhatItStartedWith(base: string, s: Shared, first: seq<Action>, later: seq<Action>)
    requires IsBase(base) && Init(base, s) && Run(base, s, first).tls.running.Tls?
    requires NoStop(base, Run(base, s, first), later)
    ensures var up := Run(base, s, first);
            var end := Run(base, up, later);
            && (forall n :: Serves(end.loaded, n) <==> Allows(up.heard, n))
            && (ServesMeant(end.loaded, end.last) <==> SameMeaning(up.heard, end.last))
  {
    StartServesEverything(base);
    InvRun(base, s, first);
    var up := Run(base, s, first);
    TextKeptUntilStop(base, up, later);
    MeaningOfText(up.loaded, up.heard, Run(base, up, later).last);
  }
}
