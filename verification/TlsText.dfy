/**
 The TLS lines of pgbouncer.ini across restarts and rebuilds: what the running PgBouncer was told about
 TLS is what it is doing.
 */
module TlsText {
  import opened Prelude
  import opened Text
  import opened PgBouncerIni
  import opened Restarts
  import T = TlsRestart

  predicate IsTlsLine(line: string) {
    HasPrefix(line, "client_tls_") || HasPrefix(line, "server_tls_")
  }

  function TlsLines(lines: seq<Line>): seq<string>
    decreases |lines|
  {
    if lines == [] then [] else (if IsTlsLine(lines[0].text) then [lines[0].text] else []) + TlsLines(lines[1..])
  }

  /** The TLS settings of the file: those outside [databases], where a line names a database. */
  function TlsSettings(content: string): seq<string> {
    TlsLines(Others(Document(content), false))
  }

  /** What write_tls_config adds when TLS is on. */
  const TLS_ON := [
    "client_tls_sslmode = require",
    "client_tls_cert_file = " + "/var/lib/postgresql/data/server.crt",
    "client_tls_key_file = " + "/var/lib/postgresql/data/server.key"]

  // ---------- The writers ----------

  lemma {:induction false} TlsLinesAppend(a: seq<Line>, b: seq<Line>)
    ensures TlsLines(a + b) == TlsLines(a) + TlsLines(b)
    decreases |a|
  {
    if a == [] {
      assert a + b == b;
    } else {
      var head := if IsTlsLine(a[0].text) then [a[0].text] else [];
      assert (a + b)[1..] == a[1..] + b && (a + b)[0] == a[0];
      TlsLinesAppend(a[1..], b);
      assert TlsLines(a + b) == head + TlsLines(a[1..] + b);
      assert head + TlsLines(a[1..]) + TlsLines(b) == head + (TlsLines(a[1..]) + TlsLines(b));
    }
  }

  lemma {:induction false} NoTlsLines(lines: seq<Line>, inside: bool)
    requires forall i :: 0 <= i < |lines| ==> !IsTlsLine(lines[i].text)
    ensures TlsLines(Others(lines, inside)) == []
    decreases |lines|
  {
    if lines != [] {
      var next := NextInside(lines[0].kind, inside);
      NoTlsLines(lines[1..], next);
      if !next {
        assert Others(lines, inside)[1..] == Others(lines[1..], next);
      } else {
        assert Others(lines, inside) == Others(lines[1..], next);
      }
    }
  }

  lemma {:induction false} StrippedHasNone(lines: seq<string>)
    ensures forall i :: 0 <= i < |Stripped(lines)| ==> !IsTlsLine(Stripped(lines)[i])
    ensures (forall i :: 0 <= i < |lines| ==> NL !in lines[i]) ==>
              forall i :: 0 <= i < |Stripped(lines)| ==> NL !in Stripped(lines)[i]
    decreases |lines|
  {
    if lines != [] { StrippedHasNone(lines[1..]); }
  }

  /** After `cp` and `sed` no TLS setting is left, whatever the base file said. */
  lemma StartHasNone(base: string)
    requires IsBase(base)
    ensures TlsSettings(Started(base)) == []
  {
    var lines := Stripped(Split(base, NL));
    StrippedHasNone(Split(base, NL));
    var tail :| Split(base, NL) == BASE_HEAD + tail && PlainLines(tail);
    StrippedHead(tail);
    LinesRoundTrip(lines, NL);
    NoTlsLines(ReadLines(lines), false);
  }

  lemma {:induction false} OthersPlain(lines: seq<Line>)
    requires forall i :: 0 <= i < |lines| ==> lines[i].kind == Plain
    ensures Others(lines, false) == lines
    decreases |lines|
  {
    if lines != [] {
      OthersPlain(lines[1..]);
      assert [lines[0]] + lines[1..] == lines;
    }
  }

  lemma FiveLines(a: Line, b: Line, c: Line, d: Line, e: Line)
    requires !IsTlsLine(a.text) && IsTlsLine(b.text) && IsTlsLine(c.text) && IsTlsLine(d.text) && !IsTlsLine(e.text)
    ensures TlsLines([a, b, c, d, e]) == [b.text, c.text, d.text]
  {
    assert [a, b, c, d, e][1..] == [b, c, d, e] && [b, c, d, e][1..] == [c, d, e];
    assert [c, d, e][1..] == [d, e] && [d, e][1..] == [e] && [e][1..] == [];
    assert TlsLines([e]) == [];
    assert TlsLines([d, e]) == [d.text];
    assert TlsLines([c, d, e]) == [c.text, d.text];
  }

  lemma FiveRead(a: string, b: string, c: string, d: string, e: string)
    requires !IsTlsLine(a) && IsTlsLine(b) && IsTlsLine(c) && IsTlsLine(d) && !IsTlsLine(e)
    ensures TlsLines(ReadLines([a, b, c, d, e])) == [b, c, d]
  {
    FiveLines(ReadLine(a), ReadLine(b), ReadLine(c), ReadLine(d), ReadLine(e));
    assert ReadLines([a, b, c, d, e]) == [ReadLine(a), ReadLine(b), ReadLine(c), ReadLine(d), ReadLine(e)];
  }

  lemma AddedKinds()
    ensures !IsTlsLine(TLS_COMMENT) && IsTlsLine(TLS_MODE) && IsTlsLine(TLS_CERT) && IsTlsLine(TLS_KEY) && !IsTlsLine("")
  {
    assert TLS_COMMENT[0] == ';';
  }

  lemma AddedLines()
    ensures TlsLines(ReadLines(TLS_LINES)) == TLS_ON
  {
    AddedKinds();
    FiveRead(TLS_COMMENT, TLS_MODE, TLS_CERT, TLS_KEY, "");
  }

  lemma AppendAdds(content: string, lines: seq<string>)
    requires Closed(content) && lines != [] && PlainLines(lines)
    ensures TlsSettings(WithLines(content, lines)) == TlsSettings(content) + TlsLines(ReadLines(lines))
  {
    AppendedDocument(content, lines);
    OthersAppend(Document(content), ReadLines(lines), false);
    OthersPlain(ReadLines(lines));
    TlsLinesAppend(Others(Document(content), false), ReadLines(lines));
  }

  lemma AddTls(content: string)
    requires Closed(content) && TlsSettings(content) == []
    ensures TlsSettings(WithLines(content, TLS_LINES)) == TLS_ON
  {
    TlsLinesArePlain();
    AddedLines();
    AppendAdds(content, TLS_LINES);
  }

  lemma RebuildKeepsTls(content: string, names: seq<string>)
    requires ValidNames(names)
    ensures TlsSettings(RewriteDatabases(content, names)) == TlsSettings(content)
  {
    RewriteServesExactly(content, names);
  }

  // ---------- Every interleaving ----------

  /** The settings that go with what is running. */
  function Expected(r: T.Running, on: seq<string>): seq<string> {
    if r.Tls? then on else []
  }

  /** The file the watcher is writing, and the text the process has, hold the settings its state calls for. */
  ghost predicate Told(s: Shared, on: seq<string>) {
    && (match s.tls.watcher
        case ReadPref => TlsSettings(s.ini) == []
        case CheckCrt => TlsSettings(s.ini) == []
        case CheckKey => TlsSettings(s.ini) == []
        case Launch(tls) => TlsSettings(s.ini) == if tls then on else []
        case LoadKey(_) => TlsSettings(s.ini) == TlsSettings(s.loaded) == on
        case _ => true)
    && (Up(s.tls.running) ==> TlsSettings(s.ini) == TlsSettings(s.loaded) == Expected(s.tls.running, on))
  }

  lemma StoppingTold(base: string, s: Shared, on: seq<string>)
    requires IsBase(base) && s.tls.watcher.Stopping?
    ensures Told(WatcherStep(base, s), on)
  {
    StartHasNone(base);
  }

  lemma CheckKeyTold(base: string, s: Shared, on: seq<string>)
    requires Inv(s) && Told(s, on) && s.tls.watcher.CheckKey?
    requires TlsSettings(WithLines(s.ini, TLS_LINES)) == on
    ensures Told(WatcherStep(base, s), on)
  {
  }

  lemma LaunchTold(base: string, s: Shared, on: seq<string>)
    requires Inv(s) && Told(s, on) && (s.tls.watcher.Launch? || s.tls.watcher.LoadKey?)
    ensures Told(WatcherStep(base, s), on)
  {
  }

  lemma EarlyTold(base: string, s: Shared, on: seq<string>)
    requires Inv(s) && Told(s, on)
    requires s.tls.watcher.Poll? || s.tls.watcher.Seen? || s.tls.watcher.ReadPref? || s.tls.watcher.CheckCrt?
    ensures Told(WatcherStep(base, s), on)
  {
  }

  lemma WatcherTold(base: string, s: Shared)
    requires IsBase(base) && Inv(s) && Told(s, TLS_ON)
    ensures Told(WatcherStep(base, s), TLS_ON)
  {
    match s.tls.watcher
    case Stopping => StoppingTold(base, s, TLS_ON);
    case CheckKey =>
      AddTls(s.ini);
      CheckKeyTold(base, s, TLS_ON);
    case Launch(_) => LaunchTold(base, s, TLS_ON);
    case LoadKey(_) => LaunchTold(base, s, TLS_ON);
    case _ => EarlyTold(base, s, TLS_ON);
  }

  lemma RebuildTold(s: Shared, names: seq<string>, on: seq<string>)
    requires Inv(s) && Told(s, on) && ValidNames(names)
    ensures Told(RebuildStep(s, names), on)
  {
    RebuildKeepsTls(s.ini, names);
  }

  lemma ToldSame(s: Shared, s': Shared, on: seq<string>)
    requires Told(s, on) && s'.ini == s.ini && s'.loaded == s.loaded
    requires s'.tls.watcher == s.tls.watcher && s'.tls.running == s.tls.running
    ensures Told(s', on)
  {
  }

  /** The handlers' steps leave the watcher and the process alone. */
  lemma HandlerQuiet(s: T.State, a: T.Action)
    requires !a.WatchStep?
    ensures T.Next(s, a).watcher == s.watcher && T.Next(s, a).running == s.running
  {
  }

  lemma HandlerTold(s: Shared, a: T.Action, tls: T.State, on: seq<string>)
    requires Told(s, on) && !a.WatchStep? && tls == T.Next(s.tls, a)
    ensures Told(s.(tls := tls), on)
  {
    HandlerQuiet(s.tls, a);
    ToldSame(s, s.(tls := tls), on);
  }

  lemma ReloadTold(s: Shared, on: seq<string>)
    requires Told(s, on) && Inv(s) && Hears(s)
    ensures Told(s.(loaded := s.ini, heard := s.last, missed := false), on)
  {
  }

  lemma ToldNext(base: string, s: Shared, a: Action)
    requires IsBase(base) && Inv(s) && Told(s, TLS_ON)
    ensures Told(Next(base, s, a), TLS_ON)
  {
    match a
    case Tls(action) =>
      if action.WatchStep? { WatcherTold(base, s); } else { HandlerTold(s, action, T.Next(s.tls, action), TLS_ON); }
    case Listen => ToldSame(s, s.(listening := Up(s.tls.running)), TLS_ON);
    case Rebuild(names) => if ValidNames(names) { RebuildTold(s, names, TLS_ON); }
    case Reload => if Hears(s) { ReloadTold(s, TLS_ON); }
  }

  lemma {:induction false} ToldRun(base: string, s: Shared, actions: seq<Action>)
    requires IsBase(base) && Inv(s) && Told(s, TLS_ON)
    ensures Told(Run(base, s, actions), TLS_ON)
    decreases |actions|
  {
    if actions != [] {
      InvNext(base, s, actions[0]);
      ToldNext(base, s, actions[0]);
      ToldRun(base, Next(base, s, actions[0]), actions[1..]);
    }
  }

  /**
   In every interleaving the text PgBouncer has read requires TLS, with the two server files, exactly while it
   runs with a certificate, and otherwise sets nothing about TLS; the base file's own settings never count.
   */
  lemma SettingsMatchRunning(base: string, s: Shared, actions: seq<Action>)
    requires IsBase(base) && Init(base, s)
    ensures var s' := Run(base, s, actions);
            Up(s'.tls.running) ==> TlsSettings(s'.loaded) == if s'.tls.running.Tls? then TLS_ON else []
  {
    StartServesEverything(base);
    StartHasNone(base);
    ToldRun(base, s, actions);
  }
}
