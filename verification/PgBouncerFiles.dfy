/**
 The rebuild functions as code: line loops with flags over the two files on
 the shared volume.  Each is proved equal to the rewrite its module defines.
 */
module PgBouncerFiles {
  import opened Prelude
  import opened Text
  import H = Hba
  import I = PgBouncerIni
  import S = PgBouncerSettings

  lemma FixedLinesAre()
    ensures H.FixedLines() == [
      H.RuleLine("pgbouncer_auth", "127.0.0.1/32", H.Trust),
      H.RuleLine("pgbouncer_auth", "::1/128", H.Trust),
      H.RuleLine("pgbouncer_auth", "172.16.0.0/12", H.Trust),
      H.RuleLine("pgbouncer_auth", "192.168.0.0/16", H.Trust),
      H.RuleLine("pgbouncer_auth", "10.0.0.0/8", H.Trust),
      H.RuleLine("pgmanager", "172.16.0.0/12", H.Scram),
      H.RuleLine("pgmanager", "192.168.0.0/16", H.Scram),
      H.RuleLine("pgmanager", "10.0.0.0/8", H.Scram)]
  {
  }

  lemma LastLinesAre()
    ensures H.LastLines() == [H.RuleLine("all", "0.0.0.0/0", H.Reject), H.RuleLine("all", "::0/0", H.Reject)]
  {
  }

  /** Reading a list of possibly multi-line strings as lines. */
  function Read(parts: seq<string>): seq<I.Line> {
    I.ReadLines(SplitAll(parts, I.NL))
  }

  lemma ReadSnoc(parts: seq<string>, part: string)
    ensures Read(parts + [part]) == Read(parts) + I.ReadLines(Split(part, I.NL))
  {
    SplitAllAppend(parts, [part], I.NL);
    assert SplitAll([part], I.NL) == Split(part, I.NL) + SplitAll([], I.NL);
  }

  lemma ReadSnocLine(parts: seq<string>, line: string)
    requires I.OneLine(line)
    ensures Read(parts + [line]) == Read(parts) + [I.ReadLine(line)]
  {
    ReadSnoc(parts, line);
    SplitPlain(line, I.NL);
  }

  /** Joining such a list prints the lines it reads as. */
  lemma JoinPrints(parts: seq<string>)
    requires parts != []
    ensures Join(parts, "\n") == I.Print(Read(parts))
  {
    SplitJoin(parts, I.NL);
    JoinSplit(Join(parts, "\n"), I.NL);
    I.ReadBack(Split(Join(parts, "\n"), I.NL));
  }

  class SharedVolume {
    var hba: string
    var ini: string

    method WriteHba(rows: seq<H.Row>)
      modifies this`hba
      ensures hba == H.HbaText(rows)
    {
      var lines := FixedRules();
      lines := AppendRows(lines, rows);
      lines := lines + [H.RuleLine("all", "0.0.0.0/0", H.Reject)];
      lines := lines + [H.RuleLine("all", "::0/0", H.Reject)];
      LastLinesAre();
      assert lines == H.HbaLines(rows);
      hba := Join(lines, "\n") + "\n";
    }

    method FixedRules() returns (lines: seq<string>)
      ensures lines == H.FixedLines()
    {
      lines := [];
      lines := lines + [H.RuleLine("pgbouncer_auth", "127.0.0.1/32", H.Trust)];
      lines := lines + [H.RuleLine("pgbouncer_auth", "::1/128", H.Trust)];
      lines := lines + [H.RuleLine("pgbouncer_auth", "172.16.0.0/12", H.Trust)];
      lines := lines + [H.RuleLine("pgbouncer_auth", "192.168.0.0/16", H.Trust)];
      lines := lines + [H.RuleLine("pgbouncer_auth", "10.0.0.0/8", H.Trust)];
      lines := lines + [H.RuleLine("pgmanager", "172.16.0.0/12", H.Scram)];
      lines := lines + [H.RuleLine("pgmanager", "192.168.0.0/16", H.Scram)];
      lines := lines + [H.RuleLine("pgmanager", "10.0.0.0/8", H.Scram)];
      FixedLinesAre();
    }

    method AppendRows(start: seq<string>, rows: seq<H.Row>) returns (lines: seq<string>)
      ensures lines == start + H.RowLines(rows)
    {
      lines := start;
      for i := 0 to |rows|
        invariant lines == start + H.RowLines(rows[..i])
      {
        RowStep(start, rows, i);
        lines := AppendUser(lines, rows[i]);
      }
      assert rows[..|rows|] == rows;
    }

    method AppendUser(start: seq<string>, row: H.Row) returns (lines: seq<string>)
      ensures lines == start + H.UserLines(row)
    {
      if row.ips == None { return start; }
      if |row.ips.value| == 0 {
        return start + [H.RuleLine(H.Quote(row.user), "0.0.0.0/0", H.Reject)];
      }
      lines := AppendEntries(start, row.user, row.ips.value);
    }

    method AppendEntries(start: seq<string>, user: string, ips: seq<string>) returns (lines: seq<string>)
      ensures lines == start + H.EntryLines(user, ips)
    {
      lines := start;
      for j := 0 to |ips|
        invariant lines == start + H.EntryLines(user, ips[..j])
      {
        var ip := Trim(ips[j]);
        EntryStep(user, ips, j);
        if ip == "" { continue; }
        if '/' !in ip { ip := ip + "/32"; }
        lines := lines + [H.RuleLine(H.Quote(user), ip, H.Scram)];
      }
      assert ips[..|ips|] == ips;
    }

    method BuildSection(names: seq<string>) returns (section: string)
      ensures section == I.Section(I.Middle(names))
    {
      var dbLines: seq<string> := [];
      for i := 0 to |names|
        invariant dbLines == I.Entries(names[..i])
      {
        dbLines := dbLines + [names[i] + " = host=db port=5432 dbname=" + names[i]];
        EntriesStep(names, i);
      }
      assert names[..|names|] == names;
      section := "[databases]\n";
      if |dbLines| > 0 {
        section := section + Join(dbLines, "\n") + "\n";
      } else {
        section := section + "; no databases allowed through PgBouncer\n";
      }
      SectionIs(names, section);
    }

    method RebuildDatabases(names: seq<string>)
      requires I.ValidNames(names)
      modifies this`ini
      ensures ini == I.RewriteDatabases(old(ini), names)
    {
      var section := BuildSection(names);
      I.MiddleIsPlain(names);
      ini := ReplaceSections(ini, section, I.Middle(names));
    }

    method ReplaceSections(content: string, section: string, ghost middle: seq<string>) returns (out: string)
      requires middle != [] && I.PlainLines(middle) && section == I.Section(middle)
      ensures out == I.RewriteWith(content, middle)
    {
      I.SectionSplits(middle);
      ghost var body := I.Body(middle);
      var lines := Split(content, I.NL);
      ghost var doc := I.Document(content);
      var result: seq<string> := [];
      var inDatabases := false;
      var replaced := false;
      for i := 0 to |lines|
        invariant Read(result) == I.Replace(doc[..i], false, body)
        invariant inDatabases == I.Inside(doc[..i], false)
        invariant replaced == I.HasHeader(doc[..i])
      {
        var line := lines[i];
        var trimmed := Trim(line);
        assert doc[i] == I.ReadLine(line);
        ReplaceStep(doc, i, body);
        ghost var before := result;
        if trimmed == "[databases]" {
          inDatabases := true;
          replaced := true;
          result := result + [section];
          ReadSnoc(before, section);
          continue;
        }
        if inDatabases && HasPrefix(trimmed, "[") {
          inDatabases := false;
        }
        if !inDatabases {
          result := result + [line];
          ReadSnocLine(before, line);
        }
      }
      assert doc[..|lines|] == doc;
      if !replaced {
        ReadSnoc(result, section);
        result := result + [section];
      }
      RewriteNonempty(doc, body);
      assert Read(result) == I.RewriteLines(doc, body);
      JoinPrints(result);
      out := Join(result, "\n");
    }

    /** Each key of a walk over the map is tried until one matches. */
    method SetOne(line: string, config: S.Config) returns (out: string, matched: Option<string>)
      ensures out == S.ChosenText(line, config, matched)
      ensures matched.Some? ==> matched.value in config && S.Matches(line, matched.value)
      ensures matched == None ==> !S.IsSet(line, config)
    {
      var keys := config.Keys;
      while keys != {}
        invariant keys <= config.Keys
        invariant forall k :: k in config && k !in keys ==> !S.Matches(line, k)
        decreases keys
      {
        var key :| key in keys;
        if S.Matches(line, key) { return key + " = " + config[key], Some(key); }
        keys := keys - {key};
      }
      return line, None;
    }

    /** The configuration always holds the pool keys: their defaults are there before the table is read. */
    method RebuildSettings(config: S.Config)
      requires S.POOL_KEYS <= config.Keys
      modifies this`ini
      ensures exists choice, order ::
                && S.IsChoice(I.Document(old(ini)), config, choice) && Enumerates(order, S.Unchosen(choice))
                && ini == Join(S.ChosenTexts(I.Document(old(ini)), config, choice) + S.SettingTexts(config, order), "\n")
      ensures S.Simple(config) ==>
                exists order :: Enumerates(order, S.Missing(I.Document(old(ini))))
                                && ini == S.RewriteSettings(old(ini), config, order)
    {
      ghost var doc := I.Document(ini);
      var result, configKeys;
      ghost var choice, order;
      result, configKeys, choice := SetEach(Split(ini, I.NL), config);
      result, order := AppendMissing(result, config, configKeys);
      if S.Simple(config) { PrintSettings(doc, config, choice, order); }
      ini := Join(result, "\n");
    }

    method SetEach(lines: seq<string>, config: S.Config)
      returns (result: seq<string>, configKeys: set<string>, ghost choice: seq<Option<string>>)
      ensures S.IsChoice(I.ReadLines(lines), config, choice)
      ensures result == S.ChosenTexts(I.ReadLines(lines), config, choice)
      ensures configKeys == S.Unchosen(choice)
    {
      ghost var doc := I.ReadLines(lines);
      result, choice := [], [];
      configKeys := S.POOL_KEYS;
      for i := 0 to |lines|
        invariant S.IsChoice(doc[..i], config, choice)
        invariant result == S.ChosenTexts(doc[..i], config, choice)
        invariant configKeys == S.Unchosen(choice)
      {
        var line, matched := SetOne(lines[i], config);
        result := result + [line];
        ChoiceStep(doc, i, config, choice, matched);
        choice := choice + [matched];
        if matched.Some? { configKeys := configKeys - {matched.value}; }
      }
      assert doc[..|lines|] == doc;
    }

    method AppendMissing(start: seq<string>, config: S.Config, missing: set<string>)
      returns (result: seq<string>, ghost order: seq<string>)
      requires missing <= config.Keys
      ensures Enumerates(order, missing) && result == start + S.SettingTexts(config, order)
    {
      result, order := start, [];
      var keys := config.Keys;
      while keys != {}
        invariant Enumerates(order, missing - keys) && keys <= config.Keys
        invariant result == start + S.SettingTexts(config, order)
        decreases keys
      {
        var key :| key in keys;
        keys := keys - {key};
        if key in missing {
          result := result + [key + " = " + config[key]];
          assert S.SettingTexts(config, order + [key]) == S.SettingTexts(config, order) + [S.Setting(key, config[key])];
          order := order + [key];
        }
      }
      assert missing - keys == missing;
    }
  }

  lemma RowStep(start: seq<string>, rows: seq<H.Row>, i: nat)
    requires i < |rows|
    ensures start + H.RowLines(rows[..i + 1]) == start + H.RowLines(rows[..i]) + H.UserLines(rows[i])
  {
    assert rows[..i + 1] == rows[..i] + [rows[i]];
    RowLinesAppend(rows[..i], [rows[i]]);
    assert H.RowLines([rows[i]][1..]) == [];
  }

  lemma {:induction false} RowLinesAppend(a: seq<H.Row>, b: seq<H.Row>)
    ensures H.RowLines(a + b) == H.RowLines(a) + H.RowLines(b)
    decreases |a|
  {
    if a == [] {
      assert a + b == b;
    } else {
      assert (a + b)[1..] == a[1..] + b;
      RowLinesAppend(a[1..], b);
    }
  }

  lemma EntryStep(user: string, ips: seq<string>, j: nat)
    requires j < |ips|
    ensures var ip := Trim(ips[j]);
            H.EntryLines(user, ips[..j + 1]) ==
            H.EntryLines(user, ips[..j]) + (if ip == "" then [] else [H.RuleLine(H.Quote(user), H.WithSlash(ip), H.Scram)])
  {
    assert ips[..j + 1] == ips[..j] + [ips[j]];
    EntryLinesAppend(user, ips[..j], [ips[j]]);
    assert H.EntryLines(user, [ips[j]][1..]) == [];
  }

  lemma {:induction false} EntryLinesAppend(user: string, a: seq<string>, b: seq<string>)
    ensures H.EntryLines(user, a + b) == H.EntryLines(user, a) + H.EntryLines(user, b)
    decreases |a|
  {
    if a == [] {
      assert a + b == b;
    } else {
      assert (a + b)[1..] == a[1..] + b;
      EntryLinesAppend(user, a[1..], b);
    }
  }

  lemma EntriesStep(names: seq<string>, i: nat)
    requires i < |names|
    ensures I.Entries(names[..i + 1]) == I.Entries(names[..i]) + [names[i] + " = host=db port=5432 dbname=" + names[i]]
  {
    EntryIs(names[i]);
    assert names[..i + 1] == names[..i] + [names[i]];
  }

  lemma EntryIs(name: string)
    ensures name + " = host=db port=5432 dbname=" + name == I.Entry(name)
  {
  }

  lemma SectionIs(names: seq<string>, section: string)
    requires section == "[databases]\n" + (if names != [] then Join(I.Entries(names), "\n") + "\n" else "; no databases allowed through PgBouncer\n")
    ensures section == I.Section(I.Middle(names))
  {
    if names == [] {
      assert Join(I.Middle(names), "\n") == "; no databases allowed through PgBouncer";
    }
  }

  lemma ReplaceStep(doc: seq<I.Line>, i: nat, body: seq<I.Line>)
    requires i < |doc|
    ensures var inside := I.Inside(doc[..i], false);
            var next := I.NextInside(doc[i].kind, inside);
            && I.Inside(doc[..i + 1], false) == next
            && I.Replace(doc[..i + 1], false, body) ==
               I.Replace(doc[..i], false, body)
               + (if doc[i].kind == I.Header then body else if next then [] else [doc[i]])
    ensures I.HasHeader(doc[..i + 1]) <==> I.HasHeader(doc[..i]) || doc[i].kind == I.Header
  {
    assert doc[..i + 1] == doc[..i] + [doc[i]];
    I.ReplaceAppend(doc[..i], [doc[i]], false, body);
    HeaderSnoc(doc[..i], doc[i]);
  }

  lemma RewriteNonempty(doc: seq<I.Line>, body: seq<I.Line>)
    requires doc != [] && body != []
    ensures I.RewriteLines(doc, body) != []
  {
  }

  lemma HeaderSnoc(lines: seq<I.Line>, line: I.Line)
    ensures I.HasHeader(lines + [line]) <==> I.HasHeader(lines) || line.kind == I.Header
  {
    if i :| 0 <= i < |lines| && lines[i].kind == I.Header { assert (lines + [line])[i].kind == I.Header; }
    if line.kind == I.Header { assert (lines + [line])[|lines|].kind == I.Header; }
  }

  lemma ChoiceStep(doc: seq<I.Line>, i: nat, config: S.Config, choice: seq<Option<string>>, matched: Option<string>)
    requires i < |doc| && S.IsChoice(doc[..i], config, choice)
    requires matched.Some? ==> matched.value in config && S.Matches(doc[i].text, matched.value)
    requires matched == None ==> !S.IsSet(doc[i].text, config)
    ensures S.IsChoice(doc[..i + 1], config, choice + [matched])
    ensures S.ChosenTexts(doc[..i + 1], config, choice + [matched]) ==
            S.ChosenTexts(doc[..i], config, choice) + [S.ChosenText(doc[i].text, config, matched)]
    ensures S.Unchosen(choice + [matched]) == S.Unchosen(choice) - (if matched.Some? then {matched.value} else {})
  {
    assert doc[..i + 1] == doc[..i] + [doc[i]];
  }

  lemma TextsRead(a: seq<string>, b: seq<string>)
    ensures I.Texts(I.ReadLines(a) + I.ReadLines(b)) == a + b
  {
  }

  lemma PrintSettings(doc: seq<I.Line>, config: S.Config, choice: seq<Option<string>>, order: seq<string>)
    requires S.Simple(config) && S.IsChoice(doc, config, choice) && Enumerates(order, S.Unchosen(choice))
    ensures Enumerates(order, S.Missing(doc))
    ensures Join(S.ChosenTexts(doc, config, choice) + S.SettingTexts(config, order), "\n") ==
            I.Print(S.SettingsLines(doc, config, order))
  {
    S.ChoiceIsForced(doc, config, choice);
    TextsRead(S.SetTexts(doc, config), S.SettingTexts(config, order));
  }
}
