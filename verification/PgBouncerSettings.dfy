/**
 The pool settings: every line that sets a configured key is rewritten in
 place, and pool keys set nowhere are appended.
 */
module PgBouncerSettings {
  import opened Prelude
  import opened Text
  import opened PgBouncerIni

  const POOL_KEYS := {"pool_mode", "default_pool_size", "max_client_conn"}

  type Config = map<string, string>

  predicate Matches(line: string, key: string) {
    HasPrefix(Trim(line), key + " =") || HasPrefix(Trim(line), key + "=")
  }

  function Setting(key: string, value: string): string {
    key + " = " + value
  }

  /** Keys without a space or '=', single-line values, and the pool keys present. */
  ghost predicate Simple(config: Config) {
    && POOL_KEYS <= config.Keys
    && forall k :: k in config ==> ' ' !in k && '=' !in k && OneLine(config[k])
  }

  ghost predicate IsSet(line: string, config: Config) {
    exists k :: k in config && Matches(line, k)
  }

  ghost function SetLine(line: string, config: Config): string {
    if IsSet(line, config) then
      var k :| k in config && Matches(line, k);
      Setting(k, config[k])
    else line
  }

  ghost function SetTexts(lines: seq<Line>, config: Config): (r: seq<string>)
    ensures |r| == |lines|
    ensures forall i :: 0 <= i < |r| ==> r[i] == SetLine(lines[i].text, config)
  {
    seq(|lines|, i requires 0 <= i < |lines| => SetLine(lines[i].text, config))
  }

  ghost function SetLines(lines: seq<Line>, config: Config): (r: seq<Line>)
    ensures |r| == |lines|
    ensures forall i :: 0 <= i < |r| ==> r[i] == ReadLine(SetLine(lines[i].text, config))
  {
    ReadLines(SetTexts(lines, config))
  }

  ghost predicate SomeMatch(lines: seq<Line>, key: string) {
    exists i :: 0 <= i < |lines| && Matches(lines[i].text, key)
  }

  /** The pool keys no line sets. */
  ghost function Missing(lines: seq<Line>): set<string> {
    set k | k in POOL_KEYS && !SomeMatch(lines, k)
  }

  function SettingTexts(config: Config, order: seq<string>): (r: seq<string>)
    requires forall k :: k in order ==> k in config
    ensures |r| == |order|
    ensures forall i :: 0 <= i < |r| ==> r[i] == Setting(order[i], config[order[i]])
  {
    seq(|order|, i requires 0 <= i < |order| => Setting(order[i], config[order[i]]))
  }

  function Extra(config: Config, order: seq<string>): (r: seq<Line>)
    requires forall k :: k in order ==> k in config
    ensures |r| == |order|
    ensures forall i :: 0 <= i < |r| ==> r[i] == ReadLine(Setting(order[i], config[order[i]]))
  {
    ReadLines(SettingTexts(config, order))
  }

  ghost function SettingsLines(lines: seq<Line>, config: Config, order: seq<string>): seq<Line>
    requires Simple(config) && Enumerates(order, Missing(lines))
  {
    SetLines(lines, config) + Extra(config, order)
  }

  /** The file after the settings were written, with the missing keys appended in the given order. */
  ghost function RewriteSettings(content: string, config: Config, order: seq<string>): string
    requires Simple(config) && Enumerates(order, Missing(Document(content)))
  {
    Print(SettingsLines(Document(content), config, order))
  }

  // ---------- Any walk over any configuration ----------

  /** For each line the key the walk over the map came to first, if any matches. */
  ghost predicate IsChoice(lines: seq<Line>, config: Config, choice: seq<Option<string>>) {
    && |choice| == |lines|
    && forall i :: 0 <= i < |lines| ==>
         match choice[i]
         case Some(k) => k in config && Matches(lines[i].text, k)
         case None => !IsSet(lines[i].text, config)
  }

  function ChosenText(line: string, config: Config, choice: Option<string>): string {
    if choice.Some? && choice.value in config then Setting(choice.value, config[choice.value]) else line
  }

  function ChosenTexts(lines: seq<Line>, config: Config, choice: seq<Option<string>>): (r: seq<string>)
    requires |choice| == |lines|
    ensures |r| == |lines|
    ensures forall i :: 0 <= i < |r| ==> r[i] == ChosenText(lines[i].text, config, choice[i])
  {
    seq(|lines|, i requires 0 <= i < |lines| => ChosenText(lines[i].text, config, choice[i]))
  }

  /** The pool keys the walk never chose. */
  function Unchosen(choice: seq<Option<string>>): set<string> {
    set k | k in POOL_KEYS && Some(k) !in choice
  }

  /** With simple keys there is nothing to choose. */
  lemma ChoiceIsForced(lines: seq<Line>, config: Config, choice: seq<Option<string>>)
    requires Simple(config) && IsChoice(lines, config, choice)
    ensures ChosenTexts(lines, config, choice) == SetTexts(lines, config) && Unchosen(choice) == Missing(lines)
  {
    forall i | 0 <= i < |lines|
      ensures ChosenText(lines[i].text, config, choice[i]) == SetLine(lines[i].text, config)
    {
      if choice[i].Some? { SetLineIs(lines[i].text, config, choice[i].value); }
    }
    forall k | k in POOL_KEYS
      ensures Some(k) in choice <==> SomeMatch(lines, k)
    {
      ChosenIffMatched(lines, config, choice, k);
    }
  }

  lemma ChosenIffMatched(lines: seq<Line>, config: Config, choice: seq<Option<string>>, k: string)
    requires Simple(config) && IsChoice(lines, config, choice) && k in POOL_KEYS
    ensures Some(k) in choice <==> SomeMatch(lines, k)
  {
    if Some(k) in choice {
      var i :| 0 <= i < |choice| && choice[i] == Some(k);
      assert Matches(lines[i].text, k);
    }
    if i :| 0 <= i < |lines| && Matches(lines[i].text, k) {
      assert IsSet(lines[i].text, config);
      AtMostOneKey(lines[i].text, k, choice[i].value);
      assert choice[i] == Some(k);
    }
  }

  // ---------- One line ----------

  /** Whatever order the map is walked in, there is only one key to find. */
  lemma AtMostOneKey(line: string, k: string, l: string)
    requires ' ' !in k && '=' !in k && ' ' !in l && '=' !in l
    requires Matches(line, k) && Matches(line, l)
    ensures k == l
  {
    var t := Trim(line);
    assert k == t[..|k|] && l == t[..|l|];
    assert |k| < |t| && t[|k|] in {' ', '='};
    assert |l| < |t| && t[|l|] in {' ', '='};
  }

  lemma SettingTrim(key: string, value: string)
    requires key == "" || !IsSpace(key[0])
    ensures HasPrefix(Trim(Setting(key, value)), if key == "" then "=" else key + " =")
  {
    var s := Setting(key, value);
    if key == "" {
      assert s[1..] == "= " + value;
      assert TrimLeft(s) == TrimLeft(s[1..]);
      assert "=" <= s[1..];
      TrimRightKeeps(s[1..], "=");
    } else {
      assert s[0] == key[0];
      var prefix := key + " =";
      assert s == prefix + (" " + value);
      assert prefix <= s && prefix[|prefix| - 1] == '=';
      TrimRightKeeps(s, prefix);
    }
  }

  lemma MatchedKey(line: string, key: string)
    requires Matches(line, key)
    ensures Trim(line) != ""
    ensures if key == "" then Trim(line)[0] in {' ', '='} else Trim(line)[0] == key[0]
    ensures key == "" || !IsSpace(key[0])
    ensures '=' in Trim(line)
  {
    TrimEdges(line);
    var t := Trim(line);
    if HasPrefix(t, key + " =") {
      assert t[|key| + 1] == '=';
      assert key != "" ==> t[0] == key[0];
    } else {
      assert t[|key|] == '=';
      assert key != "" ==> t[0] == key[0];
    }
  }

  /** A rewritten line sets the same key and means the same to the scan for [databases]. */
  lemma SettingReads(line: string, key: string, value: string)
    requires Matches(line, key)
    ensures Matches(Setting(key, value), key)
    ensures ReadLine(Setting(key, value)).kind == ReadLine(line).kind
  {
    MatchedKey(line, key);
    TrimEdges(line);
    SettingTrim(key, value);
    MatchedKey(Setting(key, value), key);
    TrimEdges(Setting(key, value));
    assert '=' !in HEADER;
    assert Trim(line)[0] == Trim(Setting(key, value))[0];
  }

  /** A value that reads back as it is written: something, without spaces around it. */
  predicate Bare(value: string) {
    value != "" && !IsSpace(value[0]) && !IsSpace(value[|value| - 1])
  }

  /** A line sets a key however it is indented, with one space before '=' or none. */
  lemma SpellingsMatch(key: string, value: string)
    requires CleanKey(key) && Bare(value)
    ensures Matches(key + "=" + value, key) && Matches(key + " = " + value, key)
    ensures Matches(" " + (key + "=" + value), key) && Matches(" " + (key + " = " + value), key)
  {
    var a, b := key + "=" + value, key + " = " + value;
    assert a[|a| - 1] == value[|value| - 1] && b[|b| - 1] == value[|value| - 1];
    TrimIdle(a);
    TrimIdle(b);
    TrimOneAfter(a);
    TrimOneAfter(b);
    assert key + "=" <= a && key + " =" <= b;
  }

  lemma SetLineIs(line: string, config: Config, key: string)
    requires Simple(config) && key in config && Matches(line, key)
    ensures SetLine(line, config) == Setting(key, config[key])
  {
    var k :| k in config && Matches(line, k) && SetLine(line, config) == Setting(k, config[k]);
    AtMostOneKey(line, k, key);
  }

  lemma TrimWithin(line: string)
    ensures OneLine(line) ==> OneLine(Trim(line))
  {
    TrimLeftWithin(line);
    TrimRightEdge(TrimLeft(line));
  }

  lemma {:induction false} TrimLeftWithin(line: string)
    ensures OneLine(line) ==> OneLine(TrimLeft(line))
  {
    if line != "" && IsSpace(line[0]) { TrimLeftWithin(line[1..]); }
  }

  lemma SetLineReads(line: string, config: Config)
    requires Simple(config) && OneLine(line)
    ensures OneLine(SetLine(line, config))
    ensures ReadLine(SetLine(line, config)).kind == ReadLine(line).kind
    ensures forall k :: k in config ==> (Matches(SetLine(line, config), k) <==> Matches(line, k))
    ensures SetLine(SetLine(line, config), config) == SetLine(line, config)
  {
    if IsSet(line, config) {
      var key :| key in config && Matches(line, key);
      SetLineIs(line, config, key);
      SettingReads(line, key, config[key]);
      var after := Setting(key, config[key]);
      SetLineIs(after, config, key);
      forall k | k in config
        ensures Matches(after, k) <==> Matches(line, k)
      {
        if Matches(after, k) { AtMostOneKey(after, k, key); }
        if Matches(line, k) { AtMostOneKey(line, k, key); }
      }
      SettingOneLine(line, key, config[key]);
    }
  }

  lemma SettingOneLine(line: string, key: string, value: string)
    requires OneLine(line) && Matches(line, key) && OneLine(value)
    ensures OneLine(Setting(key, value))
  {
    TrimWithin(line);
    assert key == Trim(line)[..|key|];
  }

  lemma PoolSetting(key: string, value: string)
    requires key in POOL_KEYS && OneLine(value)
    ensures Matches(Setting(key, value), key) && OneLine(Setting(key, value))
    ensures ReadLine(Setting(key, value)).kind == Plain
  {
    assert key[0] == 'p' || key[0] == 'd' || key[0] == 'm';
    SettingTrim(key, value);
    MatchedKey(Setting(key, value), key);
    assert '=' !in HEADER;
  }

  // ---------- The whole file ----------

  lemma SetLinesWellRead(lines: seq<Line>, config: Config)
    requires Simple(config) && WellRead(lines)
    ensures WellRead(SetLines(lines, config))
  {
    forall i | 0 <= i < |lines| { SetLineReads(lines[i].text, config); }
  }

  lemma ExtraWellRead(config: Config, order: seq<string>)
    requires Simple(config) && forall k :: k in order ==> k in POOL_KEYS
    ensures WellRead(Extra(config, order))
    ensures forall i :: 0 <= i < |order| ==> Extra(config, order)[i].kind == Plain
    ensures forall i :: 0 <= i < |order| ==> Matches(Extra(config, order)[i].text, order[i])
  {
    forall i | 0 <= i < |order|
      ensures OneLine(Setting(order[i], config[order[i]])) && ReadLine(Setting(order[i], config[order[i]])).kind == Plain
      ensures Matches(Setting(order[i], config[order[i]]), order[i])
    {
      assert order[i] in order;
      PoolSetting(order[i], config[order[i]]);
    }
  }

  lemma SettingsDocument(content: string, config: Config, order: seq<string>)
    requires Simple(config) && Enumerates(order, Missing(Document(content)))
    ensures WellRead(Document(content))
    ensures Document(RewriteSettings(content, config, order)) == SettingsLines(Document(content), config, order)
  {
    ReadBack(Split(content, NL));
    SetLinesWellRead(Document(content), config);
    ExtraWellRead(config, order);
    PrintRoundTrip(SettingsLines(Document(content), config, order));
  }

  /** Setting lines leaves no pool key newly set or unset. */
  lemma SetLinesMatch(lines: seq<Line>, config: Config, key: string)
    requires Simple(config) && WellRead(lines) && key in config
    ensures SomeMatch(SetLines(lines, config), key) <==> SomeMatch(lines, key)
  {
    forall i | 0 <= i < |lines|
      ensures Matches(SetLines(lines, config)[i].text, key) <==> Matches(lines[i].text, key)
    {
      SetLineReads(lines[i].text, config);
    }
  }

  lemma MatchesSplit(a: seq<Line>, b: seq<Line>, key: string)
    ensures SomeMatch(a + b, key) <==> SomeMatch(a, key) || SomeMatch(b, key)
  {
    var lines := a + b;
    if i :| 0 <= i < |a| && Matches(a[i].text, key) { assert Matches(lines[i].text, key); }
    if i :| 0 <= i < |b| && Matches(b[i].text, key) { assert Matches(lines[|a| + i].text, key); }
  }

  lemma NothingMissing(lines: seq<Line>, config: Config, order: seq<string>)
    requires Simple(config) && WellRead(lines) && Enumerates(order, Missing(lines))
    ensures Missing(SettingsLines(lines, config, order)) == {}
  {
    ExtraWellRead(config, order);
    forall k | k in POOL_KEYS
      ensures SomeMatch(SettingsLines(lines, config, order), k)
    {
      MatchesSplit(SetLines(lines, config), Extra(config, order), k);
      if k in Missing(lines) {
        var j :| 0 <= j < |order| && order[j] == k;
        assert Matches(Extra(config, order)[j].text, k);
      } else {
        SetLinesMatch(lines, config, k);
      }
    }
  }

  lemma SettingsLineFixed(lines: seq<Line>, config: Config, order: seq<string>, i: nat)
    requires Simple(config) && WellRead(lines) && Enumerates(order, Missing(lines)) && i < |lines| + |order|
    ensures var line := SettingsLines(lines, config, order)[i]; ReadLine(SetLine(line.text, config)) == line
  {
    if i < |lines| {
      SetLineReads(lines[i].text, config);
    } else {
      var k := order[i - |lines|];
      assert k in order && k in POOL_KEYS;
      PoolSetting(k, config[k]);
      SetLineIs(Setting(k, config[k]), config, k);
    }
  }

  lemma SetLinesAgain(lines: seq<Line>, config: Config, order: seq<string>)
    requires Simple(config) && WellRead(lines) && Enumerates(order, Missing(lines))
    ensures SetLines(SettingsLines(lines, config, order), config) == SettingsLines(lines, config, order)
  {
    var all := SettingsLines(lines, config, order);
    forall i | 0 <= i < |all|
      ensures SetLines(all, config)[i] == all[i]
    {
      SettingsLineFixed(lines, config, order, i);
    }
  }

  // ---------- Main results on the settings ----------

  /** A second run changes nothing. */
  lemma SettingsIdempotent(content: string, config: Config, order: seq<string>)
    requires Simple(config) && Enumerates(order, Missing(Document(content)))
    ensures var after := RewriteSettings(content, config, order);
            Enumerates([], Missing(Document(after))) && RewriteSettings(after, config, []) == after
  {
    SettingsDocument(content, config, order);
    var lines := Document(content);
    NothingMissing(lines, config, order);
    SetLinesAgain(lines, config, order);
    var after := RewriteSettings(content, config, order);
    assert SettingsLines(Document(after), config, []) == SettingsLines(lines, config, order);
  }

  /**
   Line by line: a line that sets a configured key carries the configured value and nothing else moves or
   changes; the rest of the file is the missing pool keys, so every pool key ends up set, to its configured value.
   */
  lemma SettingsInPlace(content: string, config: Config, order: seq<string>)
    requires Simple(config) && Enumerates(order, Missing(Document(content)))
    ensures var was := Document(content);
            var now := Document(RewriteSettings(content, config, order));
            && |now| == |was| + |order|
            && (forall i :: 0 <= i < |was| && !IsSet(was[i].text, config) ==> now[i] == was[i])
            && (forall i, k :: 0 <= i < |now| && k in config && Matches(now[i].text, k) ==> now[i].text == Setting(k, config[k]))
            && (forall k :: k in POOL_KEYS ==> exists i :: 0 <= i < |now| && now[i].text == Setting(k, config[k]))
  {
    SettingsDocument(content, config, order);
    var was := Document(content);
    var now := Document(RewriteSettings(content, config, order));
    NothingMissing(was, config, order);
    SetLinesAgain(was, config, order);
    forall i, k | 0 <= i < |now| && k in config && Matches(now[i].text, k)
      ensures now[i].text == Setting(k, config[k])
    {
      SetLineIs(now[i].text, config, k);
      assert SetLines(now, config)[i] == now[i];
    }
    forall k | k in POOL_KEYS
      ensures exists i :: 0 <= i < |now| && now[i].text == Setting(k, config[k])
    {
      assert k !in Missing(now);
      assert SomeMatch(now, k);
      var i :| 0 <= i < |now| && Matches(now[i].text, k);
    }
  }

  lemma PoolKeysAreClean()
    ensures forall k :: k in POOL_KEYS <==> k == "pool_mode" || k == "default_pool_size" || k == "max_client_conn"
    ensures CleanKey("pool_mode") && CleanKey("default_pool_size") && CleanKey("max_client_conn")
  {
  }

  /**
   Read back as `key = value`: every line the scan recognises for a configured key gives the configured
   value, and the three pool settings are each given somewhere.
   */
  lemma SettingsReadBack(content: string, config: Config, order: seq<string>)
    requires Simple(config) && Enumerates(order, Missing(Document(content)))
    requires forall k :: k in config ==> Bare(config[k])
    ensures var now := Document(RewriteSettings(content, config, order));
            && (forall i, k :: 0 <= i < |now| && k in config && CleanKey(k) && Matches(now[i].text, k) ==>
                  EntryOf(now[i].text) == Some((k, config[k])))
            && (forall k :: k == "pool_mode" || k == "default_pool_size" || k == "max_client_conn" ==>
                  k in config && exists i :: 0 <= i < |now| && EntryOf(now[i].text) == Some((k, config[k])))
  {
    SettingsInPlace(content, config, order);
    PoolKeysAreClean();
    forall k | k in config && CleanKey(k) { KeyValueReads(k, config[k]); }
    SettingLinesRead(Document(RewriteSettings(content, config, order)), config);
  }

  lemma SettingLinesRead(now: seq<Line>, config: Config)
    requires POOL_KEYS <= config.Keys
    requires forall k :: k in config && CleanKey(k) ==> EntryOf(Setting(k, config[k])) == Some((k, config[k]))
    requires forall i, k :: 0 <= i < |now| && k in config && Matches(now[i].text, k) ==> now[i].text == Setting(k, config[k])
    requires forall k :: k in POOL_KEYS ==> exists i :: 0 <= i < |now| && now[i].text == Setting(k, config[k])
    ensures forall i, k :: 0 <= i < |now| && k in config && CleanKey(k) && Matches(now[i].text, k) ==>
              EntryOf(now[i].text) == Some((k, config[k]))
    ensures forall k :: k in POOL_KEYS && CleanKey(k) ==> exists i :: 0 <= i < |now| && EntryOf(now[i].text) == Some((k, config[k]))
  {
    forall k | k in POOL_KEYS && CleanKey(k)
      ensures exists i :: 0 <= i < |now| && EntryOf(now[i].text) == Some((k, config[k]))
    {
      var i :| 0 <= i < |now| && now[i].text == Setting(k, config[k]);
      assert EntryOf(now[i].text) == Some((k, config[k]));
    }
  }

  /** Map order shows only in the order of the appended lines. */
  lemma SettingsOrderIndependent(content: string, config: Config, order: seq<string>, other: seq<string>)
    requires Simple(config) && Enumerates(order, Missing(Document(content))) && Enumerates(other, Missing(Document(content)))
    ensures var a := Document(RewriteSettings(content, config, order));
            var b := Document(RewriteSettings(content, config, other));
            var n := |Document(content)|;
            n <= |a| && n <= |b| && a[..n] == b[..n] && forall line :: line in a[n..] <==> line in b[n..]
  {
    SettingsDocument(content, config, order);
    SettingsDocument(content, config, other);
    var n := |Document(content)|;
    ExtraMembers(config, order, other);
    ExtraMembers(config, other, order);
    assert (SetLines(Document(content), config) + Extra(config, order))[n..] == Extra(config, order);
    assert (SetLines(Document(content), config) + Extra(config, other))[n..] == Extra(config, other);
  }

  lemma ExtraMembers(config: Config, order: seq<string>, other: seq<string>)
    requires forall k :: k in order ==> k in config && k in other
    requires forall k :: k in other ==> k in config
    ensures forall line :: line in Extra(config, order) ==> line in Extra(config, other)
  {
    forall line | line in Extra(config, order)
      ensures line in Extra(config, other)
    {
      var i :| 0 <= i < |order| && Extra(config, order)[i] == line;
      assert order[i] in order;
      var j :| 0 <= j < |other| && other[j] == order[i];
      assert Extra(config, other)[j] == line;
    }
  }

  // ---------- The two rewrites together ----------

  lemma SetLinesAppend(a: seq<Line>, b: seq<Line>, config: Config)
    ensures SetLines(a + b, config) == SetLines(a, config) + SetLines(b, config)
  {
  }

  lemma SetLinesKinds(lines: seq<Line>, config: Config)
    requires Simple(config) && WellRead(lines)
    ensures forall i :: 0 <= i < |lines| ==> SetLines(lines, config)[i].kind == lines[i].kind
  {
    forall i | 0 <= i < |lines| { SetLineReads(lines[i].text, config); }
  }

  lemma {:induction false} ReplaceSetLines(lines: seq<Line>, after: seq<Line>, inside: bool, body: seq<Line>, config: Config)
    requires after == SetLines(lines, config) && SetLines(body, config) == body
    requires forall i :: 0 <= i < |lines| ==> after[i].kind == lines[i].kind
    ensures Replace(after, inside, body) == SetLines(Replace(lines, inside, body), config)
    ensures Inside(after, inside) == Inside(lines, inside)
    decreases |lines|
  {
    if lines != [] {
      var next := NextInside(lines[0].kind, inside);
      var rest := Replace(lines[1..], next, body);
      var piece := if lines[0].kind == Header then body else if next then [] else [lines[0]];
      assert after[1..] == SetLines(lines[1..], config);
      ReplaceSetLines(lines[1..], after[1..], next, body, config);
      SetLinesAppend(piece, rest, config);
      assert SetLines([lines[0]], config) == [after[0]];
      assert SetLines([], config) == [];
    }
  }

  lemma {:induction false} ReplaceKeeps(lines: seq<Line>, body: seq<Line>)
    requires forall i :: 0 <= i < |lines| ==> lines[i].kind == Plain
    ensures Replace(lines, false, body) == lines
    decreases |lines|
  {
    if lines != [] {
      ReplaceKeeps(lines[1..], body);
      assert [lines[0]] + lines[1..] == lines;
    }
  }

  ghost predicate NoneSet(lines: seq<string>, config: Config) {
    forall i :: 0 <= i < |lines| ==> !IsSet(lines[i], config)
  }

  lemma HeaderSetsNothing(line: string, key: string)
    requires ReadLine(line).kind == Header
    ensures !Matches(line, key)
  {
    assert '=' !in HEADER;
    if Matches(line, key) { MatchedKey(line, key); }
  }

  lemma {:induction false} ReplaceMatches(lines: seq<Line>, inside: bool, body: seq<Line>, config: Config, key: string)
    requires WellRead(lines) && NoneSet(Texts(body), config) && NoneSet(Inner(lines, inside), config) && key in config
    ensures SomeMatch(lines, key) <==> SomeMatch(Replace(lines, inside, body), key)
    decreases |lines|
  {
    if lines != [] {
      var next := NextInside(lines[0].kind, inside);
      var rest := Replace(lines[1..], next, body);
      var piece := if lines[0].kind == Header then body else if next then [] else [lines[0]];
      var inner := if next && lines[0].kind == Plain then [lines[0].text] else [];
      var innerRest := Inner(lines[1..], next);
      assert forall i :: 0 <= i < |innerRest| ==> innerRest[i] == (inner + innerRest)[|inner| + i];
      ReplaceMatches(lines[1..], next, body, config, key);
      assert inner != [] ==> inner[0] == (inner + innerRest)[0];
      assert forall i :: 0 <= i < |body| ==> body[i].text == Texts(body)[i];
      if lines[0].kind == Header { HeaderSetsNothing(lines[0].text, key); }
      assert [lines[0]] + lines[1..] == lines;
      MatchesSplit([lines[0]], lines[1..], key);
      MatchesSplit(piece, rest, key);
    }
  }

  lemma BodySetsNothing(middle: seq<string>, config: Config)
    requires NoneSet(middle, config)
    ensures NoneSet(Texts(Body(middle)), config)
  {
    var texts := Texts(Body(middle));
    assert texts == [HEADER] + middle + [""];
    TrimIdle(HEADER);
    assert forall i :: 1 <= i <= |middle| ==> texts[i] == middle[i - 1];
    forall k | k in config { HeaderSetsNothing(HEADER, k); }
  }

  /** The allowed names are no configured keys, so the new section sets none. */
  lemma NamesSetNothing(names: seq<string>, config: Config)
    requires ValidNames(names) && Simple(config) && forall n :: n in names ==> n !in config
    ensures NoneSet(Middle(names), config)
  {
    forall i, k | 0 <= i < |Middle(names)| && k in config
      ensures !Matches(Middle(names)[i], k)
    {
      MiddleSetsNothing(names, i, k);
    }
  }

  lemma CommentSetsNothing(key: string)
    ensures !Matches(NOTHING_SERVED, key)
  {
    var t := NOTHING_SERVED;
    TrimIdle(t);
    assert '=' !in t;
    if Matches(t, key) { MatchedKey(t, key); }
  }

  lemma MiddleSetsNothing(names: seq<string>, i: nat, key: string)
    requires ValidNames(names) && i < |Middle(names)|
    requires key !in names && ' ' !in key && '=' !in key
    ensures !Matches(Middle(names)[i], key)
  {
    if names == [] {
      CommentSetsNothing(key);
    } else {
      EntryIsPlain(names[i]);
      NameIsPlain(names[i]);
      if Matches(Entry(names[i]), key) {
        assert HasPrefix(Entry(names[i]), names[i] + " =");
        AtMostOneKey(Entry(names[i]), names[i], key);
      }
    }
  }

  lemma BodyIsFixed(body: seq<Line>, config: Config)
    requires WellRead(body) && NoneSet(Texts(body), config)
    ensures SetLines(body, config) == body
  {
    forall i | 0 <= i < |body|
      ensures SetLines(body, config)[i] == body[i]
    {
      assert Texts(body)[i] == body[i].text;
    }
  }

  lemma HeaderStays(lines: seq<Line>, config: Config, extra: seq<Line>)
    requires HasHeader(lines) && Simple(config) && WellRead(lines)
    ensures HasHeader(SetLines(lines, config) + extra)
  {
    var i :| 0 <= i < |lines| && lines[i].kind == Header;
    SetLinesKinds(lines, config);
    assert (SetLines(lines, config) + extra)[i].kind == Header;
  }

  lemma MissingStays(lines: seq<Line>, body: seq<Line>, config: Config)
    requires Simple(config) && WellRead(lines)
    requires NoneSet(Inner(lines, false), config) && NoneSet(Texts(body), config)
    ensures Missing(RewriteLines(lines, body)) == Missing(lines)
  {
    forall k | k in POOL_KEYS
      ensures SomeMatch(RewriteLines(lines, body), k) <==> SomeMatch(lines, k)
    {
      ReplaceMatches(lines, false, body, config, k);
      MatchesSplit(Replace(lines, false, body), if HasHeader(lines) then [] else body, k);
      assert forall i :: 0 <= i < |body| ==> body[i].text == Texts(body)[i];
    }
  }

  lemma CommuteAfterHeader(lines: seq<Line>, body: seq<Line>, config: Config, order: seq<string>)
    requires Simple(config) && WellRead(lines) && IsBody(body) && WellRead(body) && HasHeader(lines)
    requires NoneSet(Texts(body), config)
    requires Enumerates(order, Missing(lines)) && Enumerates(order, Missing(RewriteLines(lines, body)))
    ensures RewriteLines(SettingsLines(lines, config, order), body) == SettingsLines(RewriteLines(lines, body), config, order)
            <==> order == [] || !Inside(lines, false)
  {
    var extra := Extra(config, order);
    ExtraWellRead(config, order);
    HeaderStays(lines, config, extra);
    SettingsReplaced(lines, body, config, extra);
    HeaderRewrites(lines, body);
    HeaderRewrites(SetLines(lines, config) + extra, body);
    AppendEqualIff(SetLines(RewriteLines(lines, body), config), if Inside(lines, false) then [] else extra, extra);
  }

  lemma HeaderRewrites(lines: seq<Line>, body: seq<Line>)
    requires HasHeader(lines)
    ensures RewriteLines(lines, body) == Replace(lines, false, body)
  {
  }

  lemma AppendEqualIff(a: seq<Line>, x: seq<Line>, y: seq<Line>)
    ensures a + x == a + y <==> x == y
  {
    assert (a + x)[|a|..] == x && (a + y)[|a|..] == y;
  }

  /** Replacing the sections of the set lines and of the lines appended to them. */
  lemma SettingsReplaced(lines: seq<Line>, body: seq<Line>, config: Config, extra: seq<Line>)
    requires Simple(config) && WellRead(lines) && IsBody(body) && WellRead(body) && NoneSet(Texts(body), config)
    requires forall i :: 0 <= i < |extra| ==> extra[i].kind == Plain
    ensures Replace(SetLines(lines, config) + extra, false, body) ==
            SetLines(Replace(lines, false, body), config) + (if Inside(lines, false) then [] else extra)
  {
    var after := SetLines(lines, config);
    SetLinesKinds(lines, config);
    BodyIsFixed(body, config);
    ReplaceSetLines(lines, after, false, body, config);
    ReplaceAppend(after, extra, false, body);
    if Inside(lines, false) { ReplacePlain(extra, body); } else { ReplaceKeeps(extra, body); }
  }

  lemma NoHeaderBothWays(lines: seq<Line>, body: seq<Line>, config: Config, extra: seq<Line>)
    requires Simple(config) && WellRead(lines) && !HasHeader(lines)
    requires forall i :: 0 <= i < |extra| ==> extra[i].kind == Plain
    ensures RewriteLines(SetLines(lines, config) + extra, body) == SetLines(lines, config) + extra + body
    ensures RewriteLines(lines, body) == lines + body
  {
    SetLinesKinds(lines, config);
    NoHeaderKept(lines, body);
    NoHeaderKept(SetLines(lines, config) + extra, body);
  }

  lemma SwapShows(a: seq<Line>, x: seq<Line>, y: seq<Line>)
    requires y != [] && (x != [] ==> x[0] != y[0])
    ensures a + x + y == a + y + x <==> x == []
  {
    if x != [] {
      assert (a + x + y)[|a|] == x[0];
      assert (a + y + x)[|a|] == y[0];
    }
  }

  lemma CommuteWithoutHeader(lines: seq<Line>, body: seq<Line>, config: Config, order: seq<string>)
    requires Simple(config) && WellRead(lines) && IsBody(body) && WellRead(body) && !HasHeader(lines)
    requires NoneSet(Texts(body), config)
    requires Enumerates(order, Missing(lines)) && Enumerates(order, Missing(RewriteLines(lines, body)))
    ensures RewriteLines(SettingsLines(lines, config, order), body) == SettingsLines(RewriteLines(lines, body), config, order)
            <==> order == []
  {
    var extra := Extra(config, order);
    ExtraWellRead(config, order);
    BodyIsFixed(body, config);
    NoHeaderBothWays(lines, body, config, extra);
    SetLinesAppend(lines, body, config);
    SwapShows(SetLines(lines, config), extra, body);
  }

  /**
   The two rewrites commute, to the letter, exactly when no pool key has to be appended or the file
   has a [databases] section and ends in another one; otherwise the appended lines land in [databases].
   Neither an old [databases] line nor an allowed name may be a configured key.
   */
  lemma RewritesCommuteIff(content: string, names: seq<string>, config: Config, order: seq<string>)
    requires ValidNames(names) && Simple(config) && Enumerates(order, Missing(Document(content)))
    requires NoneSet(Inner(Document(content), false), config)
    requires forall n :: n in names ==> n !in config
    ensures Enumerates(order, Missing(Document(RewriteDatabases(content, names))))
    ensures RewriteDatabases(RewriteSettings(content, config, order), names) ==
            RewriteSettings(RewriteDatabases(content, names), config, order)
            <==> order == [] || (HasHeader(Document(content)) && !Inside(Document(content), false))
  {
    var middle := Middle(names);
    MiddleIsPlain(names);
    NamesSetNothing(names, config);
    CommuteIff(content, middle, config, order);
  }

  lemma CommuteIff(content: string, middle: seq<string>, config: Config, order: seq<string>)
    requires PlainLines(middle) && Simple(config) && Enumerates(order, Missing(Document(content)))
    requires NoneSet(Inner(Document(content), false), config) && NoneSet(middle, config)
    ensures Enumerates(order, Missing(Document(RewriteWith(content, middle))))
    ensures RewriteWith(RewriteSettings(content, config, order), middle) ==
            RewriteSettings(RewriteWith(content, middle), config, order)
            <==> order == [] || (HasHeader(Document(content)) && !Inside(Document(content), false))
  {
    var lines := Document(content);
    var body := Body(middle);
    BodyIsBody(middle);
    BodySetsNothing(middle, config);
    SettingsDocument(content, config, order);
    RewrittenDocument(content, middle);
    MissingStays(lines, body, config);
    RewrittenDocument(RewriteSettings(content, config, order), middle);
    SettingsDocument(RewriteWith(content, middle), config, order);
    if HasHeader(lines) {
      CommuteAfterHeader(lines, body, config, order);
    } else {
      CommuteWithoutHeader(lines, body, config, order);
    }
  }
}
