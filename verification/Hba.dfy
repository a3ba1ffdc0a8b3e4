/**
 The generated pg_hba.conf: text on one side, a first-match reader on the
 other, and the access policy the two must amount to.
 */
module Hba {
  import opened Prelude
  import opened Text

  const NL := '\n'

  // ---------- Addresses and blocks ----------

  datatype Address = V4(bits: nat) | V6(bits: nat)

  datatype Block = Block(net: Address, prefix: nat)

  function Pow2(n: nat): (r: nat)
    ensures r > 0
  {
    if n == 0 then 1 else 2 * Pow2(n - 1)
  }

  function Width(a: Address): nat {
    if a.V4? then 32 else 128
  }

  /** Without the last k bits. */
  function Shift(bits: nat, k: nat): nat
    decreases k
  {
    if k == 0 then bits else Shift(bits / 2, k - 1)
  }

  /** The address agrees with the block's in its first `prefix` bits. */
  predicate Contains(b: Block, a: Address) {
    && b.net.V4? == a.V4?
    && b.prefix <= Width(a)
    && Shift(a.bits, Width(a) - b.prefix) == Shift(b.net.bits, Width(a) - b.prefix)
  }

  ghost predicate WellFormed(a: Address) {
    a.bits < Pow2(Width(a))
  }

  function ParseNat(s: string): Option<nat>
    decreases |s|
  {
    if s == "" || !IsDigit(s[|s| - 1]) then None
    else if |s| == 1 then Some((s[0] - '0') as nat)
    else
      match ParseNat(s[..|s| - 1])
      case Some(n) => Some(10 * n + (s[|s| - 1] - '0') as nat)
      case None => None
  }

  function ParseOctet(s: string): Option<nat> {
    if |s| > 3 || (|s| > 1 && s[0] == '0') then None
    else match ParseNat(s)
      case Some(n) => if n <= 255 then Some(n) else None
      case None => None
  }

  /** Dotted quads. */
  function ParseV4(s: string): Option<Address> {
    var parts := Split(s, '.');
    if |parts| != 4 then None
    else match (ParseOctet(parts[0]), ParseOctet(parts[1]), ParseOctet(parts[2]), ParseOctet(parts[3]))
      case (Some(a), Some(b), Some(c), Some(d)) => Some(V4(((a * 256 + b) * 256 + c) * 256 + d))
      case _ => None
  }

  function HexDigit(c: char): Option<nat> {
    if IsDigit(c) then Some((c - '0') as nat)
    else if 'a' <= c <= 'f' then Some((c - 'a') as nat + 10)
    else if 'A' <= c <= 'F' then Some((c - 'A') as nat + 10)
    else None
  }

  function ParseHex(s: string): Option<nat>
    decreases |s|
  {
    if s == "" then Some(0)
    else match (ParseHex(s[..|s| - 1]), HexDigit(s[|s| - 1]))
      case (Some(n), Some(d)) => Some(16 * n + d)
      case _ => None
  }

  function ParseGroup(s: string): Option<nat> {
    if 1 <= |s| <= 4 then ParseHex(s) else None
  }

  /** The 16-bit groups; a dotted quad may stand for the last two. */
  function ParseGroups(parts: seq<string>, quad: bool): Option<seq<nat>>
    decreases |parts|
  {
    if parts == [] then Some([])
    else if quad && |parts| == 1 && '.' in parts[0] then
      match ParseV4(parts[0])
      case Some(a) => Some([a.bits / 65536, a.bits % 65536])
      case None => None
    else
      match (ParseGroup(parts[0]), ParseGroups(parts[1..], quad))
      case (Some(g), Some(gs)) => Some([g] + gs)
      case _ => None
  }

  function Groups(s: string, quad: bool): Option<seq<nat>> {
    if s == "" then Some([]) else ParseGroups(Split(s, ':'), quad)
  }

  /** Where the first "::" is, or the length of the text. */
  function Gap(s: string): (n: nat)
    ensures n == |s| || n + 2 <= |s|
  {
    if |s| < 2 then |s| else if s[..2] == "::" then 0 else 1 + Gap(s[1..])
  }

  function Value(groups: seq<nat>): nat
    decreases |groups|
  {
    if groups == [] then 0 else 65536 * Value(groups[..|groups| - 1]) + groups[|groups| - 1]
  }

  function Zeros(n: nat): (r: seq<nat>)
    ensures |r| == n && forall i :: 0 <= i < n ==> r[i] == 0
  {
    seq(n, _ => 0)
  }

  /** Section 2.2 of RFC 4291: eight groups, a run of zero groups written "::", an IPv4 tail. */
  function ParseV6(s: string): Option<Address> {
    var gap := Gap(s);
    if gap == |s| then
      match Groups(s, true)
      case Some(gs) => if |gs| == 8 then Some(V6(Value(gs))) else None
      case None => None
    else
      match (Groups(s[..gap], false), Groups(s[gap + 2..], true))
      case (Some(a), Some(b)) => if |a| + |b| <= 7 then Some(V6(Value(a + Zeros(8 - |a| - |b|) + b))) else None
      case _ => None
  }

  function ParseAddress(s: string): Option<Address> {
    if ':' in s then ParseV6(s) else ParseV4(s)
  }

  function ParseBlock(s: string): Option<Block> {
    var parts := Split(s, '/');
    if |parts| != 2 then None
    else match (ParseAddress(parts[0]), ParseNat(parts[1]))
      case (Some(a), Some(n)) => if n <= Width(a) then Some(Block(a, n)) else None
      case _ => None
  }

  predicate InBlock(text: string, client: Address) {
    ParseBlock(text).Some? && Contains(ParseBlock(text).value, client)
  }

  // ---------- Rules ----------

  datatype Method = Trust | Scram | Reject

  datatype Token = Word(text: string) | Quoted(text: string)

  datatype Rule = Rule(user: Option<string>, block: Block, auth: Method)

  /** The length of the longest prefix without the character. */
  function Span(s: string, stop: char): (n: nat)
    ensures n <= |s|
  {
    if s == "" || s[0] == stop then 0 else 1 + Span(s[1..], stop)
  }

  /** Words separated by spaces; a quoted token is never a keyword. */
  function Tokenize(s: string): seq<Token>
    decreases |s|
  {
    if s == "" then []
    else if s[0] == ' ' then Tokenize(s[1..])
    else if s[0] == '"' then
      var n := Span(s[1..], '"');
      [Quoted(s[1..][..n])] + Tokenize(if n + 2 <= |s| then s[n + 2..] else "")
    else
      var n := Span(s, ' ');
      [Word(s[..n])] + (if n > 0 then Tokenize(s[n..]) else [])
  }

  function ParseMethod(s: string): Option<Method> {
    if s == "trust" then Some(Trust)
    else if s == "scram-sha-256" then Some(Scram)
    else if s == "reject" then Some(Reject)
    else None
  }

  function MethodText(m: Method): string {
    match m
    case Trust => "trust"
    case Scram => "scram-sha-256"
    case Reject => "reject"
  }

  function RuleOf(t: seq<Token>): Option<Rule> {
    if |t| == 5 && t[0] == Word("host") && t[1] == Word("all") then
      match (ParseBlock(t[3].text), ParseMethod(t[4].text))
      case (Some(b), Some(m)) => Some(Rule(if t[2] == Word("all") then None else Some(t[2].text), b, m))
      case _ => None
    else None
  }

  /** host all USER ADDRESS METHOD; lines that do not parse are skipped. */
  function ParseRule(line: string): Option<Rule> {
    RuleOf(Tokenize(line))
  }

  predicate Applies(r: Rule, user: string, client: Address) {
    (r.user == None || r.user == Some(user)) && Contains(r.block, client)
  }

  function FirstMatch(lines: seq<string>, user: string, client: Address): Option<Method>
    decreases |lines|
  {
    if lines == [] then None
    else
      var r := ParseRule(lines[0]);
      if r.Some? && Applies(r.value, user, client) then Some(r.value.auth)
      else FirstMatch(lines[1..], user, client)
  }

  /** What PgBouncer answers a client, reading the file top to bottom. */
  function Decide(file: string, user: string, client: Address): Option<Method> {
    FirstMatch(Split(file, NL), user, client)
  }

  // ---------- The generator ----------

  /** A user's earliest row; `ips` is None when the JSON is not a list of strings. */
  datatype Row = Row(user: string, ips: Option<seq<string>>)

  function RuleLine(user: string, address: string, auth: Method): string {
    "host all " + user + " " + address + " " + MethodText(auth)
  }

  function Quote(user: string): string {
    "\"" + user + "\""
  }

  const AGENT := "pgbouncer_auth"
  const APP := "pgmanager"
  const LOCAL := ["127.0.0.1/32", "::1/128"]
  const PRIVATE := ["172.16.0.0/12", "192.168.0.0/16", "10.0.0.0/8"]
  const ANY_V4 := "0.0.0.0/0"
  const ANY_V6 := "::0/0"

  function LinesFor(user: string, blocks: seq<string>, auth: Method): (r: seq<string>)
    ensures |r| == |blocks|
    ensures forall i :: 0 <= i < |r| ==> r[i] == RuleLine(user, blocks[i], auth)
  {
    seq(|blocks|, i requires 0 <= i < |blocks| => RuleLine(user, blocks[i], auth))
  }

  function WithSlash(entry: string): string {
    if '/' in entry then entry else entry + "/32"
  }

  function EntryLines(user: string, ips: seq<string>): seq<string>
    decreases |ips|
  {
    if ips == [] then []
    else
      var ip := Trim(ips[0]);
      (if ip == "" then [] else [RuleLine(Quote(user), WithSlash(ip), Scram)]) + EntryLines(user, ips[1..])
  }

  function UserLines(row: Row): seq<string> {
    match row.ips
    case None => []
    case Some(ips) => if ips == [] then [RuleLine(Quote(row.user), ANY_V4, Reject)] else EntryLines(row.user, ips)
  }

  function RowLines(rows: seq<Row>): seq<string>
    decreases |rows|
  {
    if rows == [] then [] else UserLines(rows[0]) + RowLines(rows[1..])
  }

  function FixedLines(): seq<string> {
    LinesFor(AGENT, LOCAL + PRIVATE, Trust) + LinesFor(APP, PRIVATE, Scram)
  }

  function LastLines(): seq<string> {
    LinesFor("all", [ANY_V4, ANY_V6], Reject)
  }

  function HbaLines(rows: seq<Row>): seq<string> {
    FixedLines() + RowLines(rows) + LastLines()
  }

  function HbaText(rows: seq<Row>): string {
    Join(HbaLines(rows), "\n") + "\n"
  }

  // ---------- The policy ----------

  predicate Admits(entry: string, client: Address) {
    Trim(entry) != "" && InBlock(WithSlash(Trim(entry)), client)
  }

  predicate InSome(blocks: seq<string>, client: Address) {
    exists i :: 0 <= i < |blocks| && InBlock(blocks[i], client)
  }

  /** Some row of the user's lists a block with the client in it. */
  predicate Managed(rows: seq<Row>, user: string, client: Address) {
    exists r, i :: 0 <= r < |rows| && rows[r].user == user && rows[r].ips.Some?
                   && 0 <= i < |rows[r].ips.value| && Admits(rows[r].ips.value[i], client)
  }

  function Policy(rows: seq<Row>, user: string, client: Address): Method {
    if user == AGENT && InSome(LOCAL + PRIVATE, client) then Trust
    else if user == APP && InSome(PRIVATE, client) then Scram
    else if Managed(rows, user, client) then Scram
    else Reject
  }

  // ---------- Tokens ----------

  ghost predicate CleanWord(w: string) {
    w != "" && ' ' !in w && w[0] != '"' && NL !in w
  }

  lemma {:induction false} SpanTo(a: string, stop: char, rest: string)
    requires stop !in a
    ensures Span(a + [stop] + rest, stop) == |a|
    ensures Span(a, stop) == |a|
    decreases |a|
  {
    if a != "" {
      assert (a + [stop] + rest)[1..] == a[1..] + [stop] + rest;
      SpanTo(a[1..], stop, rest);
    }
  }

  lemma TokenizeWord(w: string, rest: string)
    requires CleanWord(w)
    ensures Tokenize(w + " " + rest) == [Word(w)] + Tokenize(rest)
    ensures Tokenize(w) == [Word(w)]
  {
    var s := w + " " + rest;
    SpanTo(w, ' ', rest);
    assert s == w + [' '] + rest;
    assert s[..|w|] == w && s[|w|..] == " " + rest;
    assert (" " + rest)[1..] == rest;
    assert Tokenize(" " + rest) == Tokenize(rest);
    assert w[..|w|] == w && w[|w|..] == "";
  }

  lemma TokenizeQuoted(u: string, rest: string)
    requires '"' !in u
    ensures Tokenize(Quote(u) + " " + rest) == [Quoted(u)] + Tokenize(rest)
  {
    var s := Quote(u) + " " + rest;
    var inner := u + ['"'] + (" " + rest);
    assert s[1..] == inner;
    SpanTo(u, '"', " " + rest);
    assert inner[..|u|] == u;
    assert s[|u| + 2..] == " " + rest;
    assert (" " + rest)[1..] == rest;
    assert Tokenize(" " + rest) == Tokenize(rest);
  }

  lemma MethodReads(m: Method)
    ensures ParseMethod(MethodText(m)) == Some(m) && CleanWord(MethodText(m))
  {
  }

  /** The user field of a rule, quoted or bare, and what it stands for. */
  ghost predicate UserField(field: string, user: Option<string>) {
    || (field == "all" && user == None)
    || (CleanWord(field) && field != "all" && user == Some(field))
    || (user.Some? && field == Quote(user.value) && '"' !in user.value && NL !in user.value)
  }

  lemma TailTokens(address: string, auth: Method)
    requires CleanWord(address)
    ensures Tokenize(address + " " + MethodText(auth)) == [Word(address), Word(MethodText(auth))]
  {
    MethodReads(auth);
    TokenizeWord(address, MethodText(auth));
    TokenizeWord(MethodText(auth), "");
  }

  lemma FieldTokens(field: string, user: Option<string>, rest: string) returns (token: Token)
    requires UserField(field, user)
    ensures Tokenize(field + " " + rest) == [token] + Tokenize(rest)
    ensures (token == Word("all") <==> user == None) && (user.Some? ==> token.text == user.value)
  {
    if user.Some? && field == Quote(user.value) && '"' !in user.value {
      TokenizeQuoted(user.value, rest);
      token := Quoted(user.value);
    } else {
      TokenizeWord(field, rest);
      token := Word(field);
    }
  }

  lemma HeadTokens(rest: string)
    ensures Tokenize("host all " + rest) == [Word("host"), Word("all")] + Tokenize(rest)
  {
    assert "host all " + rest == "host" + " " + ("all" + " " + rest);
    TokenizeWord("host", "all" + " " + rest);
    TokenizeWord("all", rest);
  }

  lemma RuleConcat(field: string, address: string, auth: string)
    ensures "host all " + field + " " + address + " " + auth == "host all " + (field + " " + (address + " " + auth))
  {
  }

  lemma RuleTokens(field: string, user: Option<string>, address: string, auth: Method) returns (token: Token)
    requires UserField(field, user) && CleanWord(address)
    ensures Tokenize(RuleLine(field, address, auth)) == [Word("host"), Word("all"), token, Word(address), Word(MethodText(auth))]
    ensures (token == Word("all") <==> user == None) && (user.Some? ==> token.text == user.value)
  {
    var tail := address + " " + MethodText(auth);
    RuleConcat(field, address, MethodText(auth));
    HeadTokens(field + " " + tail);
    token := FieldTokens(field, user, tail);
    TailTokens(address, auth);
  }

  /** A printed rule reads back: its block, if the address is one, and nothing at all otherwise. */
  lemma RuleReads(field: string, user: Option<string>, address: string, auth: Method)
    requires UserField(field, user) && CleanWord(address)
    ensures ParseRule(RuleLine(field, address, auth)) ==
            match ParseBlock(address)
            case Some(b) => Some(Rule(user, b, auth))
            case None => None
  {
    var token := RuleTokens(field, user, address, auth);
    MethodReads(auth);
    var t := [Word("host"), Word("all"), token, Word(address), Word(MethodText(auth))];
    assert RuleOf(t) == match ParseBlock(address) case Some(b) => Some(Rule(user, b, auth)) case None => None;
  }

  lemma RuleIsOneLine(field: string, user: Option<string>, address: string, auth: Method)
    requires UserField(field, user) && CleanWord(address)
    ensures NL !in RuleLine(field, address, auth)
  {
    MethodReads(auth);
    assert NL !in field;
  }

  // ---------- First match ----------

  lemma {:induction false} FirstMatchAppend(a: seq<string>, b: seq<string>, user: string, client: Address)
    ensures FirstMatch(a + b, user, client) ==
            if FirstMatch(a, user, client).Some? then FirstMatch(a, user, client) else FirstMatch(b, user, client)
    decreases |a|
  {
    if a == [] {
      assert a + b == b;
    } else {
      assert (a + b)[1..] == a[1..] + b;
      FirstMatchAppend(a[1..], b, user, client);
    }
  }

  predicate AllClean(blocks: seq<string>) {
    forall i :: 0 <= i < |blocks| ==> blocks[i] != "" && blocks[i][0] != '"' && ' ' !in blocks[i] && NL !in blocks[i]
  }

  lemma InSomeCons(blocks: seq<string>, client: Address)
    requires blocks != []
    ensures InSome(blocks, client) <==> InBlock(blocks[0], client) || InSome(blocks[1..], client)
  {
    if i :| 0 <= i < |blocks[1..]| && InBlock(blocks[1..][i], client) { assert InBlock(blocks[i + 1], client); }
    if i :| 0 <= i < |blocks| && InBlock(blocks[i], client) {
      if i > 0 { assert InBlock(blocks[1..][i - 1], client); }
    }
  }

  lemma {:induction false} LinesForMatch(field: string, owner: Option<string>, blocks: seq<string>, auth: Method, user: string, client: Address)
    requires UserField(field, owner) && AllClean(blocks)
    ensures FirstMatch(LinesFor(field, blocks, auth), user, client) ==
            if (owner == None || owner == Some(user)) && InSome(blocks, client) then Some(auth) else None
    ensures forall i :: 0 <= i < |blocks| ==> NL !in LinesFor(field, blocks, auth)[i]
    decreases |blocks|
  {
    if blocks != [] {
      RuleReads(field, owner, blocks[0], auth);
      RuleIsOneLine(field, owner, blocks[0], auth);
      assert LinesFor(field, blocks, auth)[1..] == LinesFor(field, blocks[1..], auth);
      LinesForMatch(field, owner, blocks[1..], auth, user, client);
      InSomeCons(blocks, client);
      forall i | 0 <= i < |blocks|
        ensures NL !in LinesFor(field, blocks, auth)[i]
      {
        if i > 0 { assert LinesFor(field, blocks, auth)[i] == LinesFor(field, blocks[1..], auth)[i - 1]; }
      }
    }
  }

  /** An entry that is one token: trimmed, it has no space, newline or quote in it. */
  ghost predicate CleanEntry(entry: string) {
    var t := Trim(entry);
    ' ' !in t && NL !in t && '"' !in t
  }

  ghost predicate CleanRow(row: Row) {
    && ValidName(row.user)
    && (row.ips.Some? ==> forall i :: 0 <= i < |row.ips.value| ==> CleanEntry(row.ips.value[i]))
  }

  ghost predicate SomeAdmits(ips: seq<string>, client: Address) {
    exists i :: 0 <= i < |ips| && Admits(ips[i], client)
  }

  lemma QuotedField(user: string)
    requires ValidName(user)
    ensures UserField(Quote(user), Some(user))
  {
    assert forall i :: 0 <= i < |user| ==> user[i] != '"' && user[i] != NL;
  }

  lemma {:induction false} EntryLinesMatch(owner: string, ips: seq<string>, user: string, client: Address)
    requires ValidName(owner) && forall i :: 0 <= i < |ips| ==> CleanEntry(ips[i])
    ensures FirstMatch(EntryLines(owner, ips), user, client) ==
            if owner == user && SomeAdmits(ips, client) then Some(Scram) else None
    ensures forall line :: line in EntryLines(owner, ips) ==> NL !in line
    decreases |ips|
  {
    if ips != [] {
      var ip := Trim(ips[0]);
      EntryLinesMatch(owner, ips[1..], user, client);
      SomeAdmitsCons(ips, client);
      if ip != "" {
        EntryReads(owner, ips[0], user, client);
        var line := RuleLine(Quote(owner), WithSlash(ip), Scram);
        assert EntryLines(owner, ips) == [line] + EntryLines(owner, ips[1..]);
        assert ([line] + EntryLines(owner, ips[1..]))[1..] == EntryLines(owner, ips[1..]);
      } else {
        assert EntryLines(owner, ips) == EntryLines(owner, ips[1..]);
      }
    }
  }

  lemma SomeAdmitsCons(ips: seq<string>, client: Address)
    requires ips != []
    ensures SomeAdmits(ips, client) <==> Admits(ips[0], client) || SomeAdmits(ips[1..], client)
  {
    if i :| 0 <= i < |ips[1..]| && Admits(ips[1..][i], client) { assert Admits(ips[i + 1], client); }
    if i :| 0 <= i < |ips| && Admits(ips[i], client) {
      if i > 0 { assert Admits(ips[1..][i - 1], client); }
    }
  }

  /** One entry's line: it speaks for its owner only, and admits what the entry admits. */
  lemma EntryReads(owner: string, entry: string, user: string, client: Address)
    requires ValidName(owner) && CleanEntry(entry) && Trim(entry) != ""
    ensures var line := RuleLine(Quote(owner), WithSlash(Trim(entry)), Scram);
            var r := ParseRule(line);
            && (r.Some? && Applies(r.value, user, client) <==> owner == user && Admits(entry, client))
            && (r.Some? ==> r.value.auth == Scram)
            && NL !in line
  {
    var address := WithSlash(Trim(entry));
    assert CleanWord(address);
    QuotedField(owner);
    RuleReads(Quote(owner), Some(owner), address, Scram);
    RuleIsOneLine(Quote(owner), Some(owner), address, Scram);
  }

  ghost predicate RowAdmits(row: Row, client: Address) {
    row.ips.Some? && SomeAdmits(row.ips.value, client)
  }

  /** A user's lines answer that user only: scram inside the listed blocks, never scram outside. */
  lemma UserLinesMatch(row: Row, user: string, client: Address)
    requires CleanRow(row)
    ensures var m := FirstMatch(UserLines(row), user, client);
            && (row.user != user ==> m == None)
            && (row.user == user && RowAdmits(row, client) ==> m == Some(Scram))
            && (!RowAdmits(row, client) ==> m == None || m == Some(Reject))
    ensures forall line :: line in UserLines(row) ==> NL !in line
  {
    if row.ips.Some? {
      if row.ips.value == [] {
        QuotedField(row.user);
        LinesForMatch(Quote(row.user), Some(row.user), [ANY_V4], Reject, user, client);
        assert UserLines(row) == LinesFor(Quote(row.user), [ANY_V4], Reject);
      } else {
        EntryLinesMatch(row.user, row.ips.value, user, client);
      }
    }
  }

  ghost predicate DistinctUsers(rows: seq<Row>) {
    forall i, j :: 0 <= i < j < |rows| ==> rows[i].user != rows[j].user
  }

  lemma {:induction false} RowLinesMatch(rows: seq<Row>, user: string, client: Address)
    requires DistinctUsers(rows) && forall i :: 0 <= i < |rows| ==> CleanRow(rows[i])
    ensures var m := FirstMatch(RowLines(rows), user, client);
            if Managed(rows, user, client) then m == Some(Scram) else m == None || m == Some(Reject)
    ensures (forall i :: 0 <= i < |rows| ==> rows[i].user != user) ==> FirstMatch(RowLines(rows), user, client) == None
    ensures forall line :: line in RowLines(rows) ==> NL !in line
    decreases |rows|
  {
    if rows != [] {
      var row := rows[0];
      var rest := rows[1..];
      RowLinesMatch(rest, user, client);
      UserLinesMatch(row, user, client);
      FirstMatchAppend(UserLines(row), RowLines(rest), user, client);
      assert forall i :: 0 <= i < |rest| ==> rest[i] == rows[i + 1];
      ManagedSplit(rows, user, client);
    }
  }

  lemma ManagedSplit(rows: seq<Row>, user: string, client: Address)
    requires rows != []
    ensures Managed(rows, user, client) <==>
            (rows[0].user == user && RowAdmits(rows[0], client)) || Managed(rows[1..], user, client)
  {
    var rest := rows[1..];
    if r, i :| 0 <= r < |rest| && rest[r].user == user && rest[r].ips.Some?
               && 0 <= i < |rest[r].ips.value| && Admits(rest[r].ips.value[i], client) {
      assert rows[r + 1].user == user && Admits(rows[r + 1].ips.value[i], client);
    }
    if r, i :| 0 <= r < |rows| && rows[r].user == user && rows[r].ips.Some?
               && 0 <= i < |rows[r].ips.value| && Admits(rows[r].ips.value[i], client) {
      if r > 0 { assert rest[r - 1].user == user && Admits(rest[r - 1].ips.value[i], client); }
    }
  }

  // ---------- Main results ----------

  lemma SplitBlock(address: string, prefix: string)
    requires '/' !in address && '/' !in prefix
    ensures Split(address + "/" + prefix, '/') == [address, prefix]
  {
    assert address + "/" + prefix == address + ['/'] + prefix;
    SplitAtSep(address, prefix, '/');
    SplitPlain(address, '/');
    SplitPlain(prefix, '/');
  }

  lemma SplitQuad(a: string, b: string, c: string, d: string)
    requires '.' !in a && '.' !in b && '.' !in c && '.' !in d
    ensures Split(a + "." + b + "." + c + "." + d, '.') == [a, b, c, d]
  {
    assert a + "." + b + "." + c + "." + d == a + ['.'] + (b + ['.'] + (c + ['.'] + d));
    SplitAtSep(a, b + ['.'] + (c + ['.'] + d), '.');
    SplitAtSep(b, c + ['.'] + d, '.');
    SplitAtSep(c, d, '.');
    SplitPlain(a, '.');
    SplitPlain(b, '.');
    SplitPlain(c, '.');
    SplitPlain(d, '.');
  }

  lemma ZeroQuad(z: string)
    requires '.' !in z && ':' !in z && ParseOctet(z) == Some(0)
    ensures ParseAddress(z + "." + z + "." + z + "." + z) == Some(V4(0))
  {
    SplitQuad(z, z, z, z);
  }

  lemma AnyV4Parses()
    ensures ParseBlock(ANY_V4) == Some(Block(V4(0), 0))
  {
    ZeroQuad("0");
    var quad := "0" + "." + "0" + "." + "0" + "." + "0";
    assert quad == "0.0.0.0" && quad + "/" + "0" == ANY_V4;
    SplitBlock(quad, "0");
    assert ParseNat("0") == Some(0);
  }

  lemma {:induction false} ZerosAreZero(n: nat)
    ensures Value(Zeros(n)) == 0
    decreases n
  {
    if n > 0 {
      assert Zeros(n)[..n - 1] == Zeros(n - 1);
      ZerosAreZero(n - 1);
    }
  }

  lemma ZeroAddress()
    ensures ParseV6("::0") == Some(V6(0))
  {
    var s := "::0";
    assert s[..2] == "::" && s[2..] == "0" && s[..0] == "";
    assert Gap(s) == 0;
    SplitPlain("0", ':');
    assert "0"[..0] == "" && ParseGroup("0") == Some(0);
    assert ParseGroups(["0"], true) == Some([0] + []);
    assert [] + Zeros(7) + [0] == Zeros(8);
    ZerosAreZero(8);
  }

  lemma AnyV6Parses()
    ensures ParseBlock(ANY_V6) == Some(Block(V6(0), 0))
  {
    assert ANY_V6 == "::0" + "/" + "0";
    assert ':' in "::0" by { assert "::0"[0] == ':'; }
    SplitBlock("::0", "0");
    ZeroAddress();
    assert ParseNat("0") == Some(0);
  }

  lemma {:induction false} ShiftZero(n: nat, k: nat)
    requires n < Pow2(k)
    ensures Shift(n, k) == 0
    decreases k
  {
    if k > 0 { ShiftZero(n / 2, k - 1); }
  }

  lemma ZeroPrefix(net: Address, client: Address)
    requires net.bits == 0 && WellFormed(client)
    ensures Contains(Block(net, 0), client) <==> net.V4? == client.V4?
  {
    ShiftZero(client.bits, Width(client));
    ShiftZero(0, Width(client));
  }

  lemma AnyBlocks(client: Address)
    requires WellFormed(client)
    ensures InBlock(ANY_V4, client) <==> client.V4?
    ensures InBlock(ANY_V6, client) <==> client.V6?
  {
    AnyV4Parses();
    AnyV6Parses();
    ZeroPrefix(V4(0), client);
    ZeroPrefix(V6(0), client);
  }

  lemma FixedMatch(local: seq<string>, private: seq<string>, agent: string, app: string, user: string, client: Address)
    requires AllClean(local) && AllClean(private)
    requires CleanWord(agent) && agent != "all" && CleanWord(app) && app != "all" && agent != app
    ensures var lines := LinesFor(agent, local + private, Trust) + LinesFor(app, private, Scram);
            && FirstMatch(lines, user, client) ==
               (if user == agent && InSome(local + private, client) then Some(Trust)
                else if user == app && InSome(private, client) then Some(Scram)
                else None)
            && forall line :: line in lines ==> NL !in line
  {
    LinesForMatch(agent, Some(agent), local + private, Trust, user, client);
    LinesForMatch(app, Some(app), private, Scram, user, client);
    FirstMatchAppend(LinesFor(agent, local + private, Trust), LinesFor(app, private, Scram), user, client);
  }

  lemma FixedLinesMatch(user: string, client: Address)
    ensures FirstMatch(FixedLines(), user, client) ==
            if user == AGENT && InSome(LOCAL + PRIVATE, client) then Some(Trust)
            else if user == APP && InSome(PRIVATE, client) then Some(Scram)
            else None
    ensures forall line :: line in FixedLines() ==> NL !in line
  {
    FixedClean();
    AgentNames();
    FixedMatch(LOCAL, PRIVATE, AGENT, APP, user, client);
  }

  lemma FixedClean()
    ensures AllClean(LOCAL) && AllClean(PRIVATE)
  {
  }

  lemma AgentNames()
    ensures CleanWord(AGENT) && AGENT != "all" && CleanWord(APP) && APP != "all" && AGENT != APP
  {
    assert AGENT[0] == APP[0] == 'p' && |AGENT| == 14 && |APP| == 9;
  }

  lemma LastMatch(v4: string, v6: string, user: string, client: Address)
    requires CleanWord(v4) && CleanWord(v6) && (InBlock(v4, client) || InBlock(v6, client))
    ensures FirstMatch(LinesFor("all", [v4, v6], Reject), user, client) == Some(Reject)
    ensures forall line :: line in LinesFor("all", [v4, v6], Reject) ==> NL !in line
  {
    var blocks := [v4, v6];
    assert InBlock(blocks[0], client) || InBlock(blocks[1], client);
    LinesForMatch("all", None, blocks, Reject, user, client);
  }

  lemma AnyClean()
    ensures CleanWord(ANY_V4) && CleanWord(ANY_V6)
  {
  }

  lemma LastLinesMatch(user: string, client: Address)
    requires WellFormed(client)
    ensures FirstMatch(LastLines(), user, client) == Some(Reject)
    ensures forall line :: line in LastLines() ==> NL !in line
  {
    AnyBlocks(client);
    AnyClean();
    LastMatch(ANY_V4, ANY_V6, user, client);
  }

  lemma NoMatchOnBlank(user: string, client: Address)
    ensures FirstMatch([""], user, client) == None
  {
    assert RuleOf([]) == None;
  }

  lemma HbaTextLines(rows: seq<Row>)
    requires forall line :: line in HbaLines(rows) ==> NL !in line
    ensures Split(HbaText(rows), NL) == HbaLines(rows) + [""]
  {
    var lines := HbaLines(rows);
    assert forall i :: 0 <= i < |lines| ==> lines[i] in lines;
    LinesRoundTrip(lines, NL);
    SplitAtSep(Join(lines, "\n"), "", NL);
    SplitPlain("", NL);
    assert HbaText(rows) == Join(lines, "\n") + [NL] + "";
  }

  /**
   The file decides every client, and decides it as the policy does: first-match order, quoting,
   skipped rows and the catch-all never let the two differ.
   */
  lemma HbaRefinesPolicy(rows: seq<Row>, user: string, client: Address)
    requires DistinctUsers(rows) && (forall i :: 0 <= i < |rows| ==> CleanRow(rows[i]))
    requires WellFormed(client)
    ensures Decide(HbaText(rows), user, client) == Some(Policy(rows, user, client))
  {
    FixedLinesMatch(user, client);
    RowLinesMatch(rows, user, client);
    LastLinesMatch(user, client);
    HbaTextLines(rows);
    FirstMatchAppend(HbaLines(rows), [""], user, client);
    FirstMatchAppend(FixedLines() + RowLines(rows), LastLines(), user, client);
    FirstMatchAppend(FixedLines(), RowLines(rows), user, client);
    NoMatchOnBlank(user, client);
  }

  /** Rows of other users, however many and in whatever order, never change a user's answer. */
  lemma OtherUsersDoNotMatter(rows: seq<Row>, others: seq<Row>, user: string, client: Address)
    requires DistinctUsers(rows) && (forall i :: 0 <= i < |rows| ==> CleanRow(rows[i]))
    requires DistinctUsers(others) && (forall i :: 0 <= i < |others| ==> CleanRow(others[i]))
    requires WellFormed(client)
    requires forall r: Row :: r.user == user ==> (r in rows <==> r in others)
    ensures Decide(HbaText(rows), user, client) == Decide(HbaText(others), user, client)
  {
    HbaRefinesPolicy(rows, user, client);
    HbaRefinesPolicy(others, user, client);
    ManagedByRow(rows, user, client);
    ManagedByRow(others, user, client);
  }

  lemma ManagedByRow(rows: seq<Row>, user: string, client: Address)
    ensures Managed(rows, user, client) <==> exists r: Row :: r in rows && r.user == user && RowAdmits(r, client)
  {
    if r: Row :| r in rows && r.user == user && RowAdmits(r, client) {
      var k :| 0 <= k < |rows| && rows[k] == r;
      var i :| 0 <= i < |r.ips.value| && Admits(r.ips.value[i], client);
      assert Admits(rows[k].ips.value[i], client);
    }
    if k, i :| 0 <= k < |rows| && rows[k].user == user && rows[k].ips.Some?
               && 0 <= i < |rows[k].ips.value| && Admits(rows[k].ips.value[i], client) {
      assert rows[k] in rows && RowAdmits(rows[k], client);
    }
  }

  // ---------- Entries without a slash ----------

  lemma SlashedEntry(t: string)
    requires '/' !in t
    ensures ParseBlock(t + "/32") ==
            match ParseAddress(t)
            case Some(a) => Some(Block(a, 32))
            case None => None
  {
    assert t + "/32" == t + "/" + "32";
    SplitBlock(t, "32");
    assert "32"[..1] == "3";
    assert ParseNat("3") == Some(3);
    assert ParseNat("32") == Some(32);
  }

  /**
   An entry without a slash admits exactly the address it names if and only if it is an IPv4 address.
   An IPv6 address becomes a /32 block too, and admits every address that shares its first 32 bits.
   */
  lemma PlainEntryIsOneAddressIff(entry: string, a: Address)
    requires '/' !in Trim(entry) && Trim(entry) != "" && ParseAddress(Trim(entry)) == Some(a)
    ensures Admits(entry, a)
    ensures (forall client :: WellFormed(client) && Admits(entry, client) ==> client == a) <==> a.V4?
  {
    SlashedEntry(Trim(entry));
    if a.V4? {
      assert Pow2(0) == 1;
    } else {
      ParsedIsWellFormed(Trim(entry));
      V6Neighbours(a);
    }
  }

  lemma {:induction false} HexBound(s: string)
    requires ParseHex(s).Some?
    ensures ParseHex(s).value < Pow2(4 * |s|)
    decreases |s|
  {
    if s != "" {
      HexBound(s[..|s| - 1]);
      assert Pow2(4 * |s|) == 2 * Pow2(4 * |s| - 1) == 4 * Pow2(4 * |s| - 2) == 8 * Pow2(4 * |s| - 3) == 16 * Pow2(4 * |s| - 4);
    }
  }

  lemma {:induction false} Pow2Sum(m: nat, n: nat)
    ensures Pow2(m + n) == Pow2(m) * Pow2(n)
    decreases n
  {
    if n > 0 { Pow2Sum(m, n - 1); }
  }

  lemma Pow2Sixteen()
    ensures Pow2(16) == 65536 && Pow2(32) == 65536 * 65536
  {
    assert Pow2(4) == 16;
    Pow2Sum(4, 4);
    Pow2Sum(8, 8);
    Pow2Sum(16, 16);
  }

  lemma GroupBound(s: string)
    requires ParseGroup(s).Some?
    ensures ParseGroup(s).value < 65536
  {
    HexBound(s);
    Pow2Monotone(4 * |s|, 16);
    Pow2Sixteen();
  }

  lemma {:induction false} Pow2Monotone(m: nat, n: nat)
    requires m <= n
    ensures Pow2(m) <= Pow2(n)
    decreases n
  {
    if m < n { Pow2Monotone(m, n - 1); }
  }

  lemma V4Bound(s: string)
    requires ParseV4(s).Some?
    ensures ParseV4(s).value.V4? && ParseV4(s).value.bits < 65536 * 65536
  {
  }

  ghost predicate Narrow(groups: seq<nat>) {
    forall i :: 0 <= i < |groups| ==> groups[i] < 65536
  }

  lemma {:induction false} GroupsBound(parts: seq<string>, quad: bool)
    requires ParseGroups(parts, quad).Some?
    ensures Narrow(ParseGroups(parts, quad).value)
    decreases |parts|
  {
    if parts != [] {
      if quad && |parts| == 1 && '.' in parts[0] {
        V4Bound(parts[0]);
      } else {
        GroupBound(parts[0]);
        GroupsBound(parts[1..], quad);
      }
    }
  }

  lemma {:induction false} ValueBound(groups: seq<nat>)
    requires Narrow(groups)
    ensures Value(groups) < Pow2(16 * |groups|)
    decreases |groups|
  {
    if groups != [] {
      var n := |groups| - 1;
      ValueBound(groups[..n]);
      Pow2Sixteen();
      Pow2Sum(16 * n, 16);
    }
  }

  lemma GroupsNarrow(s: string, quad: bool)
    requires Groups(s, quad).Some?
    ensures Narrow(Groups(s, quad).value)
  {
    if s != "" { GroupsBound(Split(s, ':'), quad); }
  }

  lemma V6Bound(s: string)
    requires ParseV6(s).Some?
    ensures ParseV6(s).value.V6? && ParseV6(s).value.bits < Pow2(128)
  {
    var gap := Gap(s);
    if gap == |s| {
      GroupsNarrow(s, true);
      ValueBound(Groups(s, true).value);
    } else {
      var a, b := Groups(s[..gap], false).value, Groups(s[gap + 2..], true).value;
      GroupsNarrow(s[..gap], false);
      GroupsNarrow(s[gap + 2..], true);
      ValueBound(a + Zeros(8 - |a| - |b|) + b);
    }
  }

  /** Every address that parses has as many bits as its kind. */
  lemma ParsedIsWellFormed(s: string)
    requires ParseAddress(s).Some?
    ensures WellFormed(ParseAddress(s).value)
  {
    if ':' in s {
      V6Bound(s);
    } else {
      V4Bound(s);
      Pow2Sixteen();
    }
  }

  function FlipLast(n: nat): nat {
    if n % 2 == 0 then n + 1 else n - 1
  }

  lemma FlipShifts(n: nat, k: nat)
    requires k > 0
    ensures Shift(FlipLast(n), k) == Shift(n, k)
    ensures n < Pow2(k) ==> FlipLast(n) < Pow2(k)
  {
    assert Pow2(k) == 2 * Pow2(k - 1);
  }

  lemma FlippedNeighbour(a: Address, prefix: nat)
    requires a.V6? && WellFormed(a) && prefix < Width(a)
    ensures var other := V6(FlipLast(a.bits)); other != a && WellFormed(other) && Contains(Block(a, prefix), other)
  {
    FlipShifts(a.bits, Width(a) - prefix);
    FlipShifts(a.bits, Width(a));
  }

  /** Every IPv6 address shares its /32 block with another. */
  lemma V6Neighbours(a: Address)
    requires a.V6? && WellFormed(a)
    ensures exists other :: other != a && WellFormed(other) && Contains(Block(a, 32), other)
  {
    FlippedNeighbour(a, 32);
  }

  // ---------- The query behind the rows ----------

  datatype ManagedRow = ManagedRow(user: string, db: string, ips: Option<seq<string>>, created: nat)

  ghost predicate Earliest(table: set<ManagedRow>, t: ManagedRow) {
    t in table && forall x :: x in table && x.user == t.user ==> t.created <= x.created
  }

  function RowOf(t: ManagedRow): Row {
    Row(t.user, t.ips)
  }

  ghost predicate IsEarliestRow(table: set<ManagedRow>, row: Row) {
    exists t :: Earliest(table, t) && RowOf(t) == row
  }

  ghost predicate HasRow(rows: seq<Row>, user: string) {
    exists r: Row :: r in rows && r.user == user
  }

  /** SELECT DISTINCT ON (username) ... ORDER BY username, created_at; ties may go either way. */
  ghost predicate IsQueryResult(table: set<ManagedRow>, rows: seq<Row>) {
    && DistinctUsers(rows)
    && (forall r :: r in rows ==> IsEarliestRow(table, r))
    && (forall t :: t in table ==> HasRow(rows, t.user))
  }

  ghost predicate CleanTable(table: set<ManagedRow>) {
    forall t :: t in table ==> CleanRow(RowOf(t))
  }

  lemma QueryRowsAreClean(table: set<ManagedRow>, rows: seq<Row>)
    requires IsQueryResult(table, rows) && CleanTable(table)
    ensures forall i :: 0 <= i < |rows| ==> CleanRow(rows[i])
  {
    forall i | 0 <= i < |rows|
      ensures CleanRow(rows[i])
    {
      assert IsEarliestRow(table, rows[i]);
      var x :| Earliest(table, x) && RowOf(x) == rows[i];
      assert x in table;
    }
  }

  lemma QueryRowOf(table: set<ManagedRow>, rows: seq<Row>, t: ManagedRow)
    requires IsQueryResult(table, rows)
    requires Earliest(table, t) && forall x :: Earliest(table, x) && x.user == t.user ==> x.ips == t.ips
    ensures forall r: Row :: r in rows && r.user == t.user <==> r == RowOf(t)
  {
    forall r: Row | r in rows && r.user == t.user
      ensures r == RowOf(t)
    {
      assert IsEarliestRow(table, r);
    }
    assert HasRow(rows, t.user);
  }

  /** The file lets a managed user in exactly from the blocks of that user's earliest row. */
  lemma HbaFollowsEarliestRow(table: set<ManagedRow>, rows: seq<Row>, t: ManagedRow, client: Address)
    requires IsQueryResult(table, rows) && CleanTable(table) && WellFormed(client)
    requires Earliest(table, t) && forall x :: Earliest(table, x) && x.user == t.user ==> x.ips == t.ips
    requires t.user != AGENT && t.user != APP
    ensures Decide(HbaText(rows), t.user, client) == Some(if RowAdmits(RowOf(t), client) then Scram else Reject)
  {
    QueryRowsAreClean(table, rows);
    QueryRowOf(table, rows, t);
    HbaRefinesPolicy(rows, t.user, client);
    ManagedByRow(rows, t.user, client);
  }
}
