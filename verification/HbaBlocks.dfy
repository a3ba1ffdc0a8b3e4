/**
 Which addresses the generated pg_hba.conf lets in, as ranges of numbers: blocks, printed entries
 and the fixed rules.
 */
module HbaBlocks {
  import opened Prelude
  import opened Text
  import opened Hba
  import S = SqlText

  // ---------- Blocks ----------

  lemma DivTwice(n: nat, m: nat)
    requires m > 0
    ensures n / 2 / m == n / (2 * m)
  {
    var q, r := n / 2 / m, n / 2 % m;
    assert n / 2 == q * m + r;
    DivIs(n, 2 * m, q);
  }

  /** A quotient is the one number with the dividend in its interval. */
  lemma DivIs(n: nat, m: nat, q: nat)
    requires m > 0 && q * m <= n < q * m + m
    ensures n / m == q
  {
    if n / m < q {
      Scale(n / m + 1, q, m);
    } else if n / m > q {
      Scale(q + 1, n / m, m);
    }
  }

  lemma Scale(a: nat, b: nat, m: nat)
    requires a <= b
    ensures a * m <= b * m
  {
  }

  lemma {:induction false} ShiftIsDiv(n: nat, k: nat)
    ensures Shift(n, k) == n / Pow2(k)
    decreases k
  {
    if k > 0 {
      ShiftIsDiv(n / 2, k - 1);
      DivTwice(n, Pow2(k - 1));
    }
  }

  lemma SameQuotientIff(a: nat, n: nat, m: nat)
    requires m > 0
    ensures a / m == n / m <==> n / m * m <= a < n / m * m + m
  {
    if n / m * m <= a < n / m * m + m { DivIs(a, m, n / m); }
  }

  /** The numbers that agree with n but for their last k bits. */
  predicate Within(a: nat, n: nat, k: nat) {
    n / Pow2(k) * Pow2(k) <= a < n / Pow2(k) * Pow2(k) + Pow2(k)
  }

  /** A block is an interval as long as the power of two its prefix leaves, and keeps to its own kind of address. */
  lemma BlockIsInterval(n: nat, p: nat, a: nat)
    ensures Contains(Block(V4(n), p), V4(a)) <==> p <= 32 && Within(a, n, 32 - p)
    ensures Contains(Block(V6(n), p), V6(a)) <==> p <= 128 && Within(a, n, 128 - p)
    ensures !Contains(Block(V4(n), p), V6(a)) && !Contains(Block(V6(n), p), V4(a))
  {
    if p <= 32 { ShiftedAlike(a, n, 32 - p); }
    if p <= 128 { ShiftedAlike(a, n, 128 - p); }
  }

  lemma ShiftedAlike(a: nat, n: nat, k: nat)
    ensures Shift(a, k) == Shift(n, k) <==> Within(a, n, k)
  {
    ShiftIsDiv(a, k);
    ShiftIsDiv(n, k);
    SameQuotientIff(a, n, Pow2(k));
  }

  lemma KindedBlock(net: Address, p: nat, client: Address)
    ensures net.V4? ==> (Contains(Block(net, p), client) <==> client.V4? && p <= 32 && Within(client.bits, net.bits, 32 - p))
    ensures net.V6? ==> (Contains(Block(net, p), client) <==> client.V6? && p <= 128 && Within(client.bits, net.bits, 128 - p))
  {
    BlockIsInterval(net.bits, p, client.bits);
  }

  // ---------- Printed entries ----------

  /** w.x.y.z/prefix */
  datatype Cidr = Cidr(w: nat, x: nat, y: nat, z: nat, prefix: nat)

  predicate IsCidr(c: Cidr) {
    c.w < 256 && c.x < 256 && c.y < 256 && c.z < 256 && c.prefix <= 32
  }

  function Quad(w: nat, x: nat, y: nat, z: nat): string {
    S.Decimal(w) + "." + S.Decimal(x) + "." + S.Decimal(y) + "." + S.Decimal(z)
  }

  function PrintCidr(c: Cidr): string {
    Quad(c.w, c.x, c.y, c.z) + "/" + S.Decimal(c.prefix)
  }

  /** The address is in the block the four octets and the prefix describe. */
  predicate Covers(c: Cidr, client: Address) {
    client.V4? && c.prefix <= 32 &&
    Within(client.bits, c.w * 0x100_0000 + c.x * 0x1_0000 + c.y * 0x100 + c.z, 32 - c.prefix)
  }

  lemma {:induction false} DecimalDigits(n: nat)
    ensures ParseNat(S.Decimal(n)) == Some(n)
    ensures forall i :: 0 <= i < |S.Decimal(n)| ==> IsDigit(S.Decimal(n)[i])
    ensures S.Decimal(n) != "" && (S.Decimal(n)[0] == '0' ==> n == 0)
    ensures n < 10 ==> |S.Decimal(n)| == 1
    decreases n
  {
    if n >= 10 {
      DecimalDigits(n / 10);
      var s := S.Decimal(n);
      assert s[..|s| - 1] == S.Decimal(n / 10);
    }
  }

  lemma OctetReads(n: nat)
    requires n < 256
    ensures ParseOctet(S.Decimal(n)) == Some(n) && '.' !in S.Decimal(n) && ':' !in S.Decimal(n)
  {
    DecimalDigits(n);
    if n >= 10 {
      DecimalDigits(n / 10);
      if n >= 100 { DecimalDigits(n / 10 / 10); }
    }
  }

  lemma QuadReads(w: nat, x: nat, y: nat, z: nat)
    requires w < 256 && x < 256 && y < 256 && z < 256
    ensures ParseAddress(Quad(w, x, y, z)) == Some(V4(w * 0x100_0000 + x * 0x1_0000 + y * 0x100 + z))
    ensures '/' !in Quad(w, x, y, z)
  {
    OctetReads(w);
    OctetReads(x);
    OctetReads(y);
    OctetReads(z);
    SplitQuad(S.Decimal(w), S.Decimal(x), S.Decimal(y), S.Decimal(z));
    DecimalDigits(w);
    DecimalDigits(x);
    DecimalDigits(y);
    DecimalDigits(z);
  }

  lemma CidrReads(c: Cidr)
    requires IsCidr(c)
    ensures ParseBlock(PrintCidr(c)) ==
            Some(Block(V4(c.w * 0x100_0000 + c.x * 0x1_0000 + c.y * 0x100 + c.z), c.prefix))
    ensures '/' in PrintCidr(c) && CleanText(PrintCidr(c))
  {
    QuadReads(c.w, c.x, c.y, c.z);
    DecimalDigits(c.prefix);
    SplitBlock(Quad(c.w, c.x, c.y, c.z), S.Decimal(c.prefix));
    assert PrintCidr(c)[|Quad(c.w, c.x, c.y, c.z)|] == '/';
    CidrIsClean(c);
  }

  predicate CleanText(s: string) {
    s != "" && ' ' !in s && NL !in s && '"' !in s
  }

  lemma DigitsAreClean(n: nat)
    ensures CleanText(S.Decimal(n))
  {
    DecimalDigits(n);
  }

  lemma CleanConcat(a: string, sep: string, b: string)
    requires CleanText(a) && CleanText(sep) && CleanText(b)
    ensures CleanText(a + sep + b)
  {
  }

  lemma QuadIsClean(w: nat, x: nat, y: nat, z: nat)
    ensures CleanText(Quad(w, x, y, z))
  {
    DigitsAreClean(w);
    DigitsAreClean(x);
    DigitsAreClean(y);
    DigitsAreClean(z);
    CleanConcat(S.Decimal(w), ".", S.Decimal(x));
    CleanConcat(S.Decimal(w) + "." + S.Decimal(x), ".", S.Decimal(y));
    CleanConcat(S.Decimal(w) + "." + S.Decimal(x) + "." + S.Decimal(y), ".", S.Decimal(z));
  }

  lemma CidrIsClean(c: Cidr)
    ensures CleanText(PrintCidr(c))
  {
    QuadIsClean(c.w, c.x, c.y, c.z);
    DigitsAreClean(c.prefix);
    CleanConcat(Quad(c.w, c.x, c.y, c.z), "/", S.Decimal(c.prefix));
  }

  /** What an entry of an allow-list stands for: a printed block, or one address, with spaces around it. */
  ghost predicate Denotes(entry: string, c: Cidr) {
    IsCidr(c) && (Trim(entry) == PrintCidr(c) || (c.prefix == 32 && Trim(entry) == Quad(c.w, c.x, c.y, c.z)))
  }

  lemma DenotedReads(t: string, c: Cidr)
    requires IsCidr(c) && (t == PrintCidr(c) || (c.prefix == 32 && t == Quad(c.w, c.x, c.y, c.z)))
    ensures ParseBlock(WithSlash(t)) == Some(Block(V4(c.w * 0x100_0000 + c.x * 0x1_0000 + c.y * 0x100 + c.z), c.prefix))
    ensures CleanText(t)
  {
    if t == PrintCidr(c) {
      CidrReads(c);
    } else {
      QuadReads(c.w, c.x, c.y, c.z);
      QuadIsClean(c.w, c.x, c.y, c.z);
      SlashedEntry(t);
    }
  }

  lemma EntryAdmitsRange(entry: string, c: Cidr, client: Address)
    requires Denotes(entry, c)
    ensures Admits(entry, client) <==> Covers(c, client)
    ensures CleanEntry(entry)
  {
    DenotedReads(Trim(entry), c);
    KindedBlock(V4(c.w * 0x100_0000 + c.x * 0x1_0000 + c.y * 0x100 + c.z), c.prefix, client);
  }

  /** Every entry of the list denotes the block in the same place. */
  ghost predicate DenoteAll(ips: seq<string>, cs: seq<Cidr>) {
    |ips| == |cs| && forall i :: 0 <= i < |ips| ==> Denotes(ips[i], cs[i])
  }

  predicate SomeCovers(cs: seq<Cidr>, client: Address) {
    exists i :: 0 <= i < |cs| && Covers(cs[i], client)
  }

  lemma ListAdmitsRanges(ips: seq<string>, cs: seq<Cidr>, client: Address)
    requires DenoteAll(ips, cs)
    ensures SomeAdmits(ips, client) <==> SomeCovers(cs, client)
  {
    forall i | 0 <= i < |ips|
      ensures Admits(ips[i], client) <==> Covers(cs[i], client)
    {
      EntryAdmitsRange(ips[i], cs[i], client);
    }
    if SomeAdmits(ips, client) {
      var i :| 0 <= i < |ips| && Admits(ips[i], client);
      assert Covers(cs[i], client);
    }
    if SomeCovers(cs, client) {
      var i :| 0 <= i < |cs| && Covers(cs[i], client);
      assert Admits(ips[i], client);
    }
  }

  // ---------- IPv6 texts ----------

  function HexChar(d: nat): char
    requires d < 16
  {
    if d < 10 then '0' + d as char else 'a' + (d - 10) as char
  }

  function Hex(n: nat): string {
    if n < 16 then [HexChar(n)] else Hex(n / 16) + [HexChar(n % 16)]
  }

  lemma {:induction false} HexReads(n: nat)
    ensures ParseHex(Hex(n)) == Some(n) && Hex(n) != ""
    ensures forall i :: 0 <= i < |Hex(n)| ==> Hex(n)[i] != ':' && Hex(n)[i] != '.'
    decreases n
  {
    if n < 16 {
      assert Hex(n)[..0] == "";
    } else {
      HexReads(n / 16);
      assert Hex(n)[..|Hex(n)| - 1] == Hex(n / 16);
    }
  }

  lemma GroupReads(n: nat)
    requires n < 65536
    ensures ParseGroup(Hex(n)) == Some(n) && ':' !in Hex(n) && '.' !in Hex(n)
  {
    HexReads(n);
    if n >= 16 {
      HexReads(n / 16);
      if n >= 256 { HexReads(n / 16 / 16); }
    }
  }

  function Hexes(groups: seq<nat>): (r: seq<string>)
    ensures |r| == |groups|
    ensures forall i :: 0 <= i < |r| ==> r[i] == Hex(groups[i])
  {
    seq(|groups|, i requires 0 <= i < |groups| => Hex(groups[i]))
  }

  function PrintGroups(groups: seq<nat>): string {
    Join(Hexes(groups), ":")
  }

  lemma {:induction false} GroupListReads(groups: seq<nat>, quad: bool)
    requires Narrow(groups)
    ensures ParseGroups(Hexes(groups), quad) == Some(groups)
    decreases |groups|
  {
    if groups != [] {
      GroupReads(groups[0]);
      assert Hexes(groups)[1..] == Hexes(groups[1..]);
      GroupListReads(groups[1..], quad);
      assert [groups[0]] + groups[1..] == groups;
    }
  }

  /** No colon at either end and none next to another. */
  ghost predicate NoGap(s: string) {
    s != "" && s[0] != ':' && s[|s| - 1] != ':' && Gap(s) == |s|
  }

  lemma NoGapAlone(h: string)
    requires h != "" && ':' !in h
    ensures NoGap(h)
  {
    GapAfter(h, "");
    assert h + "" == h && Gap("") == 0;
  }

  lemma NoGapCons(h: string, rest: string)
    requires h != "" && ':' !in h && NoGap(rest)
    ensures NoGap(h + ":" + rest)
  {
    var tail := ":" + rest;
    GapAfter(h, tail);
    assert tail[1..] == rest && tail[..2] != "::" by { assert tail[1] == rest[0]; }
    assert h + tail == h + ":" + rest;
  }

  lemma {:induction false} PrintedGroups(groups: seq<nat>)
    requires Narrow(groups) && groups != []
    ensures NoGap(PrintGroups(groups))
    decreases |groups|
  {
    GroupReads(groups[0]);
    HexReads(groups[0]);
    NoGapAlone(Hex(groups[0]));
    if |groups| > 1 {
      PrintedGroups(groups[1..]);
      assert Hexes(groups)[1..] == Hexes(groups[1..]);
      NoGapCons(Hex(groups[0]), PrintGroups(groups[1..]));
    }
  }

  /** Text without a colon in front moves the gap. */
  lemma {:induction false} GapAfter(a: string, b: string)
    requires ':' !in a
    ensures Gap(a + b) == |a| + Gap(b)
    decreases |a|
  {
    if a == "" {
      assert a + b == b;
    } else {
      assert (a + b)[1..] == a[1..] + b;
      GapAfter(a[1..], b);
      if |a + b| >= 2 { assert (a + b)[..2][0] == a[0]; }
    }
  }

  lemma GroupsRead(groups: seq<nat>, quad: bool)
    requires Narrow(groups)
    ensures Groups(PrintGroups(groups), quad) == Some(groups)
  {
    if groups != [] {
      PrintedGroups(groups);
      forall i | 0 <= i < |groups| { GroupReads(groups[i]); }
      LinesRoundTrip(Hexes(groups), ':');
      GroupListReads(groups, quad);
    }
  }

  /** The number eight groups stand for, most significant first. */
  function Bits(g: seq<nat>): nat
    requires |g| == 8
  {
    ((((((g[0] * 0x1_0000 + g[1]) * 0x1_0000 + g[2]) * 0x1_0000 + g[3]) * 0x1_0000 + g[4]) * 0x1_0000 + g[5]) * 0x1_0000
     + g[6]) * 0x1_0000 + g[7]
  }

  lemma ValueSnoc(g: seq<nat>, n: nat, v: nat)
    requires n < |g| && Value(g[..n]) == v
    ensures Value(g[..n + 1]) == v * 0x1_0000 + g[n]
  {
    assert g[..n + 1][..n] == g[..n];
  }

  lemma ValueIsBits(g: seq<nat>)
    requires |g| == 8
    ensures Value(g) == Bits(g)
  {
    assert g[..8] == g && g[..0] == [];
    ValueSnoc(g, 0, 0);
    var v2 := g[0] * 0x1_0000 + g[1];
    var v3 := v2 * 0x1_0000 + g[2];
    var v4 := v3 * 0x1_0000 + g[3];
    var v5 := v4 * 0x1_0000 + g[4];
    var v6 := v5 * 0x1_0000 + g[5];
    ValueSnoc(g, 1, g[0]);
    ValueSnoc(g, 2, v2);
    ValueSnoc(g, 3, v3);
    ValueSnoc(g, 4, v4);
    ValueSnoc(g, 5, v5);
    ValueSnoc(g, 6, v6);
    ValueSnoc(g, 7, v6 * 0x1_0000 + g[6]);
  }

  /** Eight groups in hexadecimal read as the 128 bits they spell. */
  lemma FullV6Reads(g: seq<nat>)
    requires |g| == 8 && Narrow(g)
    ensures ParseAddress(PrintGroups(g)) == Some(V6(Bits(g)))
  {
    PrintedGroups(g);
    GroupsRead(g, true);
    ValueIsBits(g);
    HasColon(g);
  }

  lemma HasColon(g: seq<nat>)
    requires |g| > 1
    ensures ':' in PrintGroups(g)
  {
    var rest := Join(Hexes(g)[1..], ":");
    assert PrintGroups(g) == Hexes(g)[0] + ":" + rest;
    assert PrintGroups(g)[|Hexes(g)[0]|] == ':';
  }

  /** A run of zero groups may be left out. */
  lemma ShortV6Reads(a: seq<nat>, b: seq<nat>)
    requires |a| + |b| <= 7 && Narrow(a) && Narrow(b)
    ensures ParseAddress(PrintGroups(a) + "::" + PrintGroups(b)) == Some(V6(Bits(a + Zeros(8 - |a| - |b|) + b)))
  {
    var head, tail := PrintGroups(a), PrintGroups(b);
    var s := head + "::" + tail;
    GapBetween(a, tail);
    assert s[..|head|] == head && s[|head| + 2..] == tail && s[|head|] == ':';
    GroupsRead(a, false);
    GroupsRead(b, true);
    ValueIsBits(a + Zeros(8 - |a| - |b|) + b);
  }

  lemma GapBetween(a: seq<nat>, tail: string)
    requires Narrow(a)
    ensures Gap(PrintGroups(a) + "::" + tail) == |PrintGroups(a)|
  {
    var head := PrintGroups(a);
    if a != [] { PrintedGroups(a); }
    GapAtEnd(head, "::" + tail);
    assert ("::" + tail)[..2] == "::";
    assert head + "::" + tail == head + ("::" + tail);
  }

  lemma {:induction false} GapAtEnd(a: string, b: string)
    requires Gap(a) == |a| && (a == "" || a[|a| - 1] != ':') && |b| >= 2
    ensures Gap(a + b) == |a| + Gap(b)
    decreases |a|
  {
    if a == "" {
      assert a + b == b;
    } else {
      assert (a + b)[1..] == a[1..] + b;
      if |a| > 1 {
        assert (a + b)[..2] == a[..2];
        assert a[1..][|a| - 2] == a[|a| - 1];
      } else {
        assert (a + b)[..2][0] == a[0];
      }
      GapAtEnd(a[1..], b);
    }
  }

  // ---------- The file ----------

  /**
   A managed user whose earliest row lists printed blocks is let in from the addresses in one of these
   ranges, and from nowhere else.
   */
  lemma FileAdmitsRanges(table: set<ManagedRow>, rows: seq<Row>, t: ManagedRow, cs: seq<Cidr>, client: Address)
    requires IsQueryResult(table, rows) && CleanTable(table) && WellFormed(client)
    requires Earliest(table, t) && forall x :: Earliest(table, x) && x.user == t.user ==> x.ips == t.ips
    requires t.user != "pgbouncer_auth" && t.user != "pgmanager"
    requires t.ips.Some? && DenoteAll(t.ips.value, cs)
    ensures Decide(HbaText(rows), t.user, client) == Some(if SomeCovers(cs, client) then Scram else Reject)
  {
    HbaFollowsEarliestRow(table, rows, t, client);
    ListAdmitsRanges(t.ips.value, cs, client);
  }

  /** The lines of the file, word by word. */
  lemma RuleTexts(user: string, address: string)
    ensures RuleLine(user, address, Trust) == "host all " + user + " " + address + " trust"
    ensures RuleLine(user, address, Scram) == "host all " + user + " " + address + " scram-sha-256"
    ensures RuleLine(user, address, Reject) == "host all " + user + " " + address + " reject"
    ensures Quote(user) == "\"" + user + "\""
  {
    WordAfter("host all " + user + " " + address, "trust", " trust");
    WordAfter("host all " + user + " " + address, "scram-sha-256", " scram-sha-256");
    WordAfter("host all " + user + " " + address, "reject", " reject");
  }

  lemma WordAfter(s: string, word: string, spaced: string)
    requires spaced == " " + word
    ensures s + " " + word == s + spaced
  {
  }

  // ---------- The fixed rules ----------

  /** 10.0.0.0 to 10.255.255.255, 172.16.0.0 to 172.31.255.255, 192.168.0.0 to 192.168.255.255 */
  predicate IsPrivate(client: Address) {
    client.V4? &&
    (|| 0x0A00_0000 <= client.bits <= 0x0AFF_FFFF
     || 0xAC10_0000 <= client.bits <= 0xAC1F_FFFF
     || 0xC0A8_0000 <= client.bits <= 0xC0A8_FFFF)
  }

  /** 127.0.0.1 and ::1 */
  predicate IsLoopback(client: Address) {
    client == V4(0x7F00_0001) || client == V6(1)
  }

  lemma Powers()
    ensures Pow2(0) == 1 && Pow2(16) == 0x1_0000 && Pow2(20) == 0x10_0000 && Pow2(24) == 0x100_0000
  {
    assert Pow2(4) == 16;
    Pow2Sum(4, 4);
    Pow2Sum(8, 8);
    Pow2Sum(16, 4);
    Pow2Sum(16, 8);
  }

  /** The range of a block whose network address has no bits set behind the prefix. */
  lemma Aligned(n: nat, a: nat, k: nat)
    requires n % Pow2(k) == 0
    ensures Within(a, n, k) <==> n <= a < n + Pow2(k)
  {
    assert n / Pow2(k) * Pow2(k) == n;
  }

  lemma AlignedBlock(text: string, c: Cidr, first: nat, last: nat, client: Address)
    requires IsCidr(c) && text == PrintCidr(c)
    requires first == c.w * 0x100_0000 + c.x * 0x1_0000 + c.y * 0x100 + c.z
    requires first % Pow2(32 - c.prefix) == 0 && last == first + Pow2(32 - c.prefix) - 1
    ensures InBlock(text, client) <==> client.V4? && first <= client.bits <= last
  {
    CidrReads(c);
    KindedBlock(V4(first), c.prefix, client);
    Aligned(first, client.bits, 32 - c.prefix);
  }

  lemma DecimalSnoc(n: nat, d: nat)
    requires n > 0 && d < 10
    ensures S.Decimal(10 * n + d) == S.Decimal(n) + [S.DigitChar(d)]
  {
    assert (10 * n + d) / 10 == n && (10 * n + d) % 10 == d;
  }

  lemma Numerals()
    ensures S.Decimal(0) == "0" && S.Decimal(1) == "1" && S.Decimal(8) == "8"
    ensures S.Decimal(10) == "10" && S.Decimal(12) == "12" && S.Decimal(16) == "16" && S.Decimal(32) == "32"
    ensures S.Decimal(127) == "127" && S.Decimal(128) == "128" && S.Decimal(168) == "168" && S.Decimal(172) == "172" && S.Decimal(192) == "192"
  {
    DecimalSnoc(1, 0);
    DecimalSnoc(1, 2);
    DecimalSnoc(1, 6);
    DecimalSnoc(1, 7);
    DecimalSnoc(1, 9);
    DecimalSnoc(3, 2);
    DecimalSnoc(12, 7);
    DecimalSnoc(12, 8);
    DecimalSnoc(16, 8);
    DecimalSnoc(17, 2);
    DecimalSnoc(19, 2);
  }

  lemma FixedTexts()
    ensures PrintCidr(Cidr(10, 0, 0, 0, 8)) == "10.0.0.0/8"
    ensures PrintCidr(Cidr(172, 16, 0, 0, 12)) == "172.16.0.0/12"
    ensures PrintCidr(Cidr(192, 168, 0, 0, 16)) == "192.168.0.0/16"
    ensures PrintCidr(Cidr(127, 0, 0, 1, 32)) == "127.0.0.1/32"
  {
    Numerals();
  }

  lemma PrivateRanges(client: Address)
    ensures InBlock("10.0.0.0/8", client) <==> client.V4? && 0x0A00_0000 <= client.bits <= 0x0AFF_FFFF
    ensures InBlock("172.16.0.0/12", client) <==> client.V4? && 0xAC10_0000 <= client.bits <= 0xAC1F_FFFF
    ensures InBlock("192.168.0.0/16", client) <==> client.V4? && 0xC0A8_0000 <= client.bits <= 0xC0A8_FFFF
    ensures InBlock("127.0.0.1/32", client) <==> client == V4(0x7F00_0001)
  {
    FixedTexts();
    Powers();
    AlignedBlock("10.0.0.0/8", Cidr(10, 0, 0, 0, 8), 0x0A00_0000, 0x0AFF_FFFF, client);
    AlignedBlock("172.16.0.0/12", Cidr(172, 16, 0, 0, 12), 0xAC10_0000, 0xAC1F_FFFF, client);
    AlignedBlock("192.168.0.0/16", Cidr(192, 168, 0, 0, 16), 0xC0A8_0000, 0xC0A8_FFFF, client);
    AlignedBlock("127.0.0.1/32", Cidr(127, 0, 0, 1, 32), 0x7F00_0001, 0x7F00_0001, client);
  }

  lemma LoopbackAddress()
    ensures ParseV6("::1") == Some(V6(1))
  {
    var s := "::1";
    assert s[..2] == "::" && s[2..] == "1" && s[..0] == "";
    assert Gap(s) == 0;
    SplitPlain("1", ':');
    assert "1"[..0] == "" && ParseGroup("1") == Some(1);
    assert ParseGroups(["1"], true) == Some([1] + []);
    var groups := [] + Zeros(7) + [1];
    assert groups[..7] == Zeros(7);
    ZerosAreZero(7);
  }

  lemma BlockParses(address: string, prefix: nat, a: Address)
    requires '/' !in address && ParseAddress(address) == Some(a) && prefix <= Width(a)
    ensures ParseBlock(address + "/" + S.Decimal(prefix)) == Some(Block(a, prefix))
  {
    DecimalDigits(prefix);
    SplitBlock(address, S.Decimal(prefix));
  }

  lemma LoopbackText()
    ensures "::1/128" == "::1" + "/" + S.Decimal(128) && ':' in "::1" && '/' !in "::1"
  {
    Numerals();
    assert "::1"[0] == ':';
  }

  lemma LoopbackRange(client: Address)
    ensures InBlock("::1/128", client) <==> client == V6(1)
  {
    LoopbackText();
    LoopbackAddress();
    BlockParses("::1", 128, V6(1));
    KindedBlock(V6(1), 128, client);
    assert Pow2(0) == 1;
  }

  lemma InSomeThree(a: string, b: string, c: string, client: Address)
    ensures InSome([a, b, c], client) <==> InBlock(a, client) || InBlock(b, client) || InBlock(c, client)
  {
    var blocks := [a, b, c];
    assert blocks[0] == a && blocks[1] == b && blocks[2] == c;
  }

  lemma InSomePlus(a: string, b: string, rest: seq<string>, client: Address)
    ensures InSome([a, b] + rest, client) <==> InBlock(a, client) || InBlock(b, client) || InSome(rest, client)
  {
    assert ([a, b] + rest)[1..] == [b] + rest && ([b] + rest)[1..] == rest;
    InSomeCons([a, b] + rest, client);
    InSomeCons([b] + rest, client);
  }

  lemma FixedRanges(client: Address)
    ensures InSome(PRIVATE, client) <==> IsPrivate(client)
    ensures InSome(LOCAL + PRIVATE, client) <==> IsPrivate(client) || IsLoopback(client)
  {
    PrivateRanges(client);
    LoopbackRange(client);
    InSomeThree("172.16.0.0/12", "192.168.0.0/16", "10.0.0.0/8", client);
    InSomePlus("127.0.0.1/32", "::1/128", PRIVATE, client);
  }

  /** The connection that reloads PgBouncer is trusted exactly from the private networks and the machine itself. */
  lemma AgentTrustedIff(rows: seq<Row>, client: Address)
    requires DistinctUsers(rows) && (forall i :: 0 <= i < |rows| ==> CleanRow(rows[i])) && WellFormed(client)
    ensures Decide(HbaText(rows), "pgbouncer_auth", client) == Some(Trust) <==> IsPrivate(client) || IsLoopback(client)
    ensures forall user :: Decide(HbaText(rows), user, client) == Some(Trust) ==> user == "pgbouncer_auth"
  {
    FixedRanges(client);
    HbaRefinesPolicy(rows, "pgbouncer_auth", client);
    forall user | Decide(HbaText(rows), user, client) == Some(Trust)
      ensures user == "pgbouncer_auth"
    {
      HbaRefinesPolicy(rows, user, client);
    }
  }

  /** Without a row of its own the application gets in exactly from the private networks, and any other user from nowhere. */
  lemma WithoutRowsOnlyPrivate(rows: seq<Row>, user: string, client: Address)
    requires DistinctUsers(rows) && (forall i :: 0 <= i < |rows| ==> CleanRow(rows[i])) && WellFormed(client)
    requires user != "pgbouncer_auth" && forall i :: 0 <= i < |rows| ==> rows[i].user != user
    ensures Decide(HbaText(rows), user, client) == Some(if user == "pgmanager" && IsPrivate(client) then Scram else Reject)
  {
    FixedRanges(client);
    HbaRefinesPolicy(rows, user, client);
  }
}
