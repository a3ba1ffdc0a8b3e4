/**
 Allow-lists over runs of requests: which row of a user's the generated file follows, and when
 removing a database lets other clients in.
 */
module AllowLists {
  import opened Prelude
  import opened Text
  import opened Privileges
  import opened Clusters
  import opened ClusterExactness
  import opened Ledgers
  import H = Hba

  function RowAt(b: Book, k: Key): H.ManagedRow
    requires k in b.marks
  {
    H.ManagedRow(k.0, k.1, Some(b.marks[k].ips), b.marks[k].created)
  }

  /** The table as the rebuild of the file queries it. */
  function Table(b: Book): (t: set<H.ManagedRow>)
    ensures forall k :: k in b.marks ==> RowAt(b, k) in t
  {
    set k | k in b.marks :: RowAt(b, k)
  }

  /** The user's earliest row. */
  ghost predicate IsFirst(b: Book, k: Key) {
    k in b.marks && forall j :: j in b.marks && j.0 == k.0 && j != k ==> b.marks[k].created < b.marks[j].created
  }

  /** What a list answers a client with. */
  ghost function Outcome(ips: seq<string>, client: H.Address): H.Method {
    if H.SomeAdmits(ips, client) then H.Scram else H.Reject
  }

  /** Both lists let the same clients in. */
  ghost predicate SameReach(a: seq<string>, b: seq<string>) {
    forall client :: H.WellFormed(client) ==> (H.SomeAdmits(a, client) <==> H.SomeAdmits(b, client))
  }

  ghost predicate CleanBook(b: Book) {
    H.CleanTable(Table(b))
  }

  predicate Managed(user: string) {
    user != H.AGENT && user != H.APP
  }

  /** What PgBouncer answers a client of the user, whatever order the query gave its rows in. */
  ghost predicate Answers(b: Book, user: string, client: H.Address, auth: H.Method) {
    forall rows :: H.IsQueryResult(Table(b), rows) ==> H.Decide(H.HbaText(rows), user, client) == Some(auth)
  }

  lemma FirstIsEarliest(b: Book, k: Key)
    requires IsFirst(b, k)
    ensures H.Earliest(Table(b), RowAt(b, k))
    ensures forall x :: H.Earliest(Table(b), x) && x.user == k.0 ==> x == RowAt(b, k)
  {
    forall x | x in Table(b) && x.user == k.0
      ensures b.marks[k].created <= x.created && (x.created == b.marks[k].created ==> x == RowAt(b, k))
    {
      var j :| j in b.marks && x == RowAt(b, j);
    }
  }

  /** The earliest row decides. */
  lemma FirstDecides(b: Book, k: Key, client: H.Address)
    requires CleanBook(b) && H.WellFormed(client) && IsFirst(b, k) && Managed(k.0)
    ensures Answers(b, k.0, client, Outcome(b.marks[k].ips, client))
  {
    FirstIsEarliest(b, k);
    forall rows | H.IsQueryResult(Table(b), rows)
      ensures H.Decide(H.HbaText(rows), k.0, client) == Some(Outcome(b.marks[k].ips, client))
    {
      H.HbaFollowsEarliestRow(Table(b), rows, RowAt(b, k), client);
    }
  }

  // ---------- Adding and removing a database ----------

  lemma RemovalRows(c: Cluster, user: string, db: string)
    ensures RemoveDatabaseRun(c, user, db).rows == WithoutRows(c, user, {db}).rows
  {
  }

  lemma RemovalKeys(l: Ledger, k: Key, l': Ledger)
    requires Bound(l) && LedgerStep(l, RemoveUserDatabase(k.0, k.1), [], l', true)
    ensures l'.book.marks.Keys == l.book.marks.Keys - {k} && Kept(l.book, l'.book)
  {
    RemovalRows(l.cluster, k.0, k.1);
  }

  lemma KeptClean(b: Book, b': Book)
    requires CleanBook(b) && Kept(b, b')
    ensures CleanBook(b')
  {
    forall x | x in Table(b')
      ensures x in Table(b)
    {
      var k :| k in b'.marks && x == RowAt(b', k);
      assert RowAt(b', k) == RowAt(b, k);
    }
  }

  lemma AddKeepsFirst(l: Ledger, user: string, db: string, l': Ledger, k: Key)
    requires Bound(l) && Orderly(l.book) && LedgerStep(l, AddUserDatabase(user, db), [], l', true)
    requires IsFirst(l.book, k)
    ensures IsFirst(l'.book, k) && l'.book.marks[k] == l.book.marks[k]
  {
    assert k in l.cluster.rows;
    assert k in l'.cluster.rows;
  }

  lemma RemoveLaterKeepsFirst(l: Ledger, k: Key, l': Ledger, first: Key)
    requires Bound(l) && LedgerStep(l, RemoveUserDatabase(k.0, k.1), [], l', true)
    requires IsFirst(l.book, first) && first != k
    ensures IsFirst(l'.book, first) && l'.book.marks[first] == l.book.marks[first]
  {
    RemovalKeys(l, k, l');
  }

  ghost predicate SameAnswers(b: Book, b': Book, user: string) {
    forall client, m :: H.WellFormed(client) ==> (Answers(b, user, client, m) <==> Answers(b', user, client, m))
  }

  /** Two answers differ; this needs some result of the query to exist. */
  lemma AnswersDiffer(b: Book, user: string, client: H.Address, m: H.Method, n: H.Method)
    requires Answers(b, user, client, m) && Answers(b, user, client, n)
    ensures m == n
  {
    var rows := SomeResult(b);
    assert H.IsQueryResult(Table(b), rows);
  }

  lemma SomeResult(b: Book) returns (rows: seq<H.Row>)
    ensures H.IsQueryResult(Table(b), rows)
  {
    rows := ResultFor(Table(b), Table(b));
  }

  /** Rows for all users of `part`, one each. */
  lemma {:induction false} ResultFor(table: set<H.ManagedRow>, part: set<H.ManagedRow>) returns (rows: seq<H.Row>)
    requires part <= table
    ensures H.DistinctUsers(rows)
    ensures forall r :: r in rows ==> H.IsEarliestRow(table, r) && exists t :: t in part && t.user == r.user
    ensures forall t :: t in part ==> H.HasRow(rows, t.user)
    decreases part
  {
    if part == {} {
      rows := [];
    } else {
      var t :| t in part;
      var rest := set x | x in part && x.user != t.user;
      assert t !in rest;
      rows := ResultFor(table, rest);
      var mine := set x | x in table && x.user == t.user;
      assert t in mine;
      var e := SomeEarliest(table, mine);
      var r := H.RowOf(e);
      assert H.IsEarliestRow(table, r);
      rows := rows + [r];
      assert r in rows;
      forall x | x in part
        ensures H.HasRow(rows, x.user)
      {
        if x.user != t.user {
          assert x in rest && H.HasRow(rows[..|rows| - 1], x.user);
        }
      }
    }
  }

  lemma {:induction false} SomeEarliest(table: set<H.ManagedRow>, part: set<H.ManagedRow>) returns (e: H.ManagedRow)
    requires part != {}
    ensures e in part && forall x :: x in part ==> e.created <= x.created
    decreases part
  {
    var t :| t in part;
    if part == {t} {
      e := t;
    } else {
      e := SomeEarliest(table, part - {t});
      if t.created < e.created { e := t; }
    }
  }

  /**
   Removing the earliest row changes no answer exactly when the next earliest lets the same clients in.
   */
  lemma RemovalKeepsAnswersIff(l: Ledger, k: Key, l': Ledger, next: Key)
    requires Bound(l) && CleanBook(l.book) && LedgerStep(l, RemoveUserDatabase(k.0, k.1), [], l', true)
    requires IsFirst(l.book, k) && IsFirst(l'.book, next) && next.0 == k.0 && Managed(k.0)
    ensures SameAnswers(l.book, l'.book, k.0) <==> SameReach(l.book.marks[k].ips, l'.book.marks[next].ips)
  {
    RemovalKeys(l, k, l');
    KeptClean(l.book, l'.book);
    SameAnswersIff(l.book, k, l'.book, next);
  }

  lemma SameAnswersIff(b: Book, k: Key, b': Book, next: Key)
    requires CleanBook(b) && CleanBook(b') && IsFirst(b, k) && IsFirst(b', next) && next.0 == k.0 && Managed(k.0)
    ensures SameAnswers(b, b', k.0) <==> SameReach(b.marks[k].ips, b'.marks[next].ips)
  {
    forall client | H.WellFormed(client)
      ensures (H.SomeAdmits(b.marks[k].ips, client) <==> H.SomeAdmits(b'.marks[next].ips, client)) <==>
              (forall m :: Answers(b, k.0, client, m) <==> Answers(b', k.0, client, m))
    {
      OnlyAnswer(b, k, client);
      OnlyAnswer(b', next, client);
      var m := Outcome(b.marks[k].ips, client);
      assert Answers(b, k.0, client, m);
    }
  }

  lemma EnteredClean(b: Book, b': Book, user: string, ips: seq<string>, bare: bool)
    requires CleanBook(b) && Entered(b, b', user, ips, bare) && ValidName(user)
    requires forall i :: 0 <= i < |ips| ==> H.CleanEntry(ips[i])
    ensures CleanBook(b')
  {
    forall x | x in Table(b')
      ensures H.CleanRow(H.RowOf(x))
    {
      var k :| k in b'.marks && x == RowAt(b', k);
      if k in b.marks { assert RowAt(b', k) == RowAt(b, k); }
    }
  }

  /** AddUserDatabase changes no answer for a user who has a row: the new one is the latest. */
  lemma AddKeepsAnswers(l: Ledger, user: string, db: string, l': Ledger, k: Key)
    requires Bound(l) && Orderly(l.book) && CleanBook(l.book) && LedgerStep(l, AddUserDatabase(user, db), [], l', true)
    requires IsFirst(l.book, k) && k.0 == user && Managed(user)
    ensures SameAnswers(l.book, l'.book, user)
  {
    AddKeepsFirst(l, user, db, l', k);
    EnteredKeepsAnswers(l.book, l'.book, k);
  }

  lemma EnteredKeepsAnswers(b: Book, b': Book, k: Key)
    requires CleanBook(b) && Entered(b, b', k.0, OPEN, true) && IsFirst(b, k) && IsFirst(b', k) && Managed(k.0)
    ensures SameAnswers(b, b', k.0)
  {
    assert H.CleanRow(H.RowOf(RowAt(b, k)));
    OpenIsClean();
    EnteredClean(b, b', k.0, OPEN, true);
    SameAnswersIff(b, k, b', k);
  }

  /** Neither does removing any row but the earliest. */
  lemma RemoveLaterKeepsAnswers(l: Ledger, k: Key, l': Ledger, first: Key)
    requires Bound(l) && CleanBook(l.book) && LedgerStep(l, RemoveUserDatabase(k.0, k.1), [], l', true)
    requires IsFirst(l.book, first) && first != k && Managed(first.0)
    ensures SameAnswers(l.book, l'.book, first.0)
  {
    RemovalKeys(l, k, l');
    KeptClean(l.book, l'.book);
    RemoveLaterKeepsFirst(l, k, l', first);
    SameAnswersIff(l.book, first, l'.book, first);
  }

  lemma OpenIsClean()
    ensures H.CleanEntry(OPEN[0])
  {
    H.AnyClean();
    TrimIdle(H.ANY_V4);
  }

  lemma OnlyAnswer(b: Book, k: Key, client: H.Address)
    requires CleanBook(b) && H.WellFormed(client) && IsFirst(b, k) && Managed(k.0)
    ensures forall m :: Answers(b, k.0, client, m) <==> m == Outcome(b.marks[k].ips, client)
  {
    FirstDecides(b, k, client);
    forall m | Answers(b, k.0, client, m) { AnswersDiffer(b, k.0, client, m, Outcome(b.marks[k].ips, client)); }
  }

  // ---------- Which rows came without a list ----------

  /** The rows that carry the user's own list carry the same one. */
  ghost predicate OneList(b: Book, user: string) {
    forall j, k :: j in b.marks && k in b.marks && j.0 == user && k.0 == user && j !in b.bare && k !in b.bare ==>
      b.marks[j].ips == b.marks[k].ips
  }

  /** A managed user in a ledger in order, with the earliest row k before the removal and `next` after it. */
  ghost predicate Ordinary(l: Ledger, k: Key, l': Ledger, next: Key) {
    && Bound(l) && Orderly(l.book) && CleanBook(l.book) && OneList(l.book, k.0)
    && IsFirst(l.book, k) && IsFirst(l'.book, next) && next.0 == k.0 && Managed(k.0)
  }

  /**
   The same condition by where the rows came from: removing the earliest database changes no answer
   exactly when both rows carry the list last set, or neither does, or that list is open anyway.
   */
  lemma RemovalKeepsAnswersByOrigin(l: Ledger, k: Key, l': Ledger, next: Key)
    requires Ordinary(l, k, l', next) && LedgerStep(l, RemoveUserDatabase(k.0, k.1), [], l', true)
    ensures SameAnswers(l.book, l'.book, k.0) <==>
            || (k in l.book.bare <==> next in l.book.bare)
            || SameReach(l.book.marks[if k in l.book.bare then next else k].ips, OPEN)
  {
    RemovalKeepsAnswersIff(l, k, l', next);
    RemovalKeys(l, k, l');
    assert l'.book.marks[next] == l.book.marks[next];
    SameReachSymmetric(l.book.marks[k].ips, l.book.marks[next].ips);
  }

  lemma SameReachSymmetric(a: seq<string>, b: seq<string>)
    ensures SameReach(a, b) <==> SameReach(b, a)
    ensures a == b ==> SameReach(a, b)
  {
  }

  lemma EnteredOneList(b: Book, b': Book, user: string, ips: seq<string>, bare: bool, other: string)
    requires Entered(b, b', user, ips, bare) && OneList(b, other)
    requires other == user && !bare ==> forall k :: k in b.marks && k.0 == user && k !in b.bare ==> b.marks[k].ips == ips
    ensures OneList(b', other)
  {
  }

  lemma RelistOneList(b: Book, user: string, ips: seq<string>, other: string)
    requires other != user ==> OneList(b, other)
    ensures OneList(Relist(b, user, ips), other)
  {
  }

  lemma UpdateOneList(b: Book, user: string, ips: seq<string>, b': Book, other: string)
    requires OneList(b, other) && UpdateBook(b, user, ips, b', true)
    ensures OneList(b', other)
  {
    if ips == [] {
      var list, bare :| IsCurrentList(b, user, list, bare) && Entered(b, b', user, list, bare);
      EnteredOneList(b, b', user, list, bare, other);
    } else {
      var mid :| Entered(b, mid, user, ips, false) && b' == Relist(mid, user, ips);
      if other != user { EnteredOneList(b, mid, user, ips, false, other); }
      RelistOneList(mid, user, ips, other);
    }
  }

  /** A successful request leaves every user with one list of their own. */
  lemma OneListStep(l: Ledger, r: Request, ips: seq<string>, l': Ledger, other: string)
    requires Exact(l.cluster) && Bound(l) && OneList(l.book, other) && LedgerStep(l, r, ips, l', true)
    ensures OneList(l'.book, other)
  {
    match r
    case CreateUser(user, dbs, level) =>
      CreateUserEffect(l.cluster, user, dbs, level);
      forall k | k in l.book.marks
        ensures k.0 != user
      {
        assert Reachable(l.cluster, k.0, k.1);
      }
      EnteredOneList(l.book, l'.book, user, if ips == [] then OPEN else ips, false, other);
    case AddUserDatabase(user, _) => EnteredOneList(l.book, l'.book, user, OPEN, true, other);
    case UpdateUser(user, _, _) => UpdateOneList(l.book, user, ips, l'.book, other);
    case _ =>
  }

  // ---------- Updating a user ----------

  /** Addresses the generated file can carry. */
  ghost predicate CleanList(ips: seq<string>) {
    forall i :: 0 <= i < |ips| ==> H.CleanEntry(ips[i])
  }

  lemma RowIsClean(b: Book, k: Key)
    requires CleanBook(b) && k in b.marks
    ensures ValidName(k.0) && CleanList(b.marks[k].ips)
  {
    assert H.CleanRow(H.RowOf(RowAt(b, k)));
  }

  lemma CurrentListClean(b: Book, user: string, list: seq<string>, bare: bool)
    requires CleanBook(b) && IsCurrentList(b, user, list, bare)
    ensures CleanList(list)
  {
    OpenIsClean();
    forall n | (user, n) in b.marks { RowIsClean(b, (user, n)); }
  }

  lemma RelistClean(b: Book, user: string, ips: seq<string>)
    requires CleanBook(b) && CleanList(ips)
    ensures CleanBook(Relist(b, user, ips))
  {
    var b' := Relist(b, user, ips);
    forall x | x in Table(b')
      ensures H.CleanRow(H.RowOf(x))
    {
      var k :| k in b'.marks && x == RowAt(b', k);
      RowIsClean(b, k);
      if k.0 != user { assert RowAt(b', k) == RowAt(b, k); }
    }
  }

  lemma UpdateClean(b: Book, user: string, ips: seq<string>, b': Book, ok: bool)
    requires CleanBook(b) && CleanList(ips) && ValidName(user) && UpdateBook(b, user, ips, b', ok)
    ensures CleanBook(b')
  {
    if ips == [] {
      var list, bare :| IsCurrentList(b, user, list, bare) && Entered(b, b', user, list, bare);
      CurrentListClean(b, user, list, bare);
      EnteredClean(b, b', user, list, bare);
    } else {
      var mid :| Entered(b, mid, user, ips, false) && b' == (if ok then Relist(mid, user, ips) else mid);
      EnteredClean(b, mid, user, ips, false);
      RelistClean(mid, user, ips);
    }
  }

  /** An update of k's user: k is the earliest row before it and `next` the earliest after it. */
  ghost predicate Updating(l: Ledger, k: Key, r: Request, ips: seq<string>, l': Ledger, next: Key, ok: bool) {
    && r.UpdateUser? && r.user == k.0 == next.0 && Managed(k.0)
    && CleanBook(l.book) && CleanList(ips) && LedgerStep(l, r, ips, l', ok)
    && IsFirst(l.book, k) && IsFirst(l'.book, next)
  }

  /**
   An update, served or not, changes no answer exactly when the earliest row it leaves lets the same
   clients in; once served with a list, that row carries it.
   */
  lemma UpdateKeepsAnswersIff(l: Ledger, k: Key, r: Request, ips: seq<string>, l': Ledger, next: Key, ok: bool)
    requires Updating(l, k, r, ips, l', next, ok)
    ensures SameAnswers(l.book, l'.book, k.0) <==> SameReach(l.book.marks[k].ips, l'.book.marks[next].ips)
    ensures ok && ips != [] ==> l'.book.marks[next].ips == ips
  {
    RowIsClean(l.book, k);
    UpdateClean(l.book, k.0, ips, l'.book, ok);
    SameAnswersIff(l.book, k, l'.book, next);
  }

  lemma FirstAfterUpdate(b: Book, k: Key, list: seq<string>, bare: bool, b': Book, next: Key)
    requires Orderly(b) && OneList(b, k.0) && IsCurrentList(b, k.0, list, bare) && Entered(b, b', k.0, list, bare)
    requires IsFirst(b, k) && IsFirst(b', next) && next.0 == k.0
    ensures k in b'.marks ==> next == k
    ensures k !in b.bare && next !in b'.bare ==> b'.marks[next].ips == b.marks[k].ips
  {
    if next !in b.marks && !bare {
      var n :| (k.0, n) in b.marks && list == b.marks[(k.0, n)].ips && (k.0, n) !in b.bare;
    }
  }

  lemma OriginDecides(b: Book, k: Key, b': Book, next: Key, ok: bool)
    requires Orderly(b) && Orderly(b') && OneList(b, k.0) && UpdateBook(b, k.0, [], b', ok)
    requires IsFirst(b, k) && IsFirst(b', next) && next.0 == k.0
    ensures k in b'.marks ==> next == k && b'.marks[next].ips == b.marks[k].ips
    ensures SameReach(b.marks[k].ips, b'.marks[next].ips) <==>
            || (k in b.bare <==> next in b'.bare)
            || SameReach(if k in b.bare then b'.marks[next].ips else b.marks[k].ips, OPEN)
  {
    var list, bare :| IsCurrentList(b, k.0, list, bare) && Entered(b, b', k.0, list, bare);
    FirstAfterUpdate(b, k, list, bare, b', next);
    SameReachSymmetric(b.marks[k].ips, b'.marks[next].ips);
  }

  /**
   An update without a list, by where the rows came from: it changes no answer while the earliest row
   stays, and otherwise exactly when both rows carry the list last set, or neither does, or that list is
   open anyway.
   */
  lemma UpdateKeepsAnswersByOrigin(l: Ledger, k: Key, r: Request, l': Ledger, next: Key, ok: bool)
    requires Updating(l, k, r, [], l', next, ok) && Orderly(l.book) && OneList(l.book, k.0)
    ensures k in l'.book.marks ==> next == k && SameAnswers(l.book, l'.book, k.0)
    ensures SameAnswers(l.book, l'.book, k.0) <==>
            || (k in l.book.bare <==> next in l'.book.bare)
            || SameReach(if k in l.book.bare then l'.book.marks[next].ips else l.book.marks[k].ips, OPEN)
  {
    UpdateKeepsAnswersIff(l, k, r, [], l', next, ok);
    BookStepOrderly(l.book, r, [], l'.book, ok);
    OriginDecides(l.book, k, l'.book, next, ok);
  }

  // ---------- The lists of new rows ----------

  /**
   The row of a database that is new to a user carries the request's allow-list; without one a created user
   gets every IPv4 address, an updated user what one of the other rows has, and an added database the default.
   */
  lemma NewRowsCarry(l: Ledger, r: Request, ips: seq<string>, l': Ledger, ok: bool, k: Key)
    requires LedgerStep(l, r, ips, l', ok) && k in l'.book.marks && k !in l.book.marks
    ensures r.CreateUser? || r.UpdateUser? || r.AddUserDatabase?
    ensures k.0 == r.user
    ensures !r.AddUserDatabase? && ips != [] ==> l'.book.marks[k].ips == ips
    ensures (r.CreateUser? && ips == []) || r.AddUserDatabase? ==> l'.book.marks[k].ips == ["0.0.0.0/0"]
    ensures r.UpdateUser? && ips == [] ==>
              if forall n :: (k.0, n) !in l.book.marks then l'.book.marks[k].ips == ["0.0.0.0/0"]
              else exists n :: (k.0, n) in l.book.marks && l'.book.marks[k].ips == l.book.marks[(k.0, n)].ips
  {
    match r
    case UpdateUser(user, _, _) =>
      if ips == [] {
        var list, bare :| IsCurrentList(l.book, user, list, bare) && Entered(l.book, l'.book, user, list, bare);
      } else {
        var mid :| Entered(l.book, mid, user, ips, false) && l'.book == (if ok then Relist(mid, user, ips) else mid);
      }
    case _ =>
  }

  // ---------- A new user ----------

  /** A user with a row has an earliest one. */
  lemma SomeFirst(b: Book, k: Key) returns (first: Key)
    requires Orderly(b) && k in b.marks
    ensures IsFirst(b, first) && first.0 == k.0
  {
    var mine := set x | x in Table(b) && x.user == k.0;
    assert RowAt(b, k) in mine;
    var e := SomeEarliest(Table(b), mine);
    first :| first in b.marks && e == RowAt(b, first);
    forall j | j in b.marks && j.0 == first.0 && j != first
      ensures b.marks[first].created < b.marks[j].created
    {
      assert RowAt(b, j) in mine;
    }
  }

  /**
   A user that has just been created is let in from exactly the blocks of the request, or, without an
   allow-list, from every IPv4 address.
   */
  lemma CreatedUserAnswers(l: Ledger, user: string, dbs: seq<string>, level: Level, ips: seq<string>, l': Ledger, client: H.Address)
    requires Exact(l.cluster) && Bound(l) && Orderly(l.book) && CleanBook(l.book) && CleanList(ips)
    requires LedgerStep(l, CreateUser(user, dbs, level), ips, l', true) && Managed(user) && H.WellFormed(client)
    ensures ips != [] ==> Answers(l'.book, user, client, if H.SomeAdmits(ips, client) then H.Scram else H.Reject)
    ensures ips == [] && client.V4? ==> Answers(l'.book, user, client, H.Scram)
  {
    var list := if ips == [] then OPEN else ips;
    CreateUserEffect(l.cluster, user, dbs, level);
    BookStepOrderly(l.book, CreateUser(user, dbs, level), ips, l'.book, true);
    OpenIsClean();
    EnteredClean(l.book, l'.book, user, list, false);
    assert forall n :: (user, n) in l.cluster.rows ==> Reachable(l.cluster, user, n);
    assert dbs[0] in dbs && (user, dbs[0]) in l'.cluster.rows;
    var first := SomeFirst(l'.book, (user, dbs[0]));
    assert l'.book.marks[first].ips == list;
    FirstDecides(l'.book, first, client);
    if client.V4? { OpenLetsV4In(client); }
  }

  datatype Posting = Posting(request: Request, ips: seq<string>, after: Ledger)

  /** A run of successful requests, each meeting its condition of KeepsExact. */
  ghost predicate IsPostingRun(l: Ledger, postings: seq<Posting>)
    decreases |postings|
  {
    postings == [] ||
    var p := postings[0];
    && LedgerStep(l, p.request, p.ips, p.after, true)
    && KeepsExact(l.cluster, p.request)
    && IsPostingRun(p.after, postings[1..])
  }

  ghost predicate InOrder(l: Ledger) {
    Exact(l.cluster) && Bound(l) && Orderly(l.book) && forall u :: OneList(l.book, u)
  }

  lemma PostingStep(l: Ledger, p: Posting)
    requires InOrder(l) && LedgerStep(l, p.request, p.ips, p.after, true) && KeepsExact(l.cluster, p.request)
    ensures InOrder(p.after)
  {
    ExactStep(l.cluster, p.request, p.after.cluster);
    BookStepOrderly(l.book, p.request, p.ips, p.after.book, true);
    forall u
      ensures OneList(p.after.book, u)
    {
      assert OneList(l.book, u);
      OneListStep(l, p.request, p.ips, p.after, u);
    }
  }

  function Final(l: Ledger, postings: seq<Posting>): Ledger {
    if postings == [] then l else postings[|postings| - 1].after
  }

  lemma FinalAfterFirst(l: Ledger, postings: seq<Posting>)
    requires postings != []
    ensures Final(postings[0].after, postings[1..]) == Final(l, postings)
  {
  }

  /** So what RemovalKeepsAnswersByOrigin asks of the ledger holds after every such run. */
  lemma {:induction false} RunsStayInOrder(l: Ledger, postings: seq<Posting>)
    requires InOrder(l) && IsPostingRun(l, postings)
    ensures InOrder(Final(l, postings))
    decreases |postings|
  {
    if postings != [] {
      PostingStep(l, postings[0]);
      FinalAfterFirst(l, postings);
      RunsStayInOrder(postings[0].after, postings[1..]);
    }
  }

  // ---------- A client let in by removing a database ----------

  const BLANK_BOOK := Book(map[], 0, {})

  function Created(c: Cluster, user: string, a: string, level: Level): Cluster {
    WithRow(Grant(c.(roles := c.roles + {user}), user, a, level), user, a, level)
  }

  function Added(c: Cluster, user: string, b: string, level: Level): Cluster {
    WithRow(Grant(c, user, b, level), user, b, level)
  }

  lemma CreateIsStep(c: Cluster, user: string, a: string, level: Level)
    requires CreateOk(user, [a], level) && user !in c.roles && a in c.databases && (user, a) !in c.rows
    ensures Step(c, CreateUser(user, [a], level), Created(c, user, a, level), true)
  {
    var withRole := c.(roles := c.roles + {user});
    assert [a][0] == a && [a][1..] == [];
    assert CreateEach(withRole, user, [a], level) == (Created(c, user, a, level), true);
  }

  lemma AddIsStep(c: Cluster, user: string, a: string, b: string, level: Level)
    requires b !in PROTECTED && b != "" && Reachable(c, user, b) && (user, b) !in c.rows
    requires (user, a) in c.rows && c.rows[(user, a)] == level
    ensures Step(c, AddUserDatabase(user, b), Added(c, user, b, level), true)
  {
    assert a in RowsOf(c, user);
    assert IsCurrent(c, user, level);
  }

  /** The three books of the run: one row, two rows, and the second alone. */
  function Page(user: string, a: string, ips: seq<string>): Book {
    Enter(BLANK_BOOK, (user, a), ips, false)
  }

  function SecondPage(user: string, a: string, b: string, ips: seq<string>): Book {
    Enter(Page(user, a, ips), (user, b), OPEN, true)
  }

  function LastPage(user: string, a: string, b: string, ips: seq<string>): Book {
    var before := SecondPage(user, a, b, ips);
    Book(before.marks - {(user, a)}, before.clock, before.bare - {(user, a)})
  }

  lemma PageFirst(user: string, a: string, b: string, ips: seq<string>)
    requires a != b
    ensures IsFirst(Page(user, a, ips), (user, a)) && IsFirst(SecondPage(user, a, b, ips), (user, a))
    ensures IsFirst(LastPage(user, a, b, ips), (user, b))
  {
  }

  lemma PagesFollow(user: string, a: string, b: string, ips: seq<string>)
    requires a != b
    ensures Entered(BLANK_BOOK, Page(user, a, ips), user, ips, false)
    ensures Entered(Page(user, a, ips), SecondPage(user, a, b, ips), user, OPEN, true)
    ensures Kept(SecondPage(user, a, b, ips), LastPage(user, a, b, ips))
  {
  }

  lemma SmallBookClean(b: Book, user: string)
    requires ValidName(user)
    requires forall k :: k in b.marks ==> k.0 == user && forall i :: 0 <= i < |b.marks[k].ips| ==> H.CleanEntry(b.marks[k].ips[i])
    ensures CleanBook(b)
  {
    forall x | x in Table(b)
      ensures H.CleanRow(H.RowOf(x))
    {
      var k :| k in b.marks && x == RowAt(b, k);
    }
  }

  lemma OpenLetsV4In(client: H.Address)
    requires H.WellFormed(client) && client.V4?
    ensures H.SomeAdmits(OPEN, client)
  {
    H.AnyBlocks(client);
    TrimIdle(H.ANY_V4);
    assert H.Admits(OPEN[0], client);
  }

  lemma FirstServed(c: Cluster, user: string, a: string, b: string, level: Level, ips: seq<string>)
    requires c.rows == map[] && CreateOk(user, [a], level) && user !in c.roles && ips != [] && a in c.databases && a != b
    ensures LedgerStep(Ledger(c, BLANK_BOOK), CreateUser(user, [a], level), ips,
                       Ledger(Created(c, user, a, level), Page(user, a, ips)), true)
    ensures Created(c, user, a, level).rows == map[(user, a) := level]
  {
    CreateIsStep(c, user, a, level);
    PagesFollow(user, a, b, ips);
  }

  lemma TwoRows(c: Cluster, user: string, a: string, b: string, level: Level)
    requires c.rows == map[(user, a) := level]
    ensures Added(c, user, b, level).rows.Keys == {(user, a), (user, b)}
  {
  }

  lemma PageKeys(user: string, a: string, b: string, ips: seq<string>)
    requires a != b
    ensures Page(user, a, ips).marks.Keys == {(user, a)}
    ensures SecondPage(user, a, b, ips).marks.Keys == {(user, a), (user, b)}
    ensures LastPage(user, a, b, ips).marks.Keys == {(user, b)}
  {
  }

  lemma SecondServed(c: Cluster, user: string, a: string, b: string, level: Level, ips: seq<string>)
    requires c.rows == map[(user, a) := level] && Reachable(c, user, b) && a != b && b != "" && b !in PROTECTED
    ensures LedgerStep(Ledger(c, Page(user, a, ips)), AddUserDatabase(user, b), [],
                       Ledger(Added(c, user, b, level), SecondPage(user, a, b, ips)), true)
    ensures Added(c, user, b, level).rows.Keys == {(user, a), (user, b)}
  {
    AddIsStep(c, user, a, b, level);
    PagesFollow(user, a, b, ips);
    TwoRows(c, user, a, b, level);
    PageKeys(user, a, b, ips);
  }

  lemma ThirdServed(c: Cluster, user: string, a: string, b: string, ips: seq<string>)
    requires c.rows.Keys == {(user, a), (user, b)} && a != b && a != "" && user != ""
    ensures LedgerStep(Ledger(c, SecondPage(user, a, b, ips)), RemoveUserDatabase(user, a), [],
                       Ledger(RemoveDatabaseRun(c, user, a), LastPage(user, a, b, ips)), true)
  {
    LastRowKeys(c, user, a, b);
    PagesFollow(user, a, b, ips);
    PageKeys(user, a, b, ips);
  }

  lemma LastRowKeys(c: Cluster, user: string, a: string, b: string)
    requires c.rows.Keys == {(user, a), (user, b)} && a != b
    ensures RemoveDatabaseRun(c, user, a).rows.Keys == {(user, b)}
  {
    RemovalRows(c, user, a);
  }

  lemma PagesClean(user: string, a: string, b: string, ips: seq<string>)
    requires ValidName(user) && forall i :: 0 <= i < |ips| ==> H.CleanEntry(ips[i])
    requires H.CleanEntry(OPEN[0])
    ensures CleanBook(Page(user, a, ips)) && CleanBook(SecondPage(user, a, b, ips)) && CleanBook(LastPage(user, a, b, ips))
  {
    SmallBookClean(Page(user, a, ips), user);
    SmallBookClean(SecondPage(user, a, b, ips), user);
    SmallBookClean(LastPage(user, a, b, ips), user);
  }

  lemma PagesOrderly(user: string, a: string, b: string, ips: seq<string>)
    requires a != b
    ensures Orderly(SecondPage(user, a, b, ips))
  {
    PagesFollow(user, a, b, ips);
    EnteredOrderly(BLANK_BOOK, Page(user, a, ips), user, ips, false);
    EnteredOrderly(Page(user, a, ips), SecondPage(user, a, b, ips), user, OPEN, true);
  }

  lemma PagesOneList(user: string, a: string, b: string, ips: seq<string>)
    requires a != b
    ensures OneList(SecondPage(user, a, b, ips), user)
  {
    PagesFollow(user, a, b, ips);
    EnteredOneList(BLANK_BOOK, Page(user, a, ips), user, ips, false, user);
    EnteredOneList(Page(user, a, ips), SecondPage(user, a, b, ips), user, OPEN, true, user);
  }

  lemma PagesInOrder(user: string, a: string, b: string, ips: seq<string>)
    requires a != b && ValidName(user) && forall i :: 0 <= i < |ips| ==> H.CleanEntry(ips[i])
    ensures Orderly(SecondPage(user, a, b, ips)) && OneList(SecondPage(user, a, b, ips), user)
    ensures CleanBook(SecondPage(user, a, b, ips))
    ensures IsFirst(SecondPage(user, a, b, ips), (user, a)) && IsFirst(LastPage(user, a, b, ips), (user, b))
  {
    PagesOrderly(user, a, b, ips);
    PagesOneList(user, a, b, ips);
    OpenIsClean();
    PagesClean(user, a, b, ips);
    PageFirst(user, a, b, ips);
  }

  lemma PagesAnswer(user: string, a: string, b: string, ips: seq<string>, client: H.Address)
    requires a != b && ValidName(user) && Managed(user) && forall i :: 0 <= i < |ips| ==> H.CleanEntry(ips[i])
    requires H.WellFormed(client) && client.V4? && !H.SomeAdmits(ips, client)
    ensures Answers(Page(user, a, ips), user, client, H.Reject)
    ensures Answers(SecondPage(user, a, b, ips), user, client, H.Reject)
    ensures Answers(LastPage(user, a, b, ips), user, client, H.Scram)
  {
    PageFirst(user, a, b, ips);
    OpenLetsV4In(client);
    OpenIsClean();
    PagesClean(user, a, b, ips);
    PageMarks(user, a, b, ips);
    FirstDecides(Page(user, a, ips), (user, a), client);
    FirstDecides(SecondPage(user, a, b, ips), (user, a), client);
    FirstDecides(LastPage(user, a, b, ips), (user, b), client);
  }

  lemma PageMarks(user: string, a: string, b: string, ips: seq<string>)
    requires a != b
    ensures Page(user, a, ips).marks[(user, a)].ips == ips == SecondPage(user, a, b, ips).marks[(user, a)].ips
    ensures (user, b) in LastPage(user, a, b, ips).marks && LastPage(user, a, b, ips).marks[(user, b)].ips == OPEN
  {
  }

  /**
   Creating a user with an allow-list, adding a database and removing the first one, all of it served,
   lets in every IPv4 client the list kept out up to the last step.
   */
  lemma AllowListLost(c: Cluster, user: string, a: string, b: string, level: Level, ips: seq<string>, client: H.Address)
    returns (l1: Ledger, l2: Ledger, l3: Ledger)
    requires c.rows == map[] && CreateOk(user, [a], level) && user !in c.roles && Managed(user)
    requires a in c.databases && b in c.databases && a != b && a != "" && b != "" && b !in PROTECTED
    requires ips != [] && (forall i :: 0 <= i < |ips| ==> H.CleanEntry(ips[i]))
    requires H.WellFormed(client) && client.V4? && !H.SomeAdmits(ips, client)
    ensures LedgerStep(Ledger(c, BLANK_BOOK), CreateUser(user, [a], level), ips, l1, true)
    ensures LedgerStep(l1, AddUserDatabase(user, b), [], l2, true)
    ensures LedgerStep(l2, RemoveUserDatabase(user, a), [], l3, true)
    ensures Answers(l1.book, user, client, H.Reject) && Answers(l2.book, user, client, H.Reject)
    ensures Answers(l3.book, user, client, H.Scram)
    ensures Ordinary(l2, (user, a), l3, (user, b))
  {
    PagesInOrder(user, a, b, ips);
    var c1 := Created(c, user, a, level);
    var c2 := Added(c1, user, b, level);
    FirstServed(c, user, a, b, level, ips);
    SecondServed(c1, user, a, b, level, ips);
    ThirdServed(c2, user, a, b, ips);
    PagesAnswer(user, a, b, ips, client);
    l1 := Ledger(c1, Page(user, a, ips));
    l2 := Ledger(c2, SecondPage(user, a, b, ips));
    l3 := Ledger(RemoveDatabaseRun(c2, user, a), LastPage(user, a, b, ips));
  }

  const SHOPS := INITIAL.(databases := INITIAL.databases["shop" := BLANK]["crm" := BLANK])
  const OFFICE := ["10" + "." + "1" + "." + "2" + "." + "3"]
  const VISITOR := H.V4(0x0808_0808)

  lemma OfficeOctets()
    ensures H.ParseOctet("10") == Some(10) && H.ParseOctet("1") == Some(1)
    ensures H.ParseOctet("2") == Some(2) && H.ParseOctet("3") == Some(3)
  {
    assert "10"[..1] == "1" && H.ParseNat("10") == Some(10);
  }

  lemma QuadReads(a: string, b: string, c: string, d: string, w: nat, x: nat, y: nat, z: nat)
    requires '.' !in a && '.' !in b && '.' !in c && '.' !in d
    requires H.ParseOctet(a) == Some(w) && H.ParseOctet(b) == Some(x) && H.ParseOctet(c) == Some(y) && H.ParseOctet(d) == Some(z)
    ensures H.ParseV4(a + "." + b + "." + c + "." + d) == Some(H.V4(((w * 256 + x) * 256 + y) * 256 + z))
  {
    H.SplitQuad(a, b, c, d);
  }

  lemma OfficeAddress()
    ensures H.ParseAddress(OFFICE[0]) == Some(H.V4(0x0A01_0203))
  {
    OfficeOctets();
    QuadReads("10", "1", "2", "3", 10, 1, 2, 3);
    assert ':' !in OFFICE[0];
  }

  lemma OfficeIsClean()
    ensures Trim(OFFICE[0]) == OFFICE[0] && H.CleanEntry(OFFICE[0]) && '/' !in OFFICE[0] && OFFICE[0] != ""
  {
    TrimIdle(OFFICE[0]);
  }

  lemma OneEntryOnly(entry: string, client: H.Address)
    ensures H.SomeAdmits([entry], client) <==> H.Admits(entry, client)
  {
    if H.Admits(entry, client) { assert H.Admits([entry][0], client); }
  }

  lemma VisitorIsKeptOut()
    ensures H.CleanEntry(OFFICE[0]) && H.WellFormed(VISITOR) && !H.SomeAdmits(OFFICE, VISITOR)
  {
    OfficeAddress();
    OfficeIsClean();
    H.Pow2Sixteen();
    H.PlainEntryIsOneAddressIff(OFFICE[0], H.V4(0x0A01_0203));
    OneEntryOnly(OFFICE[0], VISITOR);
  }

  /** One such run: the visitor at 8.8.8.8 is rejected twice and then let in. */
  lemma VisitorLetIn() returns (l1: Ledger, l2: Ledger, l3: Ledger)
    ensures LedgerStep(Ledger(SHOPS, BLANK_BOOK), CreateUser("ann", ["shop"], Read), OFFICE, l1, true)
    ensures LedgerStep(l1, AddUserDatabase("ann", "crm"), [], l2, true)
    ensures LedgerStep(l2, RemoveUserDatabase("ann", "shop"), [], l3, true)
    ensures Answers(l1.book, "ann", VISITOR, H.Reject) && Answers(l2.book, "ann", VISITOR, H.Reject)
    ensures Answers(l3.book, "ann", VISITOR, H.Scram)
    ensures Ordinary(l2, ("ann", "shop"), l3, ("ann", "crm"))
  {
    VisitorIsKeptOut();
    NamesAreFine();
    l1, l2, l3 := AllowListLost(SHOPS, "ann", "shop", "crm", Read, OFFICE, VISITOR);
  }

  lemma NamesAreFine()
    ensures CreateOk("ann", ["shop"], Read) && "ann" !in SHOPS.roles && Managed("ann")
    ensures "shop" != "crm" && "crm" !in PROTECTED
  {
    assert ["shop"][0] == "shop";
    assert |"ann"| == 3 && |"shop"| == 4 && |"crm"| == 3;
  }
}
