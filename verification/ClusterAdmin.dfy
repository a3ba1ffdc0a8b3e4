/**
 The request handlers as code: statements over mutable tables, one at a time.
 Every method is proved equal to the corresponding run of module Clusters.
 */
module ClusterAdmin {
  import opened Prelude
  import opened Text
  import opened Privileges
  import opened ClusterRuns
  import opened Ledgers
  import C = Clusters

  // ---------- Statement sequences ----------

  lemma GrantingTwice(acl: Acl, user: string, p: set<Privilege>, q: set<Privilege>)
    ensures Granting(Granting(acl, user, p), user, q) == Granting(acl, user, p + q)
    ensures Granting(acl, user, {}) == acl
  {
    var r := Granting(Granting(acl, user, p), user, q);
    assert forall g :: g in r <==> (g.0, g.1) in r;
    assert forall g :: g in Granting(acl, user, p + q) <==> (g.0, g.1) in Granting(acl, user, p + q);
    assert forall g :: g in Granting(acl, user, {}) <==> (g.0, g.1) in Granting(acl, user, {});
  }

  lemma GrantNothing(acls: map<string, Acl>, user: string)
    ensures GrantAll(acls, user, {}) == acls
  {
    forall t | t in acls
      ensures GrantAll(acls, user, {})[t] == acls[t]
    {
      GrantingTwice(acls[t], user, {}, {});
    }
  }

  /** What a level's statements add up to. */
  ghost function SumOf(level: Level, d: Database, user: string): Database {
    match level
    case Read => d.(
      self := Granting(d.self, user, {Connect}),
      schema := Granting(d.schema, user, {Usage}),
      tables := GrantAll(d.tables, user, {Select}),
      futureTables := Granting(d.futureTables, user, {Select}))
    case Write => Entitle(d, user, RightsOf(Write))
    case Ddl => Entitle(d, user, RightsOf(Ddl)).(
      self := Granting(Granting(d.self, user, {Connect}), user, {Create}),
      schema := Granting(Granting(d.schema, user, {Usage}), user, {Usage, Create}))
    case Full => Entitle(d, user, RightsOf(Full)).(
      self := Granting(Granting(d.self, user, {Connect}), user, ALL_ON_DATABASE),
      schema := Granting(Granting(d.schema, user, {Usage}), user, ALL_ON_SCHEMA))
    case Invalid => d.(
      self := Granting(d.self, user, {Connect}),
      schema := Granting(d.schema, user, {Usage}))
  }

  lemma EntitleIs(d: Database, e: Database, user: string, level: Level)
    requires e == SumOf(level, d, user)
    ensures e == Entitle(d, user, RightsOf(level))
  {
    match level
    case Read =>
      GrantNothing(d.sequences, user);
      GrantingTwice(d.futureSequences, user, {}, {});
    case Write =>
    case Ddl =>
      GrantingTwice(d.self, user, {Connect}, {Create});
      GrantingTwice(d.schema, user, {Usage}, {Usage, Create});
      assert {Connect} + {Create} == {Connect, Create} && {Usage} + {Usage, Create} == {Usage, Create};
    case Full =>
      GrantingTwice(d.self, user, {Connect}, ALL_ON_DATABASE);
      GrantingTwice(d.schema, user, {Usage}, ALL_ON_SCHEMA);
      assert {Connect} + ALL_ON_DATABASE == ALL_ON_DATABASE && {Usage} + ALL_ON_SCHEMA == ALL_ON_SCHEMA;
    case Invalid =>
      GrantNothing(d.tables, user);
      GrantNothing(d.sequences, user);
      GrantingTwice(d.futureTables, user, {}, {});
      GrantingTwice(d.futureSequences, user, {}, {});
  }

  lemma WithoutTwice(acl: Acl, user: string)
    ensures Without(Without(acl, user), user) == Without(acl, user)
  {
  }

  lemma StripTwice(d: Database, user: string)
    ensures Strip(Strip(d, user), user) == Strip(d, user)
    ensures Strip(d.(self := Without(d.self, user)), user) == Strip(d, user)
  {
    WithoutTwice(d.self, user);
    WithoutTwice(d.schema, user);
    WithoutTwice(d.futureTables, user);
    WithoutTwice(d.futureSequences, user);
    forall t | t in d.tables { WithoutTwice(d.tables[t], user); }
    forall q | q in d.sequences { WithoutTwice(d.sequences[q], user); }
    assert RevokeAll(RevokeAll(d.tables, user), user) == RevokeAll(d.tables, user);
    assert RevokeAll(RevokeAll(d.sequences, user), user) == RevokeAll(d.sequences, user);
  }

  /** Dropping what a role owns database by database is dropping it in all of them. */
  lemma DropOwnedMore(c: C.Cluster, user: string, names: set<string>, name: string)
    ensures C.DropOwned(C.DropOwned(c, user, names), user, {name}) == C.DropOwned(c, user, names + {name})
  {
    if user in c.roles && !C.Pinned(user) && name in c.databases {
      DropOwnedHere(c, user, names, name);
    } else {
      var once := C.DropOwned(c, user, names);
      var both := C.DropOwned(c, user, names + {name});
      if user in c.roles && !C.Pinned(user) {
        assert forall n :: n in c.databases ==> (n in names + {name} <==> n in names);
        assert (names + {name} !! c.databases.Keys) <==> (names !! c.databases.Keys);
        assert once.databases == both.databases;
      }
    }
  }

  lemma DropOwnedTwice(d: Database, user: string, first: bool, second: bool)
    ensures C.DropOwnedAt(C.DropOwnedAt(d, user, first), user, second) == C.DropOwnedAt(d, user, first || second)
  {
    StripTwice(d, user);
    WithoutTwice(d.self, user);
  }

  lemma DropOwnedShape(c: C.Cluster, user: string, names: set<string>)
    requires user in c.roles && !C.Pinned(user)
    ensures var c' := C.DropOwned(c, user, names);
            && c'.databases.Keys == c.databases.Keys && c' == c.(databases := c'.databases)
            && forall n :: n in c.databases ==>
                 c'.databases[n] ==
                 if names !! c.databases.Keys then c.databases[n] else C.DropOwnedAt(c.databases[n], user, n in names)
  {
  }

  lemma DropOwnedHere(c: C.Cluster, user: string, names: set<string>, name: string)
    requires user in c.roles && !C.Pinned(user) && name in c.databases
    ensures C.DropOwned(C.DropOwned(c, user, names), user, {name}) == C.DropOwned(c, user, names + {name})
  {
    var once := C.DropOwned(c, user, names);
    var twice := C.DropOwned(once, user, {name});
    var both := C.DropOwned(c, user, names + {name});
    DropOwnedShape(c, user, names);
    DropOwnedShape(once, user, {name});
    DropOwnedShape(c, user, names + {name});
    assert name in (names + {name}) * c.databases.Keys;
    assert name in {name} * once.databases.Keys;
    forall n | n in c.databases
      ensures twice.databases[n] == both.databases[n]
    {
      if names !! c.databases.Keys {
        assert n !in names;
      } else {
        DropOwnedTwice(c.databases[n], user, n in names, n in {name});
      }
    }
    assert twice.databases == both.databases;
  }

  predicate HoldsNothing(d: Database, user: string) {
    && (forall g | g in d.self :: g.0 != user)
    && (forall g | g in d.schema :: g.0 != user)
    && (forall t | t in d.tables :: forall g | g in d.tables[t] :: g.0 != user)
    && (forall q | q in d.sequences :: forall g | g in d.sequences[q] :: g.0 != user)
    && (forall g | g in d.futureTables :: g.0 != user)
    && (forall g | g in d.futureSequences :: g.0 != user)
  }

  lemma NobodyIn(acl: Acl, user: string)
    ensures HoldsOn(acl, user, {}) <==> forall g | g in acl :: g.0 != user
  {
    if HoldsOn(acl, user, {}) {
      forall g | g in acl
        ensures g.0 != user
      {
        assert g == (g.0, g.1);
      }
    }
  }

  lemma HoldsNothingIs(d: Database, user: string)
    ensures HoldsNothing(d, user) <==> Holds(d, user, NO_RIGHTS)
  {
    NobodyIn(d.self, user);
    NobodyIn(d.schema, user);
    NobodyIn(d.futureTables, user);
    NobodyIn(d.futureSequences, user);
    forall t | t in d.tables { NobodyIn(d.tables[t], user); }
    forall q | q in d.sequences { NobodyIn(d.sequences[q], user); }
  }

  // ---------- Loops over an order chosen as they go ----------

  lemma {:induction false} RevokeEachAppend(c: C.Cluster, user: string, first: seq<string>, rest: seq<string>)
    requires C.RevokeEach(c, user, first).1
    ensures C.RevokeEach(c, user, first + rest) == C.RevokeEach(C.RevokeEach(c, user, first).0, user, rest)
    decreases |first|
  {
    if first == [] {
      assert first + rest == rest;
    } else {
      assert (first + rest)[1..] == first[1..] + rest;
      RevokeEachAppend(C.WithoutRows(C.Revoke(c, user, first[0]), user, {first[0]}), user, first[1..], rest);
    }
  }

  lemma {:induction false} GrantEachAppend(c: C.Cluster, user: string, first: seq<string>, rest: seq<string>, level: Level)
    requires C.GrantEach(c, user, first, level).1
    ensures C.GrantEach(c, user, first + rest, level) == C.GrantEach(C.GrantEach(c, user, first, level).0, user, rest, level)
    decreases |first|
  {
    if first == [] {
      assert first + rest == rest;
    } else {
      assert (first + rest)[1..] == first[1..] + rest;
      var granted := C.Grant(c, user, first[0], level);
      GrantEachAppend(if level == Invalid then granted else C.WithRow(granted, user, first[0], level), user, first[1..], rest, level);
    }
  }

  lemma {:induction false} RelevelEachAppend(c: C.Cluster, user: string, first: seq<string>, rest: seq<string>, level: Level)
    requires C.RelevelEach(c, user, first, level).1
    ensures C.RelevelEach(c, user, first + rest, level) == C.RelevelEach(C.RelevelEach(c, user, first, level).0, user, rest, level)
    decreases |first|
  {
    if first == [] {
      assert first + rest == rest;
    } else {
      assert (first + rest)[1..] == first[1..] + rest;
      RelevelEachAppend(C.Grant(C.Revoke(c, user, first[0]), user, first[0], level), user, first[1..], rest, level);
    }
  }

  lemma RevokeOneMore(c: C.Cluster, user: string, done: seq<string>, db: string, mid: C.Cluster)
    requires C.RevokeEach(c, user, done) == (mid, true) && C.Reachable(mid, user, db)
    ensures C.RevokeEach(c, user, done + [db]) == (C.WithoutRows(C.Revoke(mid, user, db), user, {db}), true)
  {
    RevokeEachAppend(c, user, done, [db]);
    assert [db][1..] == [];
  }

  lemma RevokeStops(c: C.Cluster, user: string, done: seq<string>, db: string, todo: set<string>, names: set<string>, mid: C.Cluster)
    returns (order: seq<string>)
    requires C.RevokeEach(c, user, done) == (mid, true) && !C.Reachable(mid, user, db)
    requires Enumerates(done, names - todo) && todo <= names && db in todo
    ensures Enumerates(order, names) && C.RevokeEach(c, user, order) == (C.Revoke(mid, user, db), false)
  {
    var rest;
    order, rest := Complete(done + [db], todo - {db}, names);
    RevokeEachAppend(c, user, done, [db] + rest);
    assert done + ([db] + rest) == order;
  }

  lemma GrantOneMore(c: C.Cluster, user: string, done: seq<string>, db: string, mid: C.Cluster, level: Level)
    requires C.GrantEach(c, user, done, level) == (mid, true) && C.Reachable(mid, user, db)
    ensures C.GrantEach(c, user, done + [db], level) == (if level == Invalid then C.Grant(mid, user, db, level) else C.WithRow(C.Grant(mid, user, db, level), user, db, level), true)
  {
    GrantEachAppend(c, user, done, [db], level);
    assert [db][1..] == [];
  }

  lemma GrantStops(c: C.Cluster, user: string, done: seq<string>, db: string, todo: set<string>, names: set<string>, mid: C.Cluster, level: Level)
    returns (order: seq<string>)
    requires C.GrantEach(c, user, done, level) == (mid, true) && !C.Reachable(mid, user, db)
    requires Enumerates(done, names - todo) && todo <= names && db in todo
    ensures Enumerates(order, names) && C.GrantEach(c, user, order, level) == (C.Grant(mid, user, db, level), false)
  {
    var rest;
    order, rest := Complete(done + [db], todo - {db}, names);
    GrantEachAppend(c, user, done, [db] + rest, level);
    assert done + ([db] + rest) == order;
  }

  lemma RelevelOneMore(c: C.Cluster, user: string, done: seq<string>, db: string, mid: C.Cluster, level: Level)
    requires C.RelevelEach(c, user, done, level) == (mid, true) && C.Reachable(mid, user, db)
    ensures C.RelevelEach(c, user, done + [db], level) == (C.Grant(C.Revoke(mid, user, db), user, db, level), true)
  {
    RelevelEachAppend(c, user, done, [db], level);
    assert [db][1..] == [];
  }

  lemma RelevelStops(c: C.Cluster, user: string, done: seq<string>, db: string, todo: set<string>, names: set<string>, mid: C.Cluster, level: Level)
    returns (order: seq<string>)
    requires C.RelevelEach(c, user, done, level) == (mid, true) && !C.Reachable(mid, user, db)
    requires Enumerates(done, names - todo) && todo <= names && db in todo
    ensures Enumerates(order, names) && C.RelevelEach(c, user, order, level) == (C.Revoke(mid, user, db), false)
  {
    var rest;
    order, rest := Complete(done + [db], todo - {db}, names);
    RelevelEachAppend(c, user, done, [db] + rest, level);
    assert done + ([db] + rest) == order;
  }

  lemma DropOwnedNext(c: C.Cluster, user: string, done: set<string>, db: string)
    ensures C.DropOwned(C.DropOwned(c, user, done - {C.NO_CONNECTIONS}), user, {db} - {C.NO_CONNECTIONS}) ==
            C.DropOwned(c, user, done + {db} - {C.NO_CONNECTIONS})
  {
    var names := done - {C.NO_CONNECTIONS};
    if db == C.NO_CONNECTIONS {
      assert {db} - {C.NO_CONNECTIONS} == {} && done + {db} - {C.NO_CONNECTIONS} == names;
    } else {
      assert {db} - {C.NO_CONNECTIONS} == {db} && done + {db} - {C.NO_CONNECTIONS} == names + {db};
      DropOwnedMore(c, user, names, db);
    }
  }

  lemma SomeLevel(c: C.Cluster, user: string) returns (level: Level)
    ensures C.IsCurrent(c, user, level)
  {
    if n :| n in C.RowsOf(c, user) { level := c.rows[(user, n)]; } else { level := Write; }
  }

  lemma SomeList(b: Book, user: string) returns (ips: seq<string>, defaulted: bool)
    ensures IsCurrentList(b, user, ips, defaulted)
  {
    if n :| (user, n) in b.marks { ips, defaulted := b.marks[(user, n)].ips, (user, n) in b.bare; } else { ips, defaulted := OPEN, true; }
  }

  /** An update refused for want of the role is a step that changes nothing. */
  lemma NoUpdate(c: C.Cluster, b: Book, user: string, list: Option<seq<string>>, access: Option<Level>, ips: seq<string>)
    requires user !in c.roles && b.bare <= b.marks.Keys
    ensures C.Step(c, C.UpdateUser(user, list, access), c, false)
    ensures BookStep(b, C.UpdateUser(user, list, access), ips, b, false)
  {
    var current := SomeLevel(c, user);
    var sch := SomeSchedule(c, user, list, access, current);
    var allowed, defaulted := SomeList(b, user);
    assert Entered(b, b, user, allowed, defaulted) && Entered(b, b, user, ips, false);
  }

  lemma RemovalIsStep(c: C.Cluster, user: string, db: string)
    requires user != "" && db != ""
    ensures C.Step(c, C.RemoveUserDatabase(user, db), C.RemoveDatabaseRun(c, user, db), true)
  {
  }

  lemma BookUpdated(b: Book, user: string, ips: seq<string>, list: seq<string>, defaulted: bool, mid: Book, b': Book, ok: bool)
    requires Entered(b, mid, user, list, defaulted)
    requires if ips == [] then IsCurrentList(b, user, list, defaulted) && b' == mid
             else list == ips && !defaulted && b' == if ok then Relist(mid, user, ips) else mid
    ensures UpdateBook(b, user, ips, b', ok)
  {
  }

  /** The loop of a creation is its first database and then the rest. */
  lemma CreateEachFirst(c: C.Cluster, user: string, dbs: seq<string>, level: Level)
    requires dbs != []
    ensures var (mid, ok) := C.CreateEach(c, user, [dbs[0]], level);
            C.CreateEach(c, user, dbs, level) == if ok then C.CreateEach(mid, user, dbs[1..], level) else (mid, false)
  {
    assert [dbs[0]][1..] == [];
  }

  /** The two halves of an update make one step. */
  lemma HalvesAreStep(c: C.Cluster, user: string, list: Option<seq<string>>, access: Option<Level>, current: Level,
                      halfway: C.Schedule, mid: C.Cluster, half: bool, sch: C.Schedule, c': C.Cluster, ok: bool)
    requires user in c.roles && C.IsCurrent(c, user, current) && sch == halfway.(releveled := sch.releveled)
    requires halfway.current == current && (mid, half) == C.UpdateList(c, user, list, access, halfway)
    requires list.Some? ==>
               && Enumerates(halfway.revoked, C.RowsOf(c, user) - C.ToSet(list.value))
               && Enumerates(halfway.granted, C.ToSet(list.value) - C.RowsOf(c, user))
    requires Enumerates(sch.releveled, C.RowsOf(mid, user))
    requires (c', ok) == if half && access.Some? then C.UpdateLevel(mid, user, access.value, sch) else (mid, half)
    ensures C.Step(c, C.UpdateUser(user, list, access), c', ok)
  {
    assert C.UpdateList(c, user, list, access, sch) == (mid, half);
    assert C.Scheduled(c, user, list, access, sch);
    assert (c', ok) == C.UpdateUserRun(c, user, list, access, sch);
  }

  /** core.ValidPassword */
  predicate ValidPassword(p: string) {
    8 <= |p| <= 72 && WordOrHyphen(p)
  }

  class UserAdmin {
    var roles: set<string>
    var databases: map<string, Database>
    var rows: map<(string, string), Level>
    var listed: map<string, bool>
    var passwords: map<string, string>
    var marks: map<Key, Mark>
    var clock: nat
    ghost var bare: set<Key>

    function Snapshot(): C.Cluster
      reads this
    {
      C.Cluster(roles, databases, rows, listed)
    }

    ghost function Records(): Book
      reads this
    {
      Book(marks, clock, bare)
    }

    /** Every row of the table has all its columns, and a level that passes the CHECK. */
    ghost predicate Valid()
      reads this
    {
      rows.Keys == marks.Keys && bare <= marks.Keys && forall k :: k in rows ==> rows[k] != Invalid
    }

    constructor (l: Ledger)
      requires Bound(l) && l.book.bare <= l.book.marks.Keys
      requires forall k :: k in l.cluster.rows ==> l.cluster.rows[k] != Invalid
      ensures Snapshot() == l.cluster && Records() == l.book && Valid()
    {
      roles, databases, rows, listed := l.cluster.roles, l.cluster.databases, l.cluster.rows, l.cluster.listed;
      marks, clock, bare := l.book.marks, l.book.clock, l.book.bare;
      passwords := map[];
    }

    // ---------- Statements ----------

    /** DROP OWNED BY over a connection to `db`; errors are only logged. */
    method DropOwnedStatement(user: string, db: string)
      modifies this`databases
      ensures Snapshot() == C.DropOwned(old(Snapshot()), user, {db} - {C.NO_CONNECTIONS})
    {
      if user in roles && !C.Pinned(user) && db in databases && db != C.NO_CONNECTIONS {
        databases := map n | n in databases ::
          C.DropOwnedAt(databases[n], user, n == db);
      }
    }

    method DropRoleStatement(user: string)
      modifies this`roles
      ensures Snapshot() == C.DropRole(old(Snapshot()), user)
    {
      forall n | n in databases { HoldsNothingIs(databases[n], user); }
      if !C.Pinned(user) && forall n | n in databases :: HoldsNothing(databases[n], user) {
        roles := roles - {user};
      }
    }

    method SelectDatabases(user: string) returns (names: set<string>)
      ensures names == C.RowsOf(Snapshot(), user)
    {
      names := C.RowsOf(Snapshot(), user);
    }

    method DeleteRows(user: string, names: set<string>)
      requires Valid()
      modifies this`rows, this`marks, this`bare
      ensures Valid() && Kept(old(Records()), Records())
      ensures Snapshot() == C.WithoutRows(old(Snapshot()), user, names)
    {
      EraseKept(Records(), user, names);
      rows := map k | k in rows && !(k.0 == user && k.1 in names) :: rows[k];
      marks := map k | k in marks && !(k.0 == user && k.1 in names) :: marks[k];
      bare := set k | k in bare && !(k.0 == user && k.1 in names);
    }

    method InsertRow(user: string, db: string, level: Level, ips: seq<string>, ghost defaulted: bool)
      requires Valid() && (user, db) !in rows && level != Invalid
      modifies this`rows, this`marks, this`clock, this`bare
      ensures Valid() && Records() == Enter(old(Records()), (user, db), ips, defaulted)
      ensures Snapshot() == C.WithRow(old(Snapshot()), user, db, level)
    {
      rows := rows[(user, db) := level];
      marks := marks[(user, db) := Mark(ips, clock)];
      clock := clock + 1;
      bare := if defaulted then bare + {(user, db)} else bare - {(user, db)};
    }

    // ---------- access.go ----------

    /** On a missing role or database no statement runs; on template0 only the first does. */
    method GrantAccess(user: string, db: string, level: Level) returns (ok: bool)
      modifies this`databases
      ensures ok == C.Reachable(old(Snapshot()), user, db)
      ensures Snapshot() == C.Grant(old(Snapshot()), user, db, level)
      ensures ok && Can(old(databases)[db], user, {}, {}, {}, {}) ==> CanDo(databases[db], user, level)
    {
      if user !in roles || db !in databases { return false; }
      var d := databases[db];
      d := GrantOn(d, OnDatabase, user, {Connect});
      if db == C.NO_CONNECTIONS {
        databases := databases[db := d];
        return false;
      }
      d := GrantOn(d, OnSchema, user, {Usage});
      match level {
        case Read =>
          d := GrantOn(d, OnTables, user, {Select});
          d := GrantOn(d, OnFutureTables, user, {Select});
        case Write =>
          d := GrantOn(d, OnTables, user, {Select, Insert, Update, Delete});
          d := GrantOn(d, OnSequences, user, {Usage, Select});
          d := GrantOn(d, OnFutureTables, user, {Select, Insert, Update, Delete});
          d := GrantOn(d, OnFutureSequences, user, {Usage, Select});
        case Ddl =>
          d := GrantOn(d, OnDatabase, user, {Create});
          d := GrantOn(d, OnSchema, user, {Usage, Create});
          d := GrantOn(d, OnTables, user, {Select, Insert, Update, Delete});
          d := GrantOn(d, OnSequences, user, {Usage, Select});
          d := GrantOn(d, OnFutureTables, user, {Select, Insert, Update, Delete});
          d := GrantOn(d, OnFutureSequences, user, {Usage, Select});
        case Full =>
          d := GrantOn(d, OnDatabase, user, ALL_ON_DATABASE);
          d := GrantOn(d, OnSchema, user, ALL_ON_SCHEMA);
          d := GrantOn(d, OnTables, user, ALL_ON_TABLES);
          d := GrantOn(d, OnSequences, user, ALL_ON_SEQUENCES);
          d := GrantOn(d, OnFutureTables, user, ALL_ON_TABLES);
          d := GrantOn(d, OnFutureSequences, user, ALL_ON_SEQUENCES);
        case Invalid =>
      }
      EntitleIs(databases[db], d, user, level);
      if Can(databases[db], user, {}, {}, {}, {}) { EntitlePermits(databases[db], user, level); }
      databases := databases[db := d];
      return true;
    }

    method RevokeAccess(user: string, db: string) returns (ok: bool)
      modifies this`databases
      ensures ok == C.Reachable(old(Snapshot()), user, db)
      ensures Snapshot() == C.Revoke(old(Snapshot()), user, db)
    {
      if user !in roles || db !in databases { return false; }
      var d := databases[db];
      d := RevokeOn(d, OnDatabase, user);
      WithoutTwice(databases[db].self, user);
      d := RevokeOn(d, OnDatabase, user);
      if db == C.NO_CONNECTIONS {
        databases := databases[db := d];
        return false;
      }
      d := RevokeOn(d, OnTables, user);
      d := RevokeOn(d, OnSequences, user);
      d := RevokeOn(d, OnSchema, user);
      d := RevokeOn(d, OnFutureTables, user);
      d := RevokeOn(d, OnFutureSequences, user);
      databases := databases[db := d];
      return true;
    }

    /** DROP OWNED in each of the databases in turn. */
    method DropOwnedEach(user: string, names: set<string>)
      modifies this`databases
      ensures Snapshot() == C.DropOwned(old(Snapshot()), user, names - {C.NO_CONNECTIONS})
    {
      var todo := names;
      ghost var done: set<string> := {};
      while todo != {}
        invariant done + todo == names && done !! todo
        invariant Snapshot() == C.DropOwned(old(Snapshot()), user, done - {C.NO_CONNECTIONS})
        decreases todo
      {
        var db :| db in todo;
        DropOwnedStatement(user, db);
        DropOwnedNext(old(Snapshot()), user, done, db);
        todo := todo - {db};
        done := done + {db};
      }
      assert done == names;
    }

    method RollbackUser(user: string)
      modifies this`databases, this`roles
      ensures Snapshot() == C.Rollback(old(Snapshot()), user)
    {
      var names := SelectDatabases(user);
      DropOwnedEach(user, names);
      DropOwnedStatement(user, C.APP);
      DropOwnedNext(old(Snapshot()), user, names, C.APP);
      assert names + {C.APP} - {C.NO_CONNECTIONS} == names - {C.NO_CONNECTIONS} + {C.APP};
      DropRoleStatement(user);
    }

    // ---------- handler.go ----------

    /** The password is checked before anything is done; `generated` is what a blank one becomes. */
    method CreateUser(user: string, dbs: seq<string>, level: Level, password: string, generated: string, ips: seq<string>)
      returns (ok: bool)
      requires Valid()
      modifies this
      ensures Valid()
      ensures password != "" && !ValidPassword(password) ==> !ok && unchanged(this)
      ensures password == "" || ValidPassword(password) ==>
                && (Snapshot(), ok) == C.CreateUserRun(old(Snapshot()), user, dbs, level)
                && BookStep(old(Records()), C.CreateUser(user, dbs, level), ips, Records(), ok)
                && (ok ==> passwords == old(passwords)[user := if password != "" then password else generated])
    {
      if !C.CreateOk(user, dbs, level) { return false; }
      if password != "" && !ValidPassword(password) { return false; }
      if user in roles { return false; }
      roles := roles + {user};
      passwords := passwords[user := if password != "" then password else generated];
      ok := GrantNew(user, dbs, level, if |ips| == 0 then OPEN else ips);
      if !ok { RollbackUser(user); }
    }

    /** One database of the loop. */
    method GrantOne(user: string, db: string, level: Level, ips: seq<string>) returns (ok: bool)
      requires Valid() && user in roles && level != Invalid
      modifies this`databases, this`rows, this`marks, this`clock, this`bare
      ensures Valid() && user in roles
      ensures Records() == if ok then Enter(old(Records()), (user, db), ips, false) else old(Records())
      ensures ok ==> (user, db) !in old(marks)
      ensures (Snapshot(), ok) == C.CreateEach(old(Snapshot()), user, [db], level)
    {
      assert [db][1..] == [];
      if db !in databases { return false; }
      var granted := GrantAccess(user, db, level);
      if !granted || (user, db) in rows { return false; }
      InsertRow(user, db, level, ips, false);
      return true;
    }

    /** The loop over the databases; any failure ends it, and the caller rolls back. */
    method GrantNew(user: string, dbs: seq<string>, level: Level, ips: seq<string>) returns (ok: bool)
      requires Valid() && user in roles && level != Invalid
      modifies this`databases, this`rows, this`marks, this`clock, this`bare
      ensures Valid() && Entered(old(Records()), Records(), user, ips, false)
      ensures (Snapshot(), ok) == C.CreateEach(old(Snapshot()), user, dbs, level)
    {
      ghost var start, book := Snapshot(), Records();
      for i := 0 to |dbs|
        invariant Valid() && Entered(book, Records(), user, ips, false) && book.marks.Keys <= marks.Keys
        invariant C.CreateEach(start, user, dbs, level) == C.CreateEach(Snapshot(), user, dbs[i..], level)
        invariant user in roles
      {
        ghost var here, before := Snapshot(), Records();
        var granted := GrantOne(user, dbs[i], level, ips);
        CreateEachFirst(here, user, dbs[i..], level);
        assert dbs[i..][1..] == dbs[i + 1..];
        if !granted { return false; }
        EnterOne(book, before, user, dbs[i], ips, false);
      }
      return true;
    }

    method RevokeFrom(user: string, names: set<string>) returns (ok: bool, ghost order: seq<string>)
      requires Valid()
      modifies this`databases, this`rows, this`marks, this`bare
      ensures Valid() && Kept(old(Records()), Records())
      ensures ok ==> forall n :: (user, n) in rows <==> (user, n) in old(rows) && n !in names
      ensures Enumerates(order, names)
      ensures (Snapshot(), ok) == C.RevokeEach(old(Snapshot()), user, order)
    {
      ghost var start, book := Snapshot(), Records();
      var todo := names;
      ghost var done: seq<string> := [];
      while todo != {}
        invariant todo <= names && Enumerates(done, names - todo)
        invariant Valid() && Kept(book, Records())
        invariant forall n :: (user, n) in rows <==> (user, n) in start.rows && n !in names - todo
        invariant C.RevokeEach(start, user, done) == (Snapshot(), true)
        decreases todo
      {
        var db :| db in todo;
        ghost var mid := Snapshot();
        var revoked := RevokeAccess(user, db);
        if !revoked {
          done := RevokeStops(start, user, done, db, todo, names, mid);
          return false, done;
        }
        DeleteRows(user, {db});
        RevokeOneMore(start, user, done, db, mid);
        done := done + [db];
        todo := todo - {db};
      }
      assert names - todo == names;
      return true, done;
    }

    /** The row of an invalid level violates the table's CHECK; the error is ignored. */
    method GrantAndRecord(user: string, db: string, level: Level, ips: seq<string>, ghost defaulted: bool) returns (ok: bool)
      requires Valid() && (user, db) !in rows
      modifies this`databases, this`rows, this`marks, this`clock, this`bare
      ensures Valid() && ok == C.Reachable(old(Snapshot()), user, db)
      ensures var granted := C.Grant(old(Snapshot()), user, db, level);
              Snapshot() == if ok && level != Invalid then C.WithRow(granted, user, db, level) else granted
      ensures Records() == if ok && level != Invalid then Enter(old(Records()), (user, db), ips, defaulted) else old(Records())
    {
      ok := GrantAccess(user, db, level);
      if ok && level != Invalid { InsertRow(user, db, level, ips, defaulted); }
    }

    /** Where the loop of GrantTo is after these databases. */
    ghost predicate Granted(start: C.Cluster, book: Book, user: string, done: seq<string>, level: Level, ips: seq<string>, defaulted: bool)
      reads this
    {
      && Valid() && Entered(book, Records(), user, ips, defaulted)
      && (forall k :: k in marks && k !in book.marks ==> k.1 in done)
      && C.GrantEach(start, user, done, level) == (Snapshot(), true)
    }

    method GrantNext(user: string, db: string, level: Level, ips: seq<string>,
                     ghost start: C.Cluster, ghost book: Book, ghost done: seq<string>, ghost defaulted: bool) returns (ok: bool)
      requires Granted(start, book, user, done, level, ips, defaulted) && (user, db) !in book.marks && (user, db) !in rows
      modifies this`databases, this`rows, this`marks, this`clock, this`bare
      ensures ok == C.Reachable(old(Snapshot()), user, db)
      ensures ok ==> Granted(start, book, user, done + [db], level, ips, defaulted)
      ensures !ok ==> Snapshot() == C.Grant(old(Snapshot()), user, db, level) && Valid() && Records() == old(Records())
    {
      ghost var mid, before := Snapshot(), Records();
      ok := GrantAndRecord(user, db, level, ips, defaulted);
      if ok {
        GrantOneMore(start, user, done, db, mid, level);
        if level != Invalid { EnterOne(book, before, user, db, ips, defaulted); }
      }
    }

    method GrantTo(user: string, names: set<string>, level: Level, ips: seq<string>, ghost defaulted: bool)
      returns (ok: bool, ghost order: seq<string>)
      requires Valid() && forall n :: n in names ==> (user, n) !in rows
      modifies this`databases, this`rows, this`marks, this`clock, this`bare
      ensures Valid() && Entered(old(Records()), Records(), user, ips, defaulted)
      ensures forall k :: k in marks && k !in old(marks) ==> k.1 in names
      ensures Enumerates(order, names)
      ensures (Snapshot(), ok) == C.GrantEach(old(Snapshot()), user, order, level)
    {
      ghost var start, book := Snapshot(), Records();
      var todo := names;
      ghost var done: seq<string> := [];
      while todo != {}
        invariant todo <= names && Enumerates(done, names - todo)
        invariant Granted(start, book, user, done, level, ips, defaulted)
        decreases todo
      {
        var db :| db in todo;
        ghost var mid := Snapshot();
        assert db !in done && (user, db) !in book.marks;
        var granted := GrantNext(user, db, level, ips, start, book, done, defaulted);
        if !granted {
          done := GrantStops(start, user, done, db, todo, names, mid, level);
          return false, done;
        }
        done := done + [db];
        todo := todo - {db};
      }
      assert names - todo == names;
      return true, done;
    }

    method RelevelOn(user: string, names: set<string>, level: Level) returns (ok: bool, ghost order: seq<string>)
      modifies this`databases
      ensures Enumerates(order, names)
      ensures (Snapshot(), ok) == C.RelevelEach(old(Snapshot()), user, order, level)
    {
      ghost var start := Snapshot();
      var todo := names;
      ghost var done: seq<string> := [];
      while todo != {}
        invariant todo <= names && Enumerates(done, names - todo)
        invariant C.RelevelEach(start, user, done, level) == (Snapshot(), true)
        decreases todo
      {
        var db :| db in todo;
        ghost var mid := Snapshot();
        ok := RevokeAccess(user, db);
        if !ok {
          done := RelevelStops(start, user, done, db, todo, names, mid, level);
          return false, done;
        }
        ok := GrantAccess(user, db, level);
        RelevelOneMore(start, user, done, db, mid, level);
        done := done + [db];
        todo := todo - {db};
      }
      assert names - todo == names;
      return true, done;
    }

    /** SELECT access, allowed_ips ... LIMIT 1, with "write" and the open list when there is no row. */
    method SelectCurrent(user: string) returns (level: Level, ips: seq<string>, ghost defaulted: bool)
      requires Valid()
      ensures C.IsCurrent(Snapshot(), user, level) && IsCurrentList(Records(), user, ips, defaulted)
    {
      var names := C.RowsOf(Snapshot(), user);
      if names == {} {
        level, ips, defaulted := Write, OPEN, true;
        assert forall n :: n !in names;
      } else {
        var n :| n in names;
        assert (user, n) in marks;
        level, ips, defaulted := rows[(user, n)], marks[(user, n)].ips, (user, n) in bare;
      }
    }

    /** A bad password is refused before anything is done; a good one is set even if the rest fails. */
    method UpdateUser(user: string, list: Option<seq<string>>, access: Option<Level>,
                      generate: bool, generated: string, password: string, ips: seq<string>) returns (ok: bool)
      requires Valid()
      modifies this
      ensures Valid()
      ensures !generate && password != "" && !ValidPassword(password) ==> !ok && unchanged(this)
      ensures generate || password == "" || ValidPassword(password) ==>
                && C.Step(old(Snapshot()), C.UpdateUser(user, list, access), Snapshot(), ok)
                && BookStep(old(Records()), C.UpdateUser(user, list, access), ips, Records(), ok)
                && passwords == if user !in old(roles) || (!generate && password == "") then old(passwords)
                                else old(passwords)[user := if generate then generated else password]
    {
      ghost var start, book := Snapshot(), Records();
      if user !in roles {
        NoUpdate(start, book, user, list, access, ips);
        return false;
      }
      if !generate && password != "" && !ValidPassword(password) { return false; }
      if generate || password != "" {
        passwords := passwords[user := if generate then generated else password];
      }
      ok := Reconcile(user, list, access, ips);
    }

    /** The level and the allow-list that new rows get: what the request says, or the current ones. */
    method ChooseWritten(user: string, access: Option<Level>, ips: seq<string>)
      returns (level: Level, allowed: seq<string>, ghost current: Level, ghost defaulted: bool)
      requires Valid()
      ensures C.IsCurrent(Snapshot(), user, current) && level == if access.Some? then access.value else current
      ensures if ips == [] then IsCurrentList(Records(), user, allowed, defaulted) else allowed == ips && !defaulted
    {
      level, allowed, defaulted := SelectCurrent(user);
      current := level;
      if access.Some? { level := access.value; }
      if |ips| > 0 {
        allowed := ips;
        defaulted := false;
      }
    }

    /** Rows, grants and allow-lists brought in line with the request. */
    method Reconcile(user: string, list: Option<seq<string>>, access: Option<Level>, ips: seq<string>) returns (ok: bool)
      requires Valid() && user in roles
      modifies this`databases, this`rows, this`marks, this`clock, this`bare
      ensures Valid()
      ensures C.Step(old(Snapshot()), C.UpdateUser(user, list, access), Snapshot(), ok)
      ensures UpdateBook(old(Records()), user, ips, Records(), ok)
    {
      ghost var book := Records();
      var level, allowed, current, defaulted := ChooseWritten(user, access, ips);
      ok := ReconcileRows(user, list, access, level, allowed, current, defaulted);
      ghost var entered, end := Records(), Snapshot();
      if ok && |ips| > 0 { SetLists(user, ips); }
      assert Snapshot() == end;
      BookUpdated(book, user, ips, allowed, defaulted, entered, Records(), ok);
    }

    method ReconcileRows(user: string, list: Option<seq<string>>, access: Option<Level>, level: Level, allowed: seq<string>,
                         ghost current: Level, ghost defaulted: bool) returns (ok: bool)
      requires Valid() && user in roles && C.IsCurrent(Snapshot(), user, current)
      requires level == if access.Some? then access.value else current
      modifies this`databases, this`rows, this`marks, this`clock, this`bare
      ensures Valid() && Entered(old(Records()), Records(), user, allowed, defaulted)
      ensures C.Step(old(Snapshot()), C.UpdateUser(user, list, access), Snapshot(), ok)
    {
      ghost var start := Snapshot();
      ghost var sch := C.Schedule(current, [], [], []);
      ok := true;
      if list.Some? {
        ok, sch := UpdateToList(user, list.value, level, allowed, current, defaulted);
      }
      ghost var mid, half, halfway := Snapshot(), ok, sch;
      assert (mid, half) == C.UpdateList(start, user, list, access, halfway);
      ok, sch := UpdateLevels(user, access, ok, halfway);
      HalvesAreStep(start, user, list, access, current, halfway, mid, half, sch, Snapshot(), ok);
    }

    method SetLists(user: string, ips: seq<string>)
      requires Valid()
      modifies this`marks, this`bare
      ensures Valid() && Records() == Relist(old(Records()), user, ips)
    {
      marks := map k | k in marks :: if k.0 == user then marks[k].(ips := ips) else marks[k];
      bare := set k | k in bare && k.0 != user;
    }

    /** The second half of the update: the new level, if one was given and the first half went through. */
    method UpdateLevels(user: string, access: Option<Level>, before: bool, ghost halfway: C.Schedule)
      returns (ok: bool, ghost sch: C.Schedule)
      requires Valid()
      modifies this`databases, this`rows
      ensures Valid() && sch == halfway.(releveled := sch.releveled)
      ensures Enumerates(sch.releveled, C.RowsOf(old(Snapshot()), user))
      ensures (Snapshot(), ok) == if before && access.Some? then C.UpdateLevel(old(Snapshot()), user, access.value, sch)
                                  else (old(Snapshot()), before)
    {
      ghost var order, rest := Complete([], C.RowsOf(Snapshot(), user), C.RowsOf(Snapshot(), user));
      ok := before;
      if ok && access.Some? {
        if access.value == Invalid {
          ok := false;
        } else {
          var names := SelectDatabases(user);
          ok, order := RelevelOn(user, names, access.value);
          if ok {
            rows := map k | k in rows :: if k.0 == user then access.value else rows[k];
          }
        }
      }
      sch := halfway.(releveled := order);
    }

    method UpdateToList(user: string, list: seq<string>, level: Level, ips: seq<string>,
                        ghost current: Level, ghost defaulted: bool)
      returns (ok: bool, ghost sch: C.Schedule)
      requires Valid()
      modifies this`databases, this`rows, this`marks, this`clock, this`bare
      ensures Valid() && Entered(old(Records()), Records(), user, ips, defaulted)
      ensures sch.current == current
      ensures Enumerates(sch.revoked, C.RowsOf(old(Snapshot()), user) - C.ToSet(list))
      ensures Enumerates(sch.granted, C.ToSet(list) - C.RowsOf(old(Snapshot()), user))
      ensures (Snapshot(), ok) == C.UpdateDatabases(old(Snapshot()), user, level, sch)
    {
      var existing := SelectDatabases(user);
      var requested := C.ToSet(list);
      ghost var revoked, granted, rest;
      ok, revoked := RevokeFrom(user, existing - requested);
      ghost var mid := Records();
      if ok {
        ok, granted := GrantTo(user, requested - existing, level, ips, defaulted);
        EnterAfterRemoval(old(Records()), mid, Records(), user, ips, defaulted);
      } else {
        granted, rest := Complete([], requested - existing, requested - existing);
      }
      sch := C.Schedule(current, revoked, granted, []);
    }

    method AddUserDatabase(user: string, db: string) returns (ok: bool)
      requires Valid()
      modifies this`databases, this`rows, this`marks, this`clock, this`bare
      ensures Valid()
      ensures C.Step(old(Snapshot()), C.AddUserDatabase(user, db), Snapshot(), ok)
      ensures BookStep(old(Records()), C.AddUserDatabase(user, db), [], Records(), ok)
    {
      if db == "" || db in C.PROTECTED { return false; }
      if user !in roles || db !in databases { return false; }
      if (user, db) in rows { return false; }
      var names := SelectDatabases(user);
      if names == {} { return false; }
      var level, _, _ := SelectCurrent(user);
      ok := GrantAndAdd(user, db, level);
    }

    /** AddUserDatabase names no addresses, so the row gets the column default. */
    method GrantAndAdd(user: string, db: string, level: Level) returns (ok: bool)
      requires Valid() && C.Reachable(Snapshot(), user, db) && (user, db) !in rows && level != Invalid
      modifies this`databases, this`rows, this`marks, this`clock, this`bare
      ensures Valid() && ok
      ensures Snapshot() == C.WithRow(C.Grant(old(Snapshot()), user, db, level), user, db, level)
      ensures Entered(old(Records()), Records(), user, OPEN, true)
    {
      ghost var before := Records();
      ok := GrantAndRecord(user, db, level, OPEN, true);
      assert Entered(before, before, user, OPEN, true);
      EnterOne(before, before, user, db, OPEN, true);
    }

    method RemoveUserDatabase(user: string, db: string) returns (ok: bool)
      requires Valid()
      modifies this`databases, this`roles, this`rows, this`marks, this`bare
      ensures Valid()
      ensures C.Step(old(Snapshot()), C.RemoveUserDatabase(user, db), Snapshot(), ok)
      ensures BookStep(old(Records()), C.RemoveUserDatabase(user, db), [], Records(), ok)
    {
      if user == "" || db == "" { return false; }
      RemovalIsStep(Snapshot(), user, db);
      Withdraw(user, db);
      return true;
    }

    method Withdraw(user: string, db: string)
      requires Valid()
      modifies this`databases, this`roles, this`rows, this`marks, this`bare
      ensures Valid() && Kept(old(Records()), Records())
      ensures Snapshot() == C.RemoveDatabaseRun(old(Snapshot()), user, db)
    {
      DeleteRows(user, {db});
      var revoked := RevokeAccess(user, db);
      var remaining := SelectDatabases(user);
      if remaining == {} {
        DropOwnedStatement(user, C.APP);
        assert {C.APP} - {C.NO_CONNECTIONS} == {C.APP};
        DropRoleStatement(user);
      }
    }

    method DeleteUser(user: string) returns (ok: bool)
      requires Valid()
      modifies this`databases, this`roles, this`rows, this`marks, this`bare
      ensures Valid()
      ensures C.Step(old(Snapshot()), C.DeleteUser(user), Snapshot(), ok)
      ensures BookStep(old(Records()), C.DeleteUser(user), [], Records(), ok)
    {
      if user == "" { return false; }
      var names := SelectDatabases(user);
      DropOwnedEach(user, names);
      DropRoleStatement(user);
      DeleteRows(user, names);
      return true;
    }

    // ---------- databases/handler.go ----------

    method CreateDatabase(name: string) returns (ok: bool)
      requires C.TEMPLATE in databases
      modifies this`databases, this`listed
      ensures C.Step(old(Snapshot()), C.CreateDatabase(name), Snapshot(), ok)
    {
      if |name| == 0 || |name| > 63 || !ValidName(name) || name in C.PROTECTED { return false; }
      if name in databases { return false; }
      databases := databases[name := databases[C.TEMPLATE].(self := {})];
      if name !in listed { listed := listed[name := true]; }
      return true;
    }

    method DeleteDatabase(name: string) returns (ok: bool)
      modifies this`databases, this`listed
      ensures C.Step(old(Snapshot()), C.DeleteDatabase(name), Snapshot(), ok)
    {
      if name == "" || name in C.PROTECTED || name !in databases { return false; }
      databases := databases - {name};
      listed := listed - {name};
      return true;
    }

    method TogglePgBouncerDatabase(name: string, allowed: bool) returns (ok: bool)
      modifies this`listed
      ensures C.Step(old(Snapshot()), C.ToggleDatabase(name, allowed), Snapshot(), ok)
      ensures ok <==> ValidName(name) && name in old(listed)
      ensures listed == if ok then old(listed)[name := allowed] else old(listed)
    {
      if !ValidName(name) || name !in listed { return false; }
      listed := listed[name := allowed];
      return true;
    }
  }
}
