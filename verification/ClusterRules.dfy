/**
 The user and database requests told from outside: when each is served, what the served ones add up
 to, and that nobody else's access changes.
 */
module ClusterRules {
  import opened Prelude
  import opened Text
  import opened Privileges
  import opened Clusters
  import opened ClusterRuns
  import opened ClusterSafety
  import opened ClusterExactness
  import LevelMeanings

  // ---------- When a request is served ----------

  predicate IsSystem(db: string) {
    db in {"template0", "template1", "postgres", "pgmanager"}
  }

  lemma CreateUserServedIff(c: Cluster, user: string, dbs: seq<string>, level: Level, c': Cluster, ok: bool)
    requires Step(c, CreateUser(user, dbs, level), c', ok)
    ensures ok <==>
            && |user| <= 63 && ValidName(user) && !HasPrefix(user, "pg_") && user != "public" && user != "none"
            && user !in c.roles && level != Invalid
            && dbs != [] && (forall i, j :: 0 <= i < j < |dbs| ==> dbs[i] != dbs[j])
            && (forall n :: n in dbs ==> !IsSystem(n) && n in c.databases && (user, n) !in c.rows)
  {
    CreateUserEffect(c, user, dbs, level);
    assert forall i :: 0 <= i < |dbs| ==> dbs[i] in dbs;
  }

  /** The databases an update has to connect to: those that change, and with a level all that stay as well. */
  predicate Visits(c: Cluster, user: string, list: Option<seq<string>>, access: Option<Level>, n: string) {
    var wanted := if list.Some? then n in list.value else (user, n) in c.rows;
    (wanted != ((user, n) in c.rows)) || (wanted && access.Some?)
  }

  lemma UpdateUserServedIff(c: Cluster, user: string, list: Option<seq<string>>, access: Option<Level>, c': Cluster, ok: bool)
    requires Sound(c) && Step(c, UpdateUser(user, list, access), c', ok)
    ensures ok <==>
            && user in c.roles && access != Some(Invalid)
            && forall n :: Visits(c, user, list, access, n) ==> n in c.databases && n != "template0"
  {
    if user in c.roles {
      GrantableDecides(c, user, list, access, c', ok);
      if access != Some(Invalid) { VisitsAre(c, user, list, access); }
    }
  }

  lemma GrantableDecides(c: Cluster, user: string, list: Option<seq<string>>, access: Option<Level>, c': Cluster, ok: bool)
    requires Sound(c) && user in c.roles && Step(c, UpdateUser(user, list, access), c', ok)
    ensures ok <==> Grantable(c, user, list, access)
  {
    var sch :| Scheduled(c, user, list, access, sch) && (c', ok) == UpdateUserRun(c, user, list, access, sch);
    UpdateUserEffect(c, user, list, access, sch);
  }

  lemma VisitsAre(c: Cluster, user: string, list: Option<seq<string>>, access: Option<Level>)
    requires user in c.roles && access != Some(Invalid)
    ensures Grantable(c, user, list, access) <==>
            forall n :: Visits(c, user, list, access, n) ==> n in c.databases && n != "template0"
  {
    var wanted := Requested(c, user, list);
    assert forall n :: n in wanted <==> if list.Some? then n in list.value else (user, n) in c.rows;
    var touched := (RowsOf(c, user) - wanted) + (wanted - RowsOf(c, user));
    assert forall n :: Visits(c, user, list, access, n) <==> n in touched || (n in wanted && access.Some?);
    assert forall n :: Reachable(c, user, n) <==> n in c.databases && n != "template0";
  }

  lemma OtherUserRequestsServedIff(c: Cluster, user: string, db: string, c': Cluster, ok: bool)
    ensures Step(c, AddUserDatabase(user, db), c', ok) ==>
              (ok <==> db != "" && !IsSystem(db) && user in c.roles && db in c.databases
                       && (user, db) !in c.rows && exists n :: (user, n) in c.rows)
    ensures Step(c, RemoveUserDatabase(user, db), c', ok) ==> (ok <==> user != "" && db != "")
    ensures Step(c, DeleteUser(user), c', ok) ==> (ok <==> user != "")
  {
    assert RowsOf(c, user) == {} <==> forall n :: (user, n) !in c.rows;
  }

  lemma DatabaseRequestsServedIff(c: Cluster, db: string, allowed: bool, c': Cluster, ok: bool)
    ensures Step(c, CreateDatabase(db), c', ok) ==>
              (ok <==> |db| <= 63 && ValidName(db) && !IsSystem(db) && db !in c.databases && "template1" in c.databases)
    ensures Step(c, DeleteDatabase(db), c', ok) ==> (ok <==> db != "" && !IsSystem(db) && db in c.databases)
    ensures Step(c, ToggleDatabase(db, allowed), c', ok) ==> (ok <==> ValidName(db) && db in c.listed)
  {
  }

  // ---------- What the served requests add up to ----------

  /** A user as the requests tell of it; the level is that of its databases. */
  datatype Account = Account(role: bool, dbs: set<string>, level: Level)

  predicate Kept(user: string) {
    user == "pgmanager" || HasPrefix(user, "pg_")
  }

  /** What a served request makes of the user. */
  function Told(was: Account, r: Request, user: string): Account {
    match r
    case CreateUser(u, dbs, level) => if u == user then Account(true, (set n | n in dbs), level) else was
    case UpdateUser(u, list, access) =>
      if u == user then
        Account(was.role,
                if list.Some? then (set n | n in list.value) else was.dbs,
                if access.Some? then access.value else if was.dbs == {} then Write else was.level)
      else was
    case AddUserDatabase(u, db) => if u == user then was.(dbs := was.dbs + {db}) else was
    case RemoveUserDatabase(u, db) =>
      if u == user then Account(was.role && (was.dbs - {db} != {} || Kept(user)), was.dbs - {db}, was.level) else was
    case DeleteUser(u) => if u == user then Account(was.role && Kept(user), {}, was.level) else was
    case _ => was
  }

  function LatestAccount(was: Account, turns: seq<Turn>, user: string): Account
    decreases |turns|
  {
    if turns == [] then was else LatestAccount(Told(was, turns[0].request, user), turns[1..], user)
  }

  /** The role and the rows of managed_users are the account's. */
  ghost predicate Records(c: Cluster, user: string, a: Account) {
    && (user in c.roles <==> a.role)
    && (forall n :: (user, n) in c.rows <==> n in a.dbs)
    && (forall n :: n in a.dbs ==> c.rows[(user, n)] == a.level)
  }

  lemma CreateTold(c: Cluster, user: string, dbs: seq<string>, level: Level, other: string, a: Account)
    requires Exact(c) && CreateUserRun(c, user, dbs, level).1 && Records(c, other, a)
    ensures Records(CreateUserRun(c, user, dbs, level).0, other, Told(a, CreateUser(user, dbs, level), other))
  {
    CreateUserEffect(c, user, dbs, level);
    assert forall n :: (user, n) in c.rows ==> Reachable(c, user, n);
  }

  lemma UpdateTold(c: Cluster, user: string, list: Option<seq<string>>, access: Option<Level>, sch: Schedule, other: string, a: Account)
    requires Exact(c) && Scheduled(c, user, list, access, sch) && UpdateUserRun(c, user, list, access, sch).1
    requires Records(c, other, a)
    ensures Records(UpdateUserRun(c, user, list, access, sch).0, other, Told(a, UpdateUser(user, list, access), other))
  {
    UpdateUserEffect(c, user, list, access, sch);
    assert OneLevel(c, user);
    CurrentIsEvery(c, user, sch.current);
    var level := if access.Some? then access.value else sch.current;
    WithdrawRows(c, user, list, level);
    UpdatedTold(c, user, list, access, sch.current, other, a);
  }

  lemma UpdatedTold(c: Cluster, user: string, list: Option<seq<string>>, access: Option<Level>, current: Level, other: string, a: Account)
    requires user in c.roles && IsCurrent(c, user, current) && Records(c, other, a)
    requires forall n :: (user, n) in c.rows ==> c.rows[(user, n)] == current
    ensures Records(Updated(c, user, list, access, current), other, Told(a, UpdateUser(user, list, access), other))
  {
    var level := if access.Some? then access.value else current;
    WithdrawRows(c, user, list, level);
    if other == user {
      assert RowsOf(c, user) == a.dbs;
      assert a.dbs != {} ==> a.level == current;
      assert RowsOf(AfterList(c, user, list, level), user) == Requested(c, user, list);
    }
  }

  lemma AddTold(c: Cluster, user: string, db: string, c': Cluster, other: string, a: Account)
    requires Exact(c) && AddDatabaseRun(c, user, db, c', true) && Records(c, other, a)
    ensures Records(c', other, Told(a, AddUserDatabase(user, db), other))
  {
    var level :| IsCurrent(c, user, level) && c' == WithRow(Grant(c, user, db, level), user, db, level);
    assert OneLevel(c, user);
    CurrentIsEvery(c, user, level);
    if other == user {
      var n :| n in RowsOf(c, user);
      assert a.level == c.rows[(user, n)] == level;
    }
  }

  lemma RevokedRows(c: Cluster, user: string, db: string)
    ensures var mid := Revoke(WithoutRows(c, user, {db}), user, db);
            && mid.roles == c.roles && RowsOf(mid, user) == RowsOf(c, user) - {db}
            && (forall u, n :: (u, n) in mid.rows <==> (u, n) in c.rows && (u != user || n != db))
            && (forall k :: k in mid.rows ==> mid.rows[k] == c.rows[k])
  {
  }

  lemma DroppedRows(c: Cluster, user: string)
    ensures var c' := DropRole(DropOwned(c, user, {APP}), user);
            c'.rows == c.rows && forall u :: u != user ==> (u in c'.roles <==> u in c.roles)
  {
  }

  lemma RemovedRows(c: Cluster, user: string, db: string)
    ensures var c' := RemoveDatabaseRun(c, user, db);
            && (forall u, n :: (u, n) in c'.rows <==> (u, n) in c.rows && (u != user || n != db))
            && (forall k :: k in c'.rows ==> c'.rows[k] == c.rows[k])
            && (forall u :: u != user ==> (u in c'.roles <==> u in c.roles))
            && (RowsOf(c, user) - {db} != {} ==> c'.roles == c.roles)
  {
    RevokedRows(c, user, db);
    DroppedRows(Revoke(WithoutRows(c, user, {db}), user, db), user);
  }

  lemma RemoveTold(c: Cluster, user: string, db: string, other: string, a: Account)
    requires Exact(c) && Records(c, other, a)
    ensures Records(RemoveDatabaseRun(c, user, db), other, Told(a, RemoveUserDatabase(user, db), other))
  {
    RemovedRows(c, user, db);
    if other == user { RemovedRole(c, user, db, a); }
  }

  lemma RemovedRole(c: Cluster, user: string, db: string, a: Account)
    requires Exact(c) && Records(c, user, a)
    ensures user in RemoveDatabaseRun(c, user, db).roles <==> a.role && (a.dbs - {db} != {} || Kept(user))
  {
    assert RowsOf(c, user) == a.dbs;
    if a.dbs - {db} == {} {
      MatchedIsCovered(c);
      RemoveDatabaseCovered(c, user, db);
    } else {
      RemovedRows(c, user, db);
    }
  }

  lemma DeleteTold(c: Cluster, user: string, other: string, a: Account)
    requires Exact(c) && (Pinned(user) ==> RowsOf(c, user) == {}) && Records(c, other, a)
    ensures Records(DeleteUserRun(c, user), other, Told(a, DeleteUser(user), other))
  {
    DeletedOthers(c, user);
    if other == user {
      MatchedIsCovered(c);
      BareIff(c, user);
      DeleteUserCovered(c, user);
      assert forall n :: (user, n) in DeleteUserRun(c, user).rows <==> n in RowsOf(DeleteUserRun(c, user), user);
    }
  }

  lemma DeletedOthers(c: Cluster, user: string)
    ensures var c' := DeleteUserRun(c, user);
            && (forall u, n :: u != user ==> ((u, n) in c'.rows <==> (u, n) in c.rows))
            && (forall k :: k in c'.rows ==> c'.rows[k] == c.rows[k])
            && (forall u :: u != user ==> (u in c'.roles <==> u in c.roles))
  {
  }

  /** One served request changes a user's role, rows and level exactly as it says. */
  lemma ToldStep(c: Cluster, r: Request, c': Cluster, user: string, a: Account)
    requires Exact(c) && Step(c, r, c', true) && KeepsExact(c, r) && Records(c, user, a)
    ensures Records(c', user, Told(a, r, user))
  {
    match r
    case CreateUser(u, dbs, level) => CreateTold(c, u, dbs, level, user, a);
    case UpdateUser(u, list, access) =>
      var sch :| Scheduled(c, u, list, access, sch) && (c', true) == UpdateUserRun(c, u, list, access, sch);
      UpdateTold(c, u, list, access, sch, user, a);
    case AddUserDatabase(u, db) => AddTold(c, u, db, c', user, a);
    case RemoveUserDatabase(u, db) => RemoveTold(c, u, db, user, a);
    case DeleteUser(u) => DeleteTold(c, u, user, a);
    case _ =>
  }

  /** In every run of successful requests each user's role, rows and level are what the requests tell. */
  lemma {:induction false} RecordsFollowRequests(c: Cluster, turns: seq<Turn>, user: string, a: Account)
    requires Exact(c) && IsRun(c, turns) && ExactRun(c, turns) && Records(c, user, a)
    ensures Records(End(c, turns), user, LatestAccount(a, turns, user))
    decreases |turns|
  {
    if turns != [] {
      ToldStep(c, turns[0].request, turns[0].after, user, a);
      ExactStep(c, turns[0].request, turns[0].after);
      EndAfterFirst(c, turns);
      RecordsFollowRequests(turns[0].after, turns[1..], user, Told(a, turns[0].request, user));
    }
  }

  /**
   From a fresh server, after any run of successful requests: a user can do in a database exactly what its
   latest level is for if its databases include it, and nothing otherwise.
   */
  lemma UsersCanDoWhatRequestsSay(turns: seq<Turn>, user: string, db: string)
    requires IsRun(INITIAL, turns) && ExactRun(INITIAL, turns) && db in End(INITIAL, turns).databases
    ensures var a := LatestAccount(Account(user in {"pgmanager", "pgbouncer_auth"}, {}, Write), turns, user);
            if db in a.dbs then CanDo(End(INITIAL, turns).databases[db], user, a.level)
            else Can(End(INITIAL, turns).databases[db], user, {}, {}, {}, {})
  {
    InitialIsExact();
    RecordsFollowRequests(INITIAL, turns, user, Account(user in {"pgmanager", "pgbouncer_auth"}, {}, Write));
    LevelMeanings.RowsPermit(INITIAL, turns, user, db);
  }

  // ---------- Nobody else ----------

  /** At most the user's own role, rows and holdings differ; databases and listings are the same. */
  ghost predicate Spares(c: Cluster, c': Cluster, user: string) {
    && c'.databases.Keys == c.databases.Keys && c'.listed == c.listed
    && (forall u :: u != user ==> (u in c'.roles <==> u in c.roles))
    && (forall u, n :: u != user ==> ((u, n) in c'.rows <==> (u, n) in c.rows))
    && (forall u, n :: u != user && (u, n) in c.rows ==> c'.rows[(u, n)] == c.rows[(u, n)])
    && (forall u, n :: u != user && n in c.databases ==> SameHoldings(c.databases[n], c'.databases[n], u))
  }

  lemma SparesTwice(a: Cluster, b: Cluster, c: Cluster, user: string)
    requires Spares(a, b, user) && Spares(b, c, user)
    ensures Spares(a, c, user)
  {
    forall u, n | u != user && n in a.databases
      ensures SameHoldings(a.databases[n], c.databases[n], u)
    {
      assert SameHoldings(a.databases[n], b.databases[n], u) && SameHoldings(b.databases[n], c.databases[n], u);
    }
  }

  lemma GrantSpares(c: Cluster, user: string, db: string, level: Level)
    ensures Spares(c, Grant(c, user, db, level), user)
    ensures Spares(c, WithRow(Grant(c, user, db, level), user, db, level), user)
  {
    GrantTouches(c, user, db, level);
  }

  lemma RevokeSpares(c: Cluster, user: string, db: string, names: set<string>)
    ensures Spares(c, Revoke(c, user, db), user)
    ensures Spares(c, WithoutRows(Revoke(c, user, db), user, names), user)
  {
    RevokeTouches(c, user, db);
  }

  lemma WithoutRowsSpares(c: Cluster, user: string, names: set<string>)
    ensures Spares(c, WithoutRows(c, user, names), user)
  {
  }

  lemma DropSpares(c: Cluster, user: string, names: set<string>)
    ensures Spares(c, DropRole(DropOwned(c, user, names), user), user)
  {
    forall u, n | u != user && n in c.databases
      ensures SameHoldings(c.databases[n], DropOwned(c, user, names).databases[n], u)
    {
      StripHolds(c.databases[n], user, u);
    }
  }

  lemma {:induction false} CreateEachSpares(c: Cluster, user: string, dbs: seq<string>, level: Level)
    ensures Spares(c, CreateEach(c, user, dbs, level).0, user)
    decreases |dbs|
  {
    if dbs != [] {
      GrantSpares(c, user, dbs[0], level);
      if Reachable(c, user, dbs[0]) && (user, dbs[0]) !in c.rows {
        var next := WithRow(Grant(c, user, dbs[0], level), user, dbs[0], level);
        CreateEachSpares(next, user, dbs[1..], level);
        SparesTwice(c, next, CreateEach(next, user, dbs[1..], level).0, user);
      }
    }
  }

  lemma {:induction false} RevokeEachSpares(c: Cluster, user: string, order: seq<string>)
    ensures Spares(c, RevokeEach(c, user, order).0, user)
    decreases |order|
  {
    if order != [] {
      RevokeSpares(c, user, order[0], {order[0]});
      if Reachable(c, user, order[0]) {
        var next := WithoutRows(Revoke(c, user, order[0]), user, {order[0]});
        RevokeEachSpares(next, user, order[1..]);
        SparesTwice(c, next, RevokeEach(next, user, order[1..]).0, user);
      }
    }
  }

  lemma {:induction false} GrantEachSpares(c: Cluster, user: string, order: seq<string>, level: Level)
    ensures Spares(c, GrantEach(c, user, order, level).0, user)
    decreases |order|
  {
    if order != [] {
      GrantSpares(c, user, order[0], level);
      if Reachable(c, user, order[0]) {
        var granted := Grant(c, user, order[0], level);
        var next := if level == Invalid then granted else WithRow(granted, user, order[0], level);
        GrantEachSpares(next, user, order[1..], level);
        SparesTwice(c, next, GrantEach(next, user, order[1..], level).0, user);
      }
    }
  }

  lemma {:induction false} RelevelEachSpares(c: Cluster, user: string, order: seq<string>, level: Level)
    ensures Spares(c, RelevelEach(c, user, order, level).0, user)
    decreases |order|
  {
    if order != [] {
      RevokeSpares(c, user, order[0], {});
      if Reachable(c, user, order[0]) {
        var mid := Revoke(c, user, order[0]);
        var next := Grant(mid, user, order[0], level);
        GrantSpares(mid, user, order[0], level);
        SparesTwice(c, mid, next, user);
        RelevelEachSpares(next, user, order[1..], level);
        SparesTwice(c, next, RelevelEach(next, user, order[1..], level).0, user);
      }
    }
  }

  lemma CreateUserSpares(c: Cluster, user: string, dbs: seq<string>, level: Level)
    ensures Spares(c, CreateUserRun(c, user, dbs, level).0, user)
  {
    if CreateOk(user, dbs, level) && user !in c.roles {
      var withRole := c.(roles := c.roles + {user});
      assert Spares(c, withRole, user);
      var (c', ok) := CreateEach(withRole, user, dbs, level);
      CreateEachSpares(withRole, user, dbs, level);
      SparesTwice(c, withRole, c', user);
      if !ok {
        DropSpares(c', user, RowsOf(c', user) - {NO_CONNECTIONS} + {APP});
        SparesTwice(c, c', Rollback(c', user), user);
      }
    }
  }

  lemma UpdateListSpares(c: Cluster, user: string, list: Option<seq<string>>, access: Option<Level>, sch: Schedule)
    ensures Spares(c, UpdateList(c, user, list, access, sch).0, user)
  {
    if list.Some? {
      var level := if access.Some? then access.value else sch.current;
      var (mid, ok) := RevokeEach(c, user, sch.revoked);
      RevokeEachSpares(c, user, sch.revoked);
      if ok {
        GrantEachSpares(mid, user, sch.granted, level);
        SparesTwice(c, mid, GrantEach(mid, user, sch.granted, level).0, user);
      }
    }
  }

  lemma UpdateLevelSpares(c: Cluster, user: string, level: Level, sch: Schedule)
    ensures Spares(c, UpdateLevel(c, user, level, sch).0, user)
  {
    if level != Invalid {
      var (mid, ok) := RelevelEach(c, user, sch.releveled, level);
      RelevelEachSpares(c, user, sch.releveled, level);
      assert Spares(mid, SetLevels(mid, user, level), user);
      SparesTwice(c, mid, SetLevels(mid, user, level), user);
    }
  }

  lemma UpdateUserSpares(c: Cluster, user: string, list: Option<seq<string>>, access: Option<Level>, sch: Schedule)
    ensures Spares(c, UpdateUserRun(c, user, list, access, sch).0, user)
  {
    if user in c.roles {
      var (mid, ok) := UpdateList(c, user, list, access, sch);
      UpdateListSpares(c, user, list, access, sch);
      if ok && access.Some? {
        UpdateLevelSpares(mid, user, access.value, sch);
        SparesTwice(c, mid, UpdateLevel(mid, user, access.value, sch).0, user);
      }
    }
  }

  lemma RemoveSpares(c: Cluster, user: string, db: string)
    ensures Spares(c, RemoveDatabaseRun(c, user, db), user)
  {
    var bare := WithoutRows(c, user, {db});
    var mid := Revoke(bare, user, db);
    WithoutRowsSpares(c, user, {db});
    RevokeSpares(bare, user, db, {});
    SparesTwice(c, bare, mid, user);
    if RowsOf(mid, user) == {} {
      DropSpares(mid, user, {APP});
      SparesTwice(c, mid, DropRole(DropOwned(mid, user, {APP}), user), user);
    }
  }

  lemma DeleteSpares(c: Cluster, user: string)
    ensures Spares(c, DeleteUserRun(c, user), user)
  {
    var names := RowsOf(c, user) - {NO_CONNECTIONS};
    var mid := DropRole(DropOwned(c, user, names), user);
    DropSpares(c, user, names);
    WithoutRowsSpares(mid, user, RowsOf(c, user));
    SparesTwice(c, mid, WithoutRows(mid, user, RowsOf(c, user)), user);
  }

  predicate AboutUser(r: Request, user: string) {
    match r
    case CreateUser(u, _, _) => u == user
    case UpdateUser(u, _, _) => u == user
    case AddUserDatabase(u, _) => u == user
    case RemoveUserDatabase(u, _) => u == user
    case DeleteUser(u) => u == user
    case _ => false
  }

  /** A request about a user, served or failed halfway, changes nothing for anybody else. */
  lemma OthersAreSpared(c: Cluster, r: Request, user: string, c': Cluster, ok: bool)
    requires AboutUser(r, user) && Step(c, r, c', ok)
    ensures Spares(c, c', user)
  {
    match r
    case CreateUser(_, dbs, level) => CreateUserSpares(c, user, dbs, level);
    case UpdateUser(_, list, access) =>
      var sch :| Scheduled(c, user, list, access, sch) && (c', ok) == UpdateUserRun(c, user, list, access, sch);
      UpdateUserSpares(c, user, list, access, sch);
    case AddUserDatabase(_, db) =>
      if ok {
        var level :| IsCurrent(c, user, level) && c' == WithRow(Grant(c, user, db, level), user, db, level);
        GrantSpares(c, user, db, level);
      }
    case RemoveUserDatabase(_, db) => RemoveSpares(c, user, db);
    case DeleteUser(_) => DeleteSpares(c, user);
  }

  // ---------- Databases ----------

  /** A database exists exactly if it did at first or was created since, and was not dropped after that. */
  function Exists(was: bool, turns: seq<Turn>, name: string): bool
    decreases |turns|
  {
    if turns == [] then was
    else
      var t := turns[0];
      Exists(if t.ok && t.request == CreateDatabase(name) then true
             else if t.ok && t.request == DeleteDatabase(name) then false
             else was, turns[1..], name)
  }

  lemma DatabaseStep(c: Cluster, t: Turn, name: string)
    requires Step(c, t.request, t.after, t.ok)
    ensures name in t.after.databases <==>
            if t.ok && t.request == CreateDatabase(name) then true
            else if t.ok && t.request == DeleteDatabase(name) then false
            else name in c.databases
  {
    var r := t.request;
    if r.CreateUser? || r.UpdateUser? || r.AddUserDatabase? || r.RemoveUserDatabase? || r.DeleteUser? {
      OthersAreSpared(c, r, r.user, t.after, t.ok);
    }
  }

  lemma {:induction false} DatabasesFollowRequests(c: Cluster, turns: seq<Turn>, name: string)
    requires IsRun(c, turns)
    ensures name in End(c, turns).databases <==> Exists(name in c.databases, turns, name)
    decreases |turns|
  {
    if turns != [] {
      DatabaseStep(c, turns[0], name);
      EndAfterFirst(c, turns);
      DatabasesFollowRequests(turns[0].after, turns[1..], name);
    }
  }

  /** Creating or dropping a database leaves every other one, the rows and the roles alone. */
  lemma DatabaseRequestsKeepOthers(c: Cluster, name: string, other: string)
    requires other in c.databases && other != name
    ensures CreateDatabaseRun(c, name).databases[other] == c.databases[other]
    ensures other in DeleteDatabaseRun(c, name).databases && DeleteDatabaseRun(c, name).databases[other] == c.databases[other]
    ensures CreateDatabaseRun(c, name).rows == c.rows == DeleteDatabaseRun(c, name).rows
    ensures CreateDatabaseRun(c, name).roles == c.roles == DeleteDatabaseRun(c, name).roles
  {
  }
}
