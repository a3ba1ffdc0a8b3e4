/**
 Invariants over every run of user and database requests.
 */
module ClusterSafety {
  import opened Prelude
  import opened Text
  import opened Privileges
  import opened Clusters

  lemma SameHolds(d: Database, e: Database, user: string, r: Rights)
    requires SameHoldings(d, e, user) && Holds(d, user, r)
    ensures Holds(e, user, r)
  {
  }

  ghost predicate Clean(c: Cluster, user: string, db: string)
    requires db in c.databases
  {
    Holds(c.databases[db], user, NO_RIGHTS)
  }

  /** The application's role and the system databases exist, no row names template0, and the tables' CHECKs hold. */
  ghost predicate Sound(c: Cluster) {
    && APP in c.roles && APP in c.databases && TEMPLATE in c.databases
    && (forall k :: k in c.rows ==> c.rows[k] != Invalid && k.1 != NO_CONNECTIONS)
    && (forall n :: n in c.listed ==> ValidName(n))
  }

  /** Whoever holds anything in a database has a row for it, and is a role. */
  ghost predicate Covered(c: Cluster) {
    && Sound(c)
    && forall u, n :: n in c.databases && ((u, n) !in c.rows || u !in c.roles) ==> Clean(c, u, n)
  }

  // ---------- Single statements ----------

  /** Only one user's holdings in one database differ. */
  ghost predicate OnlyTouches(c: Cluster, c': Cluster, user: string, db: string) {
    && c'.databases.Keys == c.databases.Keys
    && forall u, n :: n in c.databases && (u != user || n != db) ==> SameHoldings(c.databases[n], c'.databases[n], u)
  }

  lemma GrantTouches(c: Cluster, user: string, db: string, level: Level)
    ensures OnlyTouches(c, Grant(c, user, db, level), user, db)
  {
    if Present(c, user, db) && db != NO_CONNECTIONS {
      forall u | u != user
        ensures SameHoldings(c.databases[db], Entitle(c.databases[db], user, RightsOf(level)), u)
      {
        EntitleHolds(c.databases[db], user, RightsOf(level), u);
      }
    }
  }

  lemma RevokeTouches(c: Cluster, user: string, db: string)
    ensures OnlyTouches(c, Revoke(c, user, db), user, db)
    ensures Reachable(c, user, db) ==> Clean(Revoke(c, user, db), user, db)
  {
    if Reachable(c, user, db) {
      StripHolds(c.databases[db], user, user);
      forall u | u != user
        ensures SameHoldings(c.databases[db], Strip(c.databases[db], user), u)
      {
        StripHolds(c.databases[db], user, u);
      }
    }
  }

  lemma TouchCovered(c: Cluster, c': Cluster, user: string, db: string)
    requires Covered(c) && OnlyTouches(c, c', user, db) && Sound(c') && c'.roles == c.roles
    requires forall u, n :: (u, n) in c.rows && (u != user || n != db) ==> (u, n) in c'.rows
    requires db in c'.databases && ((user, db) !in c'.rows || user !in c'.roles) ==> Clean(c', user, db)
    ensures Covered(c')
  {
    forall u, n | n in c'.databases && ((u, n) !in c'.rows || u !in c'.roles)
      ensures Clean(c', u, n)
    {
      if u != user || n != db {
        assert Clean(c, u, n);
        SameHolds(c.databases[n], c'.databases[n], u, NO_RIGHTS);
      }
    }
  }

  lemma GrantOverRow(c: Cluster, user: string, db: string, level: Level)
    requires Covered(c) && (user, db) in c.rows
    ensures Covered(Grant(c, user, db, level))
  {
    GrantTouches(c, user, db, level);
    if user !in c.roles && db in c.databases { assert Clean(c, user, db); }
    TouchCovered(c, Grant(c, user, db, level), user, db);
  }

  lemma GrantCovered(c: Cluster, user: string, db: string, level: Level)
    requires Covered(c) && db != NO_CONNECTIONS && level != Invalid
    ensures Covered(WithRow(Grant(c, user, db, level), user, db, level))
  {
    GrantTouches(c, user, db, level);
    if user !in c.roles && db in c.databases { assert Clean(c, user, db); }
    TouchCovered(c, WithRow(Grant(c, user, db, level), user, db, level), user, db);
  }

  lemma RevokeCovered(c: Cluster, user: string, db: string)
    requires Covered(c)
    ensures Covered(Revoke(c, user, db))
    ensures Covered(WithoutRows(Revoke(c, user, db), user, {db}))
    ensures Covered(Revoke(WithoutRows(c, user, {db}), user, db))
  {
    RevokeTouches(c, user, db);
    var revoked := Revoke(c, user, db);
    if Present(c, user, db) && db == NO_CONNECTIONS {
      assert Clean(c, user, db);
      OwnAccessHolds(c.databases[db], user, user);
    }
    if !Reachable(c, user, db) && db in c.databases { assert Clean(c, user, db); }
    TouchCovered(c, revoked, user, db);
    TouchCovered(c, WithoutRows(revoked, user, {db}), user, db);
    assert Revoke(WithoutRows(c, user, {db}), user, db) == WithoutRows(revoked, user, {db});
  }

  lemma RelevelCovered(c: Cluster, user: string, db: string, level: Level)
    requires Covered(c) && (user, db) in c.rows
    ensures Covered(Grant(Revoke(c, user, db), user, db, level))
  {
    RevokeCovered(c, user, db);
    GrantOverRow(Revoke(c, user, db), user, db, level);
  }

  lemma OwnAccessHolds(d: Database, user: string, other: string)
    requires Holds(d, other, NO_RIGHTS)
    ensures Holds(d.(self := Without(d.self, user)), other, NO_RIGHTS)
  {
  }

  lemma DropOwnedCovered(c: Cluster, user: string, names: set<string>)
    requires Covered(c)
    ensures Covered(DropOwned(c, user, names))
    ensures !Pinned(user) && RowsOf(c, user) * c.databases.Keys <= names && (user in c.roles ==> names * c.databases.Keys != {} || RowsOf(c, user) * c.databases.Keys == {})
            ==> Bare(DropOwned(c, user, names), user)
  {
    var c' := DropOwned(c, user, names);
    forall u, n | n in c.databases && Clean(c, u, n)
      ensures Clean(c', u, n)
    {
      if c' != c {
        if n in names {
          StripHolds(c.databases[n], user, u);
          if u != user { SameHolds(c.databases[n], c'.databases[n], u, NO_RIGHTS); }
        } else {
          OwnAccessHolds(c.databases[n], user, u);
        }
      }
    }
    if !Pinned(user) && RowsOf(c, user) * c.databases.Keys <= names && (user in c.roles ==> names * c.databases.Keys != {} || RowsOf(c, user) * c.databases.Keys == {}) {
      forall n | n in c'.databases
        ensures Holds(c'.databases[n], user, NO_RIGHTS)
      {
        if user in c.roles && n in names {
          assert n in names * c.databases.Keys;
          StripHolds(c.databases[n], user, user);
        } else {
          assert user in c.roles ==> n !in RowsOf(c, user) * c.databases.Keys;
          assert Clean(c, user, n);
          assert Clean(c', user, n);
        }
      }
    }
  }

  lemma DropRoleCovered(c: Cluster, user: string)
    requires Covered(c)
    ensures Covered(DropRole(c, user))
  {
    var c' := DropRole(c, user);
    forall u, n | n in c'.databases && ((u, n) !in c'.rows || u !in c'.roles)
      ensures Clean(c', u, n)
    {
      if u != user || !Bare(c, user) { assert Clean(c, u, n); }
    }
  }

  // ---------- Requests ----------

  lemma {:induction false} CreateEachCovered(c: Cluster, user: string, dbs: seq<string>, level: Level)
    requires Covered(c) && level != Invalid && user in c.roles
    requires forall i :: 0 <= i < |dbs| ==> dbs[i] !in PROTECTED
    ensures Covered(CreateEach(c, user, dbs, level).0)
    ensures CreateEach(c, user, dbs, level).0.roles == c.roles
    ensures forall k :: k in c.rows ==> k in CreateEach(c, user, dbs, level).0.rows
    decreases |dbs|
  {
    if dbs != [] && dbs[0] in c.databases {
      assert dbs[0] !in PROTECTED;
      if (user, dbs[0]) in c.rows {
        GrantOverRow(c, user, dbs[0], level);
      } else {
        GrantCovered(c, user, dbs[0], level);
        CreateEachCovered(WithRow(Grant(c, user, dbs[0], level), user, dbs[0], level), user, dbs[1..], level);
      }
    }
  }

  lemma RollbackClears(c: Cluster, user: string)
    requires Covered(c) && !Pinned(user)
    ensures Covered(Rollback(c, user)) && user !in Rollback(c, user).roles && Bare(Rollback(c, user), user)
    ensures Rollback(c, user).rows == c.rows
  {
    var names := RowsOf(c, user) - {NO_CONNECTIONS} + {APP};
    assert APP in names * c.databases.Keys;
    DropOwnedCovered(c, user, names);
    DropRoleCovered(DropOwned(c, user, names), user);
  }

  lemma CreateUserCovered(c: Cluster, user: string, dbs: seq<string>, level: Level)
    requires Covered(c)
    ensures Covered(CreateUserRun(c, user, dbs, level).0)
    ensures CreateOk(user, dbs, level) && user !in c.roles && !CreateUserRun(c, user, dbs, level).1 ==>
              var c' := CreateUserRun(c, user, dbs, level).0;
              user !in c'.roles && Bare(c', user)
  {
    if CreateOk(user, dbs, level) && user !in c.roles {
      var withRole := c.(roles := c.roles + {user});
      assert forall u, n :: n in c.databases ==> (Clean(withRole, u, n) <==> Clean(c, u, n));
      CreateEachCovered(withRole, user, dbs, level);
      RollbackClears(CreateEach(withRole, user, dbs, level).0, user);
    }
  }

  lemma {:induction false} RevokeEachCovered(c: Cluster, user: string, order: seq<string>)
    requires Covered(c)
    ensures Covered(RevokeEach(c, user, order).0)
    decreases |order|
  {
    if order != [] {
      RevokeCovered(c, user, order[0]);
      if Reachable(c, user, order[0]) {
        RevokeEachCovered(WithoutRows(Revoke(c, user, order[0]), user, {order[0]}), user, order[1..]);
      }
    }
  }

  lemma {:induction false} GrantEachCovered(c: Cluster, user: string, order: seq<string>, level: Level)
    requires Covered(c) && level != Invalid
    requires NO_CONNECTIONS in order ==> NO_CONNECTIONS !in c.databases
    ensures Covered(GrantEach(c, user, order, level).0)
    decreases |order|
  {
    if order != [] && Reachable(c, user, order[0]) {
      GrantCovered(c, user, order[0], level);
      GrantEachCovered(WithRow(Grant(c, user, order[0], level), user, order[0], level), user, order[1..], level);
    }
  }

  lemma {:induction false} RelevelEachCovered(c: Cluster, user: string, order: seq<string>, level: Level)
    requires Covered(c) && level != Invalid && forall n :: n in order ==> (user, n) in c.rows
    ensures Covered(RelevelEach(c, user, order, level).0)
    decreases |order|
  {
    if order != [] {
      RevokeCovered(c, user, order[0]);
      if Reachable(c, user, order[0]) {
        RelevelCovered(c, user, order[0], level);
        RelevelEachCovered(Grant(Revoke(c, user, order[0]), user, order[0], level), user, order[1..], level);
      }
    }
  }

  /** UpdateUser gets past its revocations: every database it must withdraw from exists. */
  predicate Withdraws(c: Cluster, user: string, list: seq<string>) {
    forall n :: n in RowsOf(c, user) - ToSet(list) ==> n in c.databases
  }

  /**
   The update grants nothing a row will not record: it never gets to granting, or an invalid level
   meets no database to add, or a valid one does not meet template0.
   */
  predicate Recorded(c: Cluster, user: string, list: seq<string>, access: Option<Level>) {
    || user !in c.roles
    || !Withdraws(c, user, list)
    || (if access == Some(Invalid) then forall n :: n in list && n !in RowsOf(c, user) ==> n !in c.databases
        else NO_CONNECTIONS in list ==> NO_CONNECTIONS !in c.databases)
  }

  /** Whoever would hold something in a copy of template1 already has a row for its name. */
  ghost predicate CopyRecorded(c: Cluster, name: string)
    requires TEMPLATE in c.databases
  {
    forall u :: (u, name) !in c.rows || u !in c.roles ==> Holds(Copy(c.databases[TEMPLATE]), u, NO_RIGHTS)
  }

  /** Nobody holds anything in the database but on the database itself. */
  predicate Unshared(d: Database) {
    && d.schema == {} && d.futureTables == {} && d.futureSequences == {}
    && (forall t :: t in d.tables ==> d.tables[t] == {})
    && (forall q :: q in d.sequences ==> d.sequences[q] == {})
  }

  lemma EmptyAcl(acl: Acl)
    ensures acl == {} <==> forall u :: HoldsOn(acl, u, {})
  {
    if acl != {} {
      var g :| g in acl;
      assert (g.0, g.1) in acl && !HoldsOn(acl, g.0, {});
    }
  }

  ghost predicate NobodyHoldsCopy(d: Database) {
    forall u :: Holds(Copy(d), u, NO_RIGHTS)
  }

  lemma NobodyOn(d: Database, acl: Acl)
    requires NobodyHoldsCopy(d)
    requires acl == d.schema || acl == d.futureTables || acl == d.futureSequences
             || (exists t :: t in d.tables && acl == d.tables[t]) || (exists q :: q in d.sequences && acl == d.sequences[q])
    ensures acl == {}
  {
    forall u
      ensures HoldsOn(acl, u, {})
    {
      assert Holds(Copy(d), u, NO_RIGHTS);
    }
    EmptyAcl(acl);
  }

  lemma UnsharedIff(d: Database)
    ensures Unshared(d) <==> NobodyHoldsCopy(d)
  {
    if NobodyHoldsCopy(d) {
      NobodyOn(d, d.schema);
      NobodyOn(d, d.futureTables);
      NobodyOn(d, d.futureSequences);
      forall t | t in d.tables { NobodyOn(d, d.tables[t]); }
      forall q | q in d.sequences { NobodyOn(d, d.sequences[q]); }
    }
  }

  /** For a name no row mentions the copy must come from a template1 nobody shares. */
  lemma CopyRecordedIff(c: Cluster, name: string)
    requires TEMPLATE in c.databases
    ensures Unshared(c.databases[TEMPLATE]) ==> CopyRecorded(c, name)
    ensures (forall u :: (u, name) !in c.rows) ==> (CopyRecorded(c, name) <==> Unshared(c.databases[TEMPLATE]))
  {
    UnsharedIff(c.databases[TEMPLATE]);
  }

  /**
   What a caller must check of a request.  UpdateUser must record what it grants, CreateDatabase must not
   copy access from template1, and DeleteUser must not be asked for a role that stays with its privileges.
   */
  ghost predicate Harmless(c: Cluster, r: Request) {
    match r
    case UpdateUser(user, Some(list), access) => Recorded(c, user, list, access)
    case CreateDatabase(name) => Creatable(c, name) ==> CopyRecorded(c, name)
    case DeleteUser(user) => Pinned(user) ==> Bare(c, user)
    case _ => true
  }

  lemma CurrentIsValid(c: Cluster, user: string, level: Level)
    requires Sound(c) && IsCurrent(c, user, level)
    ensures level != Invalid
  {
  }

  lemma {:induction false} RevokeEachKeeps(c: Cluster, user: string, order: seq<string>)
    ensures var c' := RevokeEach(c, user, order).0; c'.databases.Keys == c.databases.Keys && c'.roles == c.roles
    ensures RevokeEach(c, user, order).1 && user in c.roles ==> forall n :: n in order ==> n in c.databases
    decreases |order|
  {
    if order != [] && Reachable(c, user, order[0]) {
      RevokeEachKeeps(WithoutRows(Revoke(c, user, order[0]), user, {order[0]}), user, order[1..]);
    }
  }

  lemma UpdateListCovered(c: Cluster, user: string, list: Option<seq<string>>, access: Option<Level>, sch: Schedule)
    requires Covered(c) && user in c.roles && Harmless(c, UpdateUser(user, list, access)) && Scheduled(c, user, list, access, sch)
    ensures Covered(UpdateList(c, user, list, access, sch).0)
  {
    if list.Some? {
      CurrentIsValid(c, user, sch.current);
      RevokeEachCovered(c, user, sch.revoked);
      RevokeEachKeeps(c, user, sch.revoked);
      var (mid, ok) := RevokeEach(c, user, sch.revoked);
      if ok {
        assert Withdraws(c, user, list.value);
        GrantsRecorded(mid, user, sch.granted, if access.Some? then access.value else sch.current);
      }
    }
  }

  lemma GrantsRecorded(c: Cluster, user: string, order: seq<string>, level: Level)
    requires Covered(c)
    requires if level == Invalid then forall n :: n in order ==> n !in c.databases
             else NO_CONNECTIONS in order ==> NO_CONNECTIONS !in c.databases
    ensures Covered(GrantEach(c, user, order, level).0)
  {
    if level != Invalid {
      GrantEachCovered(c, user, order, level);
    } else if order != [] {
      assert order[0] in order;
    }
  }

  lemma UpdateLevelCovered(c: Cluster, user: string, level: Level, sch: Schedule)
    requires Covered(c) && Enumerates(sch.releveled, RowsOf(c, user))
    ensures Covered(UpdateLevel(c, user, level, sch).0)
  {
    if level != Invalid {
      RelevelEachCovered(c, user, sch.releveled, level);
      var c' := RelevelEach(c, user, sch.releveled, level).0;
      assert forall u, n :: n in c'.databases ==> (Clean(SetLevels(c', user, level), u, n) <==> Clean(c', u, n));
    }
  }

  lemma NoRowsBare(c: Cluster, user: string)
    requires Covered(c) && RowsOf(c, user) == {}
    ensures Bare(c, user)
  {
    forall n | n in c.databases
      ensures Holds(c.databases[n], user, NO_RIGHTS)
    {
      assert n !in RowsOf(c, user);
      assert Clean(c, user, n);
    }
  }

  lemma LastDrop(c: Cluster, user: string)
    requires Covered(c) && RowsOf(c, user) == {}
    ensures var c' := DropRole(DropOwned(c, user, {APP}), user);
            && Covered(c') && Bare(c', user) && c'.rows == c.rows && RowsOf(c', user) == {}
            && (user in c'.roles <==> user in c.roles && Pinned(user))
  {
    DropOwnedCovered(c, user, {APP});
    NoRowsBare(DropOwned(c, user, {APP}), user);
    DropRoleCovered(DropOwned(c, user, {APP}), user);
  }

  lemma RowGone(c: Cluster, user: string, db: string)
    ensures RowsOf(Revoke(WithoutRows(c, user, {db}), user, db), user) == RowsOf(c, user) - {db}
  {
  }

  lemma RemoveDatabaseCovered(c: Cluster, user: string, db: string)
    requires Covered(c)
    ensures Covered(RemoveDatabaseRun(c, user, db))
    ensures RowsOf(c, user) <= {db} ==>
              var c' := RemoveDatabaseRun(c, user, db);
              && Bare(c', user) && RowsOf(c', user) == {}
              && (user in c'.roles <==> user in c.roles && Pinned(user))
  {
    RevokeCovered(c, user, db);
    RowGone(c, user, db);
    var mid := Revoke(WithoutRows(c, user, {db}), user, db);
    if RowsOf(mid, user) == {} { LastDrop(mid, user); }
  }

  lemma DeletedRows(c: Cluster, user: string)
    ensures RowsOf(DeleteUserRun(c, user), user) == {}
  {
  }

  lemma DeleteUserCovered(c: Cluster, user: string)
    requires Covered(c) && (Pinned(user) ==> Bare(c, user))
    ensures Covered(DeleteUserRun(c, user))
    ensures var c' := DeleteUserRun(c, user);
            && Bare(c', user) && RowsOf(c', user) == {}
            && (user in c'.roles <==> user in c.roles && Pinned(user))
  {
    var names := RowsOf(c, user) - {NO_CONNECTIONS};
    DropOwnedCovered(c, user, names);
    var dropped := DropRole(DropOwned(c, user, names), user);
    DropRoleCovered(DropOwned(c, user, names), user);
    DeletedRows(c, user);
    ErasedCovered(dropped, user);
  }

  /** The rows of somebody who holds nothing can go. */
  lemma ErasedCovered(c: Cluster, user: string)
    requires Covered(c) && Bare(c, user)
    ensures forall names :: Covered(WithoutRows(c, user, names)) && Bare(WithoutRows(c, user, names), user)
  {
    forall names
      ensures Covered(WithoutRows(c, user, names)) && Bare(WithoutRows(c, user, names), user)
    {
      var c' := WithoutRows(c, user, names);
      forall u, n | n in c'.databases && ((u, n) !in c'.rows || u !in c'.roles)
        ensures Clean(c', u, n)
      {
        if u != user { assert Clean(c, u, n); }
      }
    }
  }

  /** A role the server does not drop keeps its privileges when its rows go. */
  lemma PinnedDeleteEscapes(c: Cluster, user: string)
    requires Pinned(user) && !Bare(c, user)
    ensures !Covered(DeleteUserRun(c, user))
  {
    var c' := DeleteUserRun(c, user);
    DeletedRows(c, user);
    var n :| n in c.databases && !Holds(c.databases[n], user, NO_RIGHTS);
    assert n !in RowsOf(c', user);
    assert !Clean(c', user, n);
  }

  lemma CreateDatabaseCovered(c: Cluster, name: string)
    requires Covered(c)
    ensures Covered(CreateDatabaseRun(c, name)) <==> (Creatable(c, name) ==> CopyRecorded(c, name))
  {
    var c' := CreateDatabaseRun(c, name);
    if Creatable(c, name) {
      assert forall u, n :: n in c.databases ==> (Clean(c', u, n) <==> Clean(c, u, n));
      assert forall u :: Clean(c', u, name) <==> Holds(Copy(c.databases[TEMPLATE]), u, NO_RIGHTS);
    }
  }

  lemma DeleteDatabaseCovered(c: Cluster, name: string)
    requires Covered(c)
    ensures Covered(DeleteDatabaseRun(c, name))
  {
    var c' := DeleteDatabaseRun(c, name);
    assert forall u, n :: n in c'.databases ==> (Clean(c', u, n) <==> Clean(c, u, n));
  }

  /** Creating and dropping tables and sequences never changes what anyone is due. */
  lemma ObjectHolds(c: Cluster, r: Request, user: string, n: string, rights: Rights)
    requires r.CreateTable? || r.CreateSequence? || r.DropTable? || r.DropSequence?
    requires n in c.databases && Holds(c.databases[n], user, rights)
    ensures forall c', ok :: Step(c, r, c', ok) ==>
              c'.databases.Keys == c.databases.Keys && Holds(c'.databases[n], user, rights)
              && c' == c.(databases := c'.databases)
  {
  }

  lemma UpdateUserCovered(c: Cluster, user: string, list: Option<seq<string>>, access: Option<Level>, sch: Schedule)
    requires Covered(c) && Harmless(c, UpdateUser(user, list, access)) && Scheduled(c, user, list, access, sch)
    ensures Covered(UpdateUserRun(c, user, list, access, sch).0)
  {
    if user in c.roles {
      UpdateListCovered(c, user, list, access, sch);
      var (mid, ok) := UpdateList(c, user, list, access, sch);
      if access.Some? { UpdateLevelCovered(mid, user, access.value, sch); }
    }
  }

  lemma CoveredStep(c: Cluster, r: Request, c': Cluster, ok: bool)
    requires Covered(c) && Harmless(c, r) && Step(c, r, c', ok)
    ensures Covered(c')
  {
    match r
    case CreateUser(user, dbs, level) => CreateUserCovered(c, user, dbs, level);
    case UpdateUser(user, list, access) =>
      var sch :| Scheduled(c, user, list, access, sch) && (c', ok) == UpdateUserRun(c, user, list, access, sch);
      UpdateUserCovered(c, user, list, access, sch);
    case AddUserDatabase(user, db) =>
      if c' != c {
        var level :| IsCurrent(c, user, level) && c' == WithRow(Grant(c, user, db, level), user, db, level);
        GrantCovered(c, user, db, level);
      }
    case RemoveUserDatabase(user, db) => if ok { RemoveDatabaseCovered(c, user, db); }
    case DeleteUser(user) => if ok { DeleteUserCovered(c, user); }
    case CreateDatabase(db) => CreateDatabaseCovered(c, db);
    case DeleteDatabase(db) => DeleteDatabaseCovered(c, db);
    case ToggleDatabase(db, allowed) =>
      assert forall u, n :: n in c.databases ==> (Clean(c', u, n) <==> Clean(c, u, n));
    case _ =>
      forall u, n | n in c.databases && Clean(c, u, n)
        ensures n in c'.databases && Clean(c', u, n)
      {
        ObjectHolds(c, r, u, n, NO_RIGHTS);
      }
      ObjectKeeps(c, r, c', ok);
  }

  lemma ObjectKeeps(c: Cluster, r: Request, c': Cluster, ok: bool)
    requires r.CreateTable? || r.CreateSequence? || r.DropTable? || r.DropSequence?
    requires Step(c, r, c', ok)
    ensures c'.databases.Keys == c.databases.Keys && c' == c.(databases := c'.databases)
  {
  }

  // ---------- Runs ----------

  datatype Turn = Turn(request: Request, after: Cluster, ok: bool)

  ghost predicate IsRun(c: Cluster, turns: seq<Turn>)
    decreases |turns|
  {
    turns == [] || (Step(c, turns[0].request, turns[0].after, turns[0].ok) && IsRun(turns[0].after, turns[1..]))
  }

  ghost predicate HarmlessRun(c: Cluster, turns: seq<Turn>)
    decreases |turns|
  {
    turns == [] || (Harmless(c, turns[0].request) && HarmlessRun(turns[0].after, turns[1..]))
  }

  function End(c: Cluster, turns: seq<Turn>): Cluster {
    if turns == [] then c else turns[|turns| - 1].after
  }

  lemma EndAfterFirst(c: Cluster, turns: seq<Turn>)
    requires turns != []
    ensures End(turns[0].after, turns[1..]) == End(c, turns)
  {
  }

  /** In every run of harmless requests, failures included, privileges never outrun the metadata. */
  lemma {:induction false} MetadataCoversGrants(c: Cluster, turns: seq<Turn>)
    requires Covered(c) && IsRun(c, turns) && HarmlessRun(c, turns)
    ensures Covered(End(c, turns))
    decreases |turns|
  {
    if turns != [] {
      CoveredStep(c, turns[0].request, turns[0].after, turns[0].ok);
      EndAfterFirst(c, turns);
      MetadataCoversGrants(turns[0].after, turns[1..]);
    }
  }
}
