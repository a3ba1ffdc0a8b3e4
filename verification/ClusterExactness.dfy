/**
 Successful runs: every metadata row has exactly its level's privileges, and
 a user's rows agree on one level.
 */
module ClusterExactness {
  import opened Prelude
  import opened Privileges
  import opened Clusters
  import opened ClusterRuns
  import opened ClusterSafety

  /** What the metadata says the user should hold in the database. */
  function Due(c: Cluster, user: string, db: string): Rights {
    if (user, db) in c.rows then RightsOf(c.rows[(user, db)]) else NO_RIGHTS
  }

  ghost predicate OneLevel(c: Cluster, user: string) {
    forall n, m :: (user, n) in c.rows && (user, m) in c.rows ==> c.rows[(user, n)] == c.rows[(user, m)]
  }

  ghost predicate HasItsDue(c: Cluster, user: string, db: string)
    requires db in c.databases
  {
    Holds(c.databases[db], user, Due(c, user, db))
  }

  /** Rows name existing roles and databases, and every user holds exactly what the rows say. */
  ghost predicate Matched(c: Cluster) {
    && Sound(c)
    && (forall u, n :: (u, n) in c.rows ==> Reachable(c, u, n))
    && (forall u, n :: n in c.databases ==> HasItsDue(c, u, n))
  }

  ghost predicate Exact(c: Cluster) {
    Matched(c) && forall u :: OneLevel(c, u)
  }

  lemma MatchedIsCovered(c: Cluster)
    requires Matched(c)
    ensures Covered(c)
  {
    forall u, n | n in c.databases && ((u, n) !in c.rows || u !in c.roles)
      ensures Clean(c, u, n)
    {
      assert HasItsDue(c, u, n);
    }
  }

  // ---------- The three loops ----------

  lemma AdmitMatched(c: Cluster, user: string, names: set<string>, level: Level)
    requires Matched(c) && RowsOf(c, user) !! names && AllReachable(c, user, names)
    requires level != Invalid
    ensures Matched(Admit(c, user, names, level))
  {
    var c' := Admit(c, user, names, level);
    forall u, n | n in c'.databases
      ensures HasItsDue(c', u, n)
    {
      assert HasItsDue(c, u, n);
      if n in names {
        assert n !in RowsOf(c, user);
        EntitleHolds(c.databases[n], user, RightsOf(level), u);
        if u != user { SameHolds(c.databases[n], c'.databases[n], u, Due(c, u, n)); }
      }
    }
    forall u, n | (u, n) in c'.rows
      ensures Reachable(c', u, n)
    {
      assert (u, n) in c.rows || (u == user && n in names);
    }
  }

  function Withdraw(c: Cluster, user: string, names: set<string>): Cluster {
    WithoutRows(StripIn(c, user, names), user, names)
  }

  lemma WithdrawMatched(c: Cluster, user: string, names: set<string>)
    requires Matched(c)
    ensures Matched(Withdraw(c, user, names))
  {
    var c' := Withdraw(c, user, names);
    forall u, n | n in c'.databases
      ensures HasItsDue(c', u, n)
    {
      assert HasItsDue(c, u, n);
      if n in names {
        StripHolds(c.databases[n], user, u);
        if u != user { SameHolds(c.databases[n], c'.databases[n], u, Due(c, u, n)); }
      }
    }
  }

  function Relevel(c: Cluster, user: string, level: Level): Cluster {
    SetLevels(RelevelIn(c, user, RowsOf(c, user), level), user, level)
  }

  lemma RelevelHolds(d: Database, user: string, level: Level, other: string, r: Rights)
    requires other != user && Holds(d, other, r)
    ensures Holds(Entitle(Strip(d, user), user, RightsOf(level)), other, r)
  {
    StripHolds(d, user, other);
    SameHolds(d, Strip(d, user), other, r);
    EntitleHolds(Strip(d, user), user, RightsOf(level), other);
    SameHolds(Strip(d, user), Entitle(Strip(d, user), user, RightsOf(level)), other, r);
  }

  lemma RelevelDue(c: Cluster, user: string, level: Level, u: string, n: string)
    requires Matched(c) && n in c.databases
    ensures HasItsDue(Relevel(c, user, level), u, n)
  {
    assert HasItsDue(c, u, n);
    if n in RowsOf(c, user) {
      if u == user {
        RelevelLeavesNothing(c.databases[n], user, RightsOf(level));
      } else {
        RelevelHolds(c.databases[n], user, level, u, Due(c, u, n));
      }
    }
  }

  lemma RelevelMatched(c: Cluster, user: string, level: Level)
    requires Matched(c) && level != Invalid
    ensures Matched(Relevel(c, user, level)) && OneLevel(Relevel(c, user, level), user)
  {
    var c' := Relevel(c, user, level);
    forall u, n | n in c'.databases { RelevelDue(c, user, level, u, n); }
  }

  // ---------- UpdateUser ----------

  /** The databases the user should end up with. */
  function Requested(c: Cluster, user: string, list: Option<seq<string>>): set<string> {
    if list.Some? then ToSet(list.value) else RowsOf(c, user)
  }

  /** The outcome of a successful update, with no mention of the order the loops ran in. */
  function AfterList(c: Cluster, user: string, list: Option<seq<string>>, level: Level): Cluster {
    Admit(Withdraw(c, user, RowsOf(c, user) - Requested(c, user, list)), user,
          Requested(c, user, list) - RowsOf(c, user), level)
  }

  function Updated(c: Cluster, user: string, list: Option<seq<string>>, access: Option<Level>, current: Level): Cluster {
    if access.Some? then Relevel(AfterList(c, user, list, access.value), user, access.value)
    else AfterList(c, user, list, current)
  }

  lemma EnumeratesSet(order: seq<string>, names: set<string>)
    requires Enumerates(order, names)
    ensures ToSet(order) == names && Distinct(order)
  {
  }

  lemma WithdrawRows(c: Cluster, user: string, list: Option<seq<string>>, level: Level)
    ensures RowsOf(AfterList(c, user, list, level), user) == Requested(c, user, list)
    ensures RowsOf(Withdraw(c, user, RowsOf(c, user) - Requested(c, user, list)), user) ==
            RowsOf(c, user) * Requested(c, user, list)
  {
  }

  lemma AfterNothing(c: Cluster, user: string, level: Level)
    ensures AfterList(c, user, None, level) == c
  {
    assert RowsOf(c, user) - RowsOf(c, user) == {};
    assert StripIn(c, user, {}).databases == c.databases;
    assert WithoutRows(c, user, {}).rows == c.rows;
    AdmitNone(c, user, level);
  }

  lemma UpdateListEffect(c: Cluster, user: string, list: Option<seq<string>>, access: Option<Level>, sch: Schedule)
    requires Sound(c) && user in c.roles
    requires access != Some(Invalid) && Scheduled(c, user, list, access, sch)
    ensures UpdateList(c, user, list, access, sch).1 <==>
              AllReachable(c, user, (RowsOf(c, user) - Requested(c, user, list)) + (Requested(c, user, list) - RowsOf(c, user)))
    ensures UpdateList(c, user, list, access, sch).1 ==>
              UpdateList(c, user, list, access, sch).0 ==
              AfterList(c, user, list, if access.Some? then access.value else sch.current)
  {
    var level := if access.Some? then access.value else sch.current;
    CurrentIsValid(c, user, sch.current);
    if list == None {
      AfterNothing(c, user, level);
    } else {
      var gone := RowsOf(c, user) - Requested(c, user, list);
      var added := Requested(c, user, list) - RowsOf(c, user);
      EnumeratesSet(sch.revoked, gone);
      EnumeratesSet(sch.granted, added);
      RevokeEachEffect(c, user, sch.revoked);
      var (mid, ok) := RevokeEach(c, user, sch.revoked);
      if ok {
        GrantEachEffect(mid, user, sch.granted, level);
        assert AllReachable(mid, user, added) <==> AllReachable(c, user, added);
      } else {
        assert exists n :: n in gone && !Reachable(c, user, n);
      }
      assert AllReachable(c, user, gone + added) <==> AllReachable(c, user, gone) && AllReachable(c, user, added);
    }
  }

  /**
   UpdateUser as a set difference: it succeeds exactly on a real level when every database it must
   touch can be reached, and then the result is the same whatever order its loops ran in.
   */
  lemma UpdateUserEffect(c: Cluster, user: string, list: Option<seq<string>>, access: Option<Level>, sch: Schedule)
    requires Sound(c) && user in c.roles && Scheduled(c, user, list, access, sch)
    ensures var (c', ok) := UpdateUserRun(c, user, list, access, sch);
            && (ok <==> Grantable(c, user, list, access))
            && (ok ==> c' == Updated(c, user, list, access, sch.current))
  {
    if access != Some(Invalid) {
      UpdateListEffect(c, user, list, access, sch);
      var (mid, ok) := UpdateList(c, user, list, access, sch);
      if ok && access.Some? { RelevelAfterList(c, user, list, access.value, sch, mid); }
    }
  }

  /** What an update needs to succeed: a real level, and a way to reach what it grants and what it revokes. */
  ghost predicate Grantable(c: Cluster, user: string, list: Option<seq<string>>, access: Option<Level>) {
    var wanted := Requested(c, user, list);
    && access != Some(Invalid)
    && AllReachable(c, user, (RowsOf(c, user) - wanted) + (wanted - RowsOf(c, user)))
    && (access.Some? ==> AllReachable(c, user, wanted))
  }

  lemma RelevelAfterList(c: Cluster, user: string, list: Option<seq<string>>, level: Level, sch: Schedule, mid: Cluster)
    requires mid == AfterList(c, user, list, level) && Enumerates(sch.releveled, RowsOf(mid, user)) && level != Invalid
    ensures var (c', ok) := UpdateLevel(mid, user, level, sch);
            && (ok <==> AllReachable(c, user, Requested(c, user, list)))
            && (ok ==> c' == Relevel(mid, user, level))
  {
    WithdrawRows(c, user, list, level);
    EnumeratesSet(sch.releveled, RowsOf(mid, user));
    RelevelEachEffect(mid, user, sch.releveled, level);
    assert forall n :: Reachable(mid, user, n) <==> Reachable(c, user, n);
    assert AllReachable(mid, user, RowsOf(mid, user)) <==> AllReachable(c, user, Requested(c, user, list));
  }

  /** Map iteration order and the order of unordered SELECTs never show in a successful update. */
  lemma UpdateOrderIsInvisible(c: Cluster, user: string, list: Option<seq<string>>, access: Option<Level>, sch: Schedule, other: Schedule)
    requires Sound(c) && user in c.roles
    requires Scheduled(c, user, list, access, sch) && Scheduled(c, user, list, access, other)
    requires OneLevel(c, user) || access.Some?
    ensures UpdateUserRun(c, user, list, access, sch).1 <==> UpdateUserRun(c, user, list, access, other).1
    ensures UpdateUserRun(c, user, list, access, sch).1 ==>
              UpdateUserRun(c, user, list, access, sch) == UpdateUserRun(c, user, list, access, other)
  {
    UpdateUserEffect(c, user, list, access, sch);
    UpdateUserEffect(c, user, list, access, other);
    assert access == None ==> sch.current == other.current;
  }

  /** The rows and levels afterwards; roles, listings and the databases that did not have to change stay. */
  ghost predicate DiffApplied(c: Cluster, c': Cluster, user: string, list: seq<string>, access: Option<Level>, current: Level) {
    && (forall u, n :: (u, n) in c'.rows <==> if u == user then n in list else (u, n) in c.rows)
    && (forall u, n :: (u, n) in c'.rows ==>
          c'.rows[(u, n)] == if u == user && access.Some? then access.value
                             else if (u, n) in c.rows then c.rows[(u, n)] else current)
    && c'.roles == c.roles && c'.listed == c.listed && c'.databases.Keys == c.databases.Keys
    && (forall n :: n in c.databases && (n in list <==> (user, n) in c.rows) && (access == None || n !in list) ==>
          c'.databases[n] == c.databases[n])
  }

  /**
   After a successful update with a list the rows are exactly the requested set, duplicates collapsed,
   each at its level, and nothing else has changed.
   */
  lemma UpdateDiffIsExact(c: Cluster, user: string, list: seq<string>, access: Option<Level>, sch: Schedule)
    requires Sound(c) && Scheduled(c, user, Some(list), access, sch)
    requires UpdateUserRun(c, user, Some(list), access, sch).1
    ensures DiffApplied(c, UpdateUserRun(c, user, Some(list), access, sch).0, user, list, access, sch.current)
  {
    UpdateUserEffect(c, user, Some(list), access, sch);
    UpdatedRows(c, user, list, access, sch.current);
    UpdatedDatabases(c, user, list, access, sch.current);
  }

  lemma UpdatedRows(c: Cluster, user: string, list: seq<string>, access: Option<Level>, current: Level)
    ensures var c' := Updated(c, user, Some(list), access, current);
            && (forall u, n :: (u, n) in c'.rows <==> if u == user then n in list else (u, n) in c.rows)
            && (forall u, n :: (u, n) in c'.rows ==>
                  c'.rows[(u, n)] == if u == user && access.Some? then access.value
                                     else if (u, n) in c.rows then c.rows[(u, n)] else current)
            && c'.roles == c.roles && c'.listed == c.listed
  {
    WithdrawRows(c, user, Some(list), if access.Some? then access.value else current);
  }

  lemma UpdatedDatabases(c: Cluster, user: string, list: seq<string>, access: Option<Level>, current: Level)
    ensures var c' := Updated(c, user, Some(list), access, current);
            && c'.databases.Keys == c.databases.Keys
            && (forall n :: n in c.databases && (n in list <==> (user, n) in c.rows) && (access == None || n !in list) ==>
                  c'.databases[n] == c.databases[n])
  {
    WithdrawRows(c, user, Some(list), if access.Some? then access.value else current);
  }

  lemma AdmitOneLevel(c: Cluster, user: string, names: set<string>, level: Level)
    requires forall n :: (user, n) in c.rows ==> c.rows[(user, n)] == level
    ensures OneLevel(Admit(c, user, names, level), user)
    ensures forall u :: u != user && OneLevel(c, u) ==> OneLevel(Admit(c, user, names, level), u)
  {
  }

  lemma AfterListMatched(c: Cluster, user: string, list: Option<seq<string>>, level: Level)
    requires Matched(c) && user in c.roles && level != Invalid
    requires AllReachable(c, user, Requested(c, user, list) - RowsOf(c, user))
    ensures Matched(AfterList(c, user, list, level))
  {
    var wanted := Requested(c, user, list);
    var held := RowsOf(c, user);
    var mid := Withdraw(c, user, held - wanted);
    WithdrawMatched(c, user, held - wanted);
    WithdrawRows(c, user, list, level);
    forall n | n in wanted - held
      ensures Reachable(mid, user, n)
    {
      assert Reachable(c, user, n);
    }
    AdmitMatched(mid, user, wanted - held, level);
  }

  lemma AfterListLevels(c: Cluster, user: string, list: Option<seq<string>>, level: Level)
    requires forall u :: OneLevel(c, u)
    ensures forall u :: u != user ==> OneLevel(AfterList(c, user, list, level), u)
    ensures (forall n :: (user, n) in c.rows ==> c.rows[(user, n)] == level) ==> OneLevel(AfterList(c, user, list, level), user)
  {
    var wanted := Requested(c, user, list);
    var held := RowsOf(c, user);
    var mid := Withdraw(c, user, held - wanted);
    forall u
      ensures OneLevel(mid, u)
    {
      assert OneLevel(c, u);
    }
    if forall n :: (user, n) in c.rows ==> c.rows[(user, n)] == level {
      AdmitOneLevel(mid, user, wanted - held, level);
    }
    forall u | u != user
      ensures OneLevel(Admit(mid, user, wanted - held, level), u)
    {
      assert OneLevel(mid, u);
    }
  }

  lemma CurrentIsEvery(c: Cluster, user: string, level: Level)
    requires OneLevel(c, user) && IsCurrent(c, user, level)
    ensures forall n :: (user, n) in c.rows ==> c.rows[(user, n)] == level
  {
    forall n | (user, n) in c.rows
      ensures c.rows[(user, n)] == level
    {
      assert n in RowsOf(c, user);
    }
  }

  lemma UpdateUserExact(c: Cluster, user: string, list: Option<seq<string>>, access: Option<Level>, sch: Schedule)
    requires Exact(c) && Scheduled(c, user, list, access, sch)
    requires UpdateUserRun(c, user, list, access, sch).1
    ensures Exact(UpdateUserRun(c, user, list, access, sch).0)
  {
    UpdateUserEffect(c, user, list, access, sch);
    CurrentIsValid(c, user, sch.current);
    assert OneLevel(c, user);
    CurrentIsEvery(c, user, sch.current);
    var level := if access.Some? then access.value else sch.current;
    forall n | n in Requested(c, user, list) - RowsOf(c, user)
      ensures Reachable(c, user, n)
    {
      assert n in (RowsOf(c, user) - Requested(c, user, list)) + (Requested(c, user, list) - RowsOf(c, user));
    }
    AfterListMatched(c, user, list, level);
    AfterListLevels(c, user, list, level);
    var mid := AfterList(c, user, list, level);
    if access.Some? {
      RelevelMatched(mid, user, level);
      var c' := Relevel(mid, user, level);
      forall u
        ensures OneLevel(c', u)
      {
        if u != user { assert OneLevel(mid, u); }
      }
    } else {
      forall u
        ensures OneLevel(mid, u)
      {
        if u == user { assert OneLevel(mid, user); }
      }
    }
  }

  // ---------- The other requests ----------

  /** CreateUser succeeds exactly on a new role and distinct existing databases with no row left over for it. */
  lemma CreateUserEffect(c: Cluster, user: string, dbs: seq<string>, level: Level)
    ensures CreateUserRun(c, user, dbs, level).1 <==>
            && CreateOk(user, dbs, level) && user !in c.roles && Distinct(dbs)
            && (forall n :: n in dbs ==> n in c.databases && (user, n) !in c.rows)
    ensures CreateUserRun(c, user, dbs, level).1 ==>
              CreateUserRun(c, user, dbs, level).0 == Admit(c.(roles := c.roles + {user}), user, ToSet(dbs), level)
  {
    if CreateOk(user, dbs, level) && user !in c.roles {
      var withRole := c.(roles := c.roles + {user});
      CreateEachEffect(withRole, user, dbs, level);
      if forall n :: n in dbs ==> n in c.databases && (user, n) !in c.rows {
        assert AllReachable(withRole, user, ToSet(dbs));
      }
      if Admissible(withRole, user, dbs) {
        forall n | n in dbs
          ensures n in c.databases && (user, n) !in c.rows
        {
          assert n in ToSet(dbs) && Reachable(withRole, user, n);
          assert n !in RowsOf(withRole, user);
        }
      }
    }
  }

  lemma CreateUserExact(c: Cluster, user: string, dbs: seq<string>, level: Level)
    requires Exact(c) && CreateUserRun(c, user, dbs, level).1
    ensures Exact(CreateUserRun(c, user, dbs, level).0)
  {
    CreateUserEffect(c, user, dbs, level);
    var withRole := c.(roles := c.roles + {user});
    forall u, n | n in c.databases
      ensures HasItsDue(withRole, u, n)
    {
      assert HasItsDue(c, u, n);
    }
    forall u, n | (u, n) in withRole.rows
      ensures Reachable(withRole, u, n)
    {
      assert Reachable(c, u, n);
    }
    assert forall n :: (user, n) in c.rows ==> Reachable(c, user, n);
    assert RowsOf(withRole, user) == {};
    AdmitMatched(withRole, user, ToSet(dbs), level);
    AdmitOneLevel(withRole, user, ToSet(dbs), level);
    forall u
      ensures OneLevel(Admit(withRole, user, ToSet(dbs), level), u)
    {
      assert OneLevel(c, u);
    }
  }

  lemma AddDatabaseExact(c: Cluster, user: string, db: string, level: Level)
    requires Exact(c) && IsCurrent(c, user, level) && Reachable(c, user, db) && (user, db) !in c.rows
    ensures Exact(WithRow(Grant(c, user, db, level), user, db, level))
  {
    var c' := WithRow(Grant(c, user, db, level), user, db, level);
    assert c' == Admit(c, user, {db}, level) by {
      AdmitOne(c, user, db, {}, level);
      AdmitNone(c', user, level);
      assert {db} + {} == {db};
    }
    CurrentIsValid(c, user, level);
    assert OneLevel(c, user);
    CurrentIsEvery(c, user, level);
    AdmitMatched(c, user, {db}, level);
    AdmitOneLevel(c, user, {db}, level);
    forall u
      ensures OneLevel(c', u)
    {
      assert OneLevel(c, u);
    }
  }

  /** Dropping a role nobody's row names, after its grants are gone, disturbs no one else. */
  lemma DropExact(c: Cluster, user: string, names: set<string>, c': Cluster)
    requires Exact(c)
    requires c' == WithoutRows(DropRole(DropOwned(c, user, names), user), user, RowsOf(c, user))
    requires Covered(c') && RowsOf(c', user) == {}
    ensures Exact(c')
  {
    forall u, n | n in c'.databases
      ensures HasItsDue(c', u, n)
    {
      assert HasItsDue(c, u, n);
      if u == user {
        assert n !in RowsOf(c', user);
        assert Clean(c', u, n);
      } else {
        DropOwnedHolds(c, user, names, u, n, Due(c, u, n));
      }
    }
    DropRows(c, user, names, c');
  }

  lemma DropRows(c: Cluster, user: string, names: set<string>, c': Cluster)
    requires Exact(c)
    requires c' == WithoutRows(DropRole(DropOwned(c, user, names), user), user, RowsOf(c, user))
    requires RowsOf(c', user) == {}
    ensures forall u :: OneLevel(c', u)
    ensures forall u, n :: (u, n) in c'.rows ==> Reachable(c', u, n)
  {
    forall u
      ensures OneLevel(c', u)
    {
      assert OneLevel(c, u);
    }
    forall u, n | (u, n) in c'.rows
      ensures Reachable(c', u, n)
    {
      assert Reachable(c, u, n);
      assert n in RowsOf(c', u);
    }
  }

  lemma DropOwnedHolds(c: Cluster, user: string, names: set<string>, other: string, db: string, r: Rights)
    requires db in c.databases && other != user && Holds(c.databases[db], other, r)
    ensures Holds(DropOwned(c, user, names).databases[db], other, r)
  {
    StripHolds(c.databases[db], user, other);
    SameHolds(c.databases[db], Strip(c.databases[db], user), other, r);
  }

  lemma BareIff(c: Cluster, user: string)
    requires Exact(c)
    ensures Bare(c, user) <==> RowsOf(c, user) == {}
  {
    if RowsOf(c, user) == {} {
      MatchedIsCovered(c);
      NoRowsBare(c, user);
    } else {
      var n :| n in RowsOf(c, user);
      assert Reachable(c, user, n) && HasItsDue(c, user, n);
      assert Connect in Due(c, user, n).database;
    }
  }

  lemma DeleteUserLeaves(c: Cluster, user: string)
    requires Exact(c) && (Pinned(user) ==> RowsOf(c, user) == {})
    ensures Covered(DeleteUserRun(c, user)) && RowsOf(DeleteUserRun(c, user), user) == {}
  {
    MatchedIsCovered(c);
    BareIff(c, user);
    DeleteUserCovered(c, user);
  }

  /** Deleting a user breaks the agreement exactly when the server keeps the role and there were rows. */
  lemma DeleteUserExactIff(c: Cluster, user: string)
    requires Exact(c)
    ensures Exact(DeleteUserRun(c, user)) <==> (Pinned(user) ==> RowsOf(c, user) == {})
  {
    if Pinned(user) && RowsOf(c, user) != {} {
      BareIff(c, user);
      PinnedDeleteEscapes(c, user);
      if Exact(DeleteUserRun(c, user)) { MatchedIsCovered(DeleteUserRun(c, user)); }
    } else {
      DeleteUserLeaves(c, user);
      DropExact(c, user, RowsOf(c, user) - {NO_CONNECTIONS}, DeleteUserRun(c, user));
    }
  }

  lemma WithoutNobody(acl: Acl, user: string)
    requires HoldsOn(acl, user, {})
    ensures Without(acl, user) == acl
  {
    forall g | g in acl
      ensures g in Without(acl, user)
    {
      assert g == (g.0, g.1);
    }
  }

  /** Where a database cannot be reached there is nothing to revoke. */
  lemma RevokeUnreachable(c: Cluster, user: string, db: string)
    requires Matched(c) && !Reachable(c, user, db)
    ensures Revoke(c, user, db) == c
  {
    if Present(c, user, db) {
      assert HasItsDue(c, user, db);
      WithoutNobody(c.databases[db].self, user);
      assert Revoke(c, user, db).databases == c.databases;
    }
  }

  lemma RevokeRowExact(c: Cluster, user: string, db: string)
    requires Exact(c)
    ensures Exact(Revoke(WithoutRows(c, user, {db}), user, db))
  {
    var mid := Revoke(WithoutRows(c, user, {db}), user, db);
    if Reachable(c, user, db) {
      WithdrawMatched(c, user, {db});
      assert mid.databases == StripIn(c, user, {db}).databases;
      assert mid == Withdraw(c, user, {db});
    } else {
      assert (user, db) !in c.rows;
      assert WithoutRows(c, user, {db}).rows == c.rows;
      RevokeUnreachable(c, user, db);
    }
    forall u
      ensures OneLevel(mid, u)
    {
      assert OneLevel(c, u);
    }
  }

  /** Dropping a role no row names. */
  lemma LastDropExact(c: Cluster, user: string)
    requires Exact(c) && RowsOf(c, user) == {}
    ensures Exact(DropRole(DropOwned(c, user, {APP}), user))
  {
    MatchedIsCovered(c);
    LastDrop(c, user);
    var c' := DropRole(DropOwned(c, user, {APP}), user);
    assert WithoutRows(c', user, {}).rows == c'.rows;
    assert RowsOf(c', user) == RowsOf(c, user);
    DropExact(c, user, {APP}, c');
  }

  lemma RemoveDatabaseExact(c: Cluster, user: string, db: string)
    requires Exact(c)
    ensures Exact(RemoveDatabaseRun(c, user, db))
  {
    RevokeRowExact(c, user, db);
    var mid := Revoke(WithoutRows(c, user, {db}), user, db);
    if RowsOf(mid, user) == {} { LastDropExact(mid, user); }
  }

  lemma TemplateSharedIff(c: Cluster, u: string)
    requires Exact(c)
    ensures Holds(Copy(c.databases[TEMPLATE]), u, NO_RIGHTS) <==> (u, TEMPLATE) !in c.rows
  {
    assert HasItsDue(c, u, TEMPLATE);
    if (u, TEMPLATE) in c.rows { assert Usage in Due(c, u, TEMPLATE).schema; }
  }

  lemma NewName(c: Cluster, name: string)
    requires Exact(c) && Creatable(c, name)
    ensures forall u :: (u, name) !in c.rows
  {
    forall u
      ensures (u, name) !in c.rows
    {
      assert (u, name) in c.rows ==> Reachable(c, u, name);
    }
  }

  /** A new database is due to nobody, and nobody holds anything in it, exactly when no row names template1. */
  lemma NewDatabaseIff(c: Cluster, name: string)
    requires Exact(c) && Creatable(c, name)
    ensures (forall u :: Clean(CreateDatabaseRun(c, name), u, name)) <==> forall u :: (u, TEMPLATE) !in c.rows
  {
    var c' := CreateDatabaseRun(c, name);
    forall u
      ensures Clean(c', u, name) <==> (u, TEMPLATE) !in c.rows
    {
      TemplateSharedIff(c, u);
    }
  }

  /** Creating a database keeps the agreement exactly when no row names template1. */
  lemma CreateDatabaseExactIff(c: Cluster, name: string)
    requires Exact(c) && Creatable(c, name)
    ensures Exact(CreateDatabaseRun(c, name)) <==> forall u :: (u, TEMPLATE) !in c.rows
  {
    var c' := CreateDatabaseRun(c, name);
    NewDatabaseIff(c, name);
    NewName(c, name);
    if forall u :: (u, TEMPLATE) !in c.rows { NewDatabaseExact(c, name); }
    if Exact(c') {
      forall u
        ensures Clean(c', u, name)
      {
        assert HasItsDue(c', u, name);
      }
    }
  }

  lemma NewDatabaseExact(c: Cluster, name: string)
    requires Exact(c) && Creatable(c, name) && forall u :: Clean(CreateDatabaseRun(c, name), u, name)
    ensures Exact(CreateDatabaseRun(c, name))
  {
    var c' := CreateDatabaseRun(c, name);
    NewName(c, name);
    forall u, n | n in c'.databases
      ensures HasItsDue(c', u, n)
    {
      if n == name { assert Clean(c', u, n); } else { assert HasItsDue(c, u, n); }
    }
    forall u
      ensures OneLevel(c', u)
    {
      assert OneLevel(c, u);
    }
    forall u, n | (u, n) in c'.rows
      ensures Reachable(c', u, n)
    {
      assert Reachable(c, u, n);
    }
  }

  lemma SameAccountsExact(c: Cluster, c': Cluster)
    requires Exact(c) && Sound(c') && c'.roles == c.roles && c'.rows == c.rows && c'.databases.Keys == c.databases.Keys
    requires forall u, n :: n in c.databases && HasItsDue(c, u, n) ==> HasItsDue(c', u, n)
    ensures Exact(c')
  {
    forall u
      ensures OneLevel(c', u)
    {
      assert OneLevel(c, u);
    }
    forall u, n | (u, n) in c'.rows
      ensures Reachable(c', u, n)
    {
      assert Reachable(c, u, n);
    }
  }

  lemma ObjectExact(c: Cluster, r: Request, c': Cluster)
    requires r.CreateTable? || r.CreateSequence? || r.DropTable? || r.DropSequence?
    requires Exact(c) && Step(c, r, c', true)
    ensures Exact(c')
  {
    ObjectKeeps(c, r, c', true);
    forall u, n | n in c.databases && HasItsDue(c, u, n)
      ensures HasItsDue(c', u, n)
    {
      ObjectHolds(c, r, u, n, Due(c, u, n));
    }
    SameAccountsExact(c, c');
  }

  /** Deleting a database breaks the agreement exactly when some row still names it. */
  lemma DeleteDatabaseExactIff(c: Cluster, name: string)
    requires Exact(c) && Deletable(c, name)
    ensures Exact(DeleteDatabaseRun(c, name)) <==> forall u :: (u, name) !in c.rows
  {
    var c' := DeleteDatabaseRun(c, name);
    if u :| (u, name) in c.rows { assert !Reachable(c', u, name); }
    if forall u :: (u, name) !in c.rows {
      forall u, n | n in c'.databases
        ensures HasItsDue(c', u, n)
      {
        assert HasItsDue(c, u, n);
      }
      forall u
        ensures OneLevel(c', u)
      {
        assert OneLevel(c, u);
      }
    }
  }

  /** The row outlives its database: created again, the database has a row and not its privileges. */
  lemma RecreatedDatabaseHasOldRow(c: Cluster, user: string, db: string)
    requires Exact(c) && (user, db) in c.rows && Deletable(c, db) && CreateDatabaseOk(db)
    ensures var c' := CreateDatabaseRun(DeleteDatabaseRun(c, db), db);
            && db in c'.databases && (user, db) in c'.rows && !HasItsDue(c', user, db)
            && (Clean(c', user, db) <==> (user, TEMPLATE) !in c.rows)
  {
    var c' := CreateDatabaseRun(DeleteDatabaseRun(c, db), db);
    TemplateSharedIff(c, user);
    assert Connect in Due(c', user, db).database;
  }

  /**
   What a caller must check of a request: deleting a database must leave no row behind, a new one must not copy
   what a row grants on template1, and a role the server keeps must have no rows when it is deleted.
   */
  ghost predicate KeepsExact(c: Cluster, r: Request) {
    match r
    case DeleteDatabase(db) => forall u :: (u, db) !in c.rows
    case CreateDatabase(db) => forall u :: (u, TEMPLATE) !in c.rows
    case DeleteUser(user) => Pinned(user) ==> RowsOf(c, user) == {}
    case _ => true
  }

  lemma AccountStepExact(c: Cluster, r: Request, c': Cluster)
    requires r.CreateUser? || r.UpdateUser? || r.AddUserDatabase? || r.RemoveUserDatabase?
    requires Exact(c) && Step(c, r, c', true)
    ensures Exact(c')
  {
    match r
    case CreateUser(user, dbs, level) => CreateUserExact(c, user, dbs, level);
    case UpdateUser(user, list, access) =>
      var sch :| Scheduled(c, user, list, access, sch) && (c', true) == UpdateUserRun(c, user, list, access, sch);
      UpdateUserExact(c, user, list, access, sch);
    case AddUserDatabase(user, db) =>
      var level :| IsCurrent(c, user, level) && c' == WithRow(Grant(c, user, db, level), user, db, level);
      AddDatabaseExact(c, user, db, level);
    case RemoveUserDatabase(user, db) => RemoveDatabaseExact(c, user, db);
  }

  /** A successful step keeps the agreement exactly under that condition. */
  lemma ExactStep(c: Cluster, r: Request, c': Cluster)
    requires Exact(c) && Step(c, r, c', true)
    ensures Exact(c') <==> KeepsExact(c, r)
  {
    match r
    case DeleteUser(user) => DeleteUserExactIff(c, user);
    case CreateDatabase(db) => CreateDatabaseExactIff(c, db);
    case DeleteDatabase(db) => DeleteDatabaseExactIff(c, db);
    case ToggleDatabase(_, _) => SameAccountsExact(c, c');
    case CreateTable(_, _) => ObjectExact(c, r, c');
    case CreateSequence(_, _) => ObjectExact(c, r, c');
    case DropTable(_, _) => ObjectExact(c, r, c');
    case DropSequence(_, _) => ObjectExact(c, r, c');
    case _ => AccountStepExact(c, r, c');
  }

  ghost predicate ExactRun(c: Cluster, turns: seq<Turn>)
    decreases |turns|
  {
    turns == [] || (turns[0].ok && KeepsExact(c, turns[0].request) && ExactRun(turns[0].after, turns[1..]))
  }

  /**
   In every run of successful requests, each meeting its condition, each row has exactly its level's
   privileges on the database, the schema, and every table and sequence there is, whenever it was
   created; and all rows of a user carry the same level.
   */
  lemma {:induction false} GrantsMatchLevels(c: Cluster, turns: seq<Turn>)
    requires Exact(c) && IsRun(c, turns) && ExactRun(c, turns)
    ensures Exact(End(c, turns))
    decreases |turns|
  {
    if turns != [] {
      ExactStep(c, turns[0].request, turns[0].after);
      EndAfterFirst(c, turns);
      GrantsMatchLevels(turns[0].after, turns[1..]);
    }
  }

  const BLANK := Database({}, {}, map[], map[], {}, {})

  /** A freshly initialised server. */
  const INITIAL := Cluster(
    {APP, "pgbouncer_auth"},
    map[NO_CONNECTIONS := BLANK, TEMPLATE := BLANK, "postgres" := BLANK, APP := BLANK],
    map[],
    map[NO_CONNECTIONS := false, TEMPLATE := false, "postgres" := false, APP := false])

  lemma InitialIsExact()
    ensures Exact(INITIAL) && Covered(INITIAL)
  {
    assert forall n :: n in INITIAL.databases ==> INITIAL.databases[n] == BLANK;
    forall u, n | n in INITIAL.databases
      ensures HasItsDue(INITIAL, u, n)
    {
    }
    MatchedIsCovered(INITIAL);
  }
}
