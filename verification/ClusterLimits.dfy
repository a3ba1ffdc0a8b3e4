/**
 Where the provisos on the cluster results come from: what a failed creation leaves behind, which
 updates grant more than the rows record, and what template1 passes on.  Each is an equivalence.
 */
module ClusterLimits {
  import opened Prelude
  import opened Privileges
  import opened Clusters
  import opened ClusterRuns
  import opened ClusterSafety
  import opened ClusterExactness

  // ---------- The level ListUsers shows ----------

  function LevelText(level: Level): string {
    match level
    case Read => "read"
    case Write => "write"
    case Ddl => "ddl"
    case Full => "full"
    case Invalid => ""
  }

  /** The order of text columns; on lower-case letters every collation agrees. */
  predicate TextAtMost(a: string, b: string) {
    a == "" || (b != "" && (a[0] < b[0] || (a[0] == b[0] && TextAtMost(a[1..], b[1..]))))
  }

  /** The access column of the user's rows. */
  function AccessTexts(c: Cluster, user: string): (texts: set<string>)
    ensures forall n :: (user, n) in c.rows ==> LevelText(c.rows[(user, n)]) in texts
  {
    set k | k in c.rows && k.0 == user :: LevelText(c.rows[k])
  }

  /** MIN(access) */
  ghost predicate IsMin(text: string, texts: set<string>) {
    text in texts && forall t :: t in texts ==> TextAtMost(text, t)
  }

  lemma {:induction false} TextAntisymmetric(a: string, b: string)
    requires TextAtMost(a, b) && TextAtMost(b, a)
    ensures a == b
    decreases |a|
  {
    if a != "" {
      TextAntisymmetric(a[1..], b[1..]);
      assert a == [a[0]] + a[1..] && b == [b[0]] + b[1..];
    }
  }

  lemma {:induction false} TextReflexive(a: string)
    ensures TextAtMost(a, a)
    decreases |a|
  {
    if a != "" { TextReflexive(a[1..]); }
  }

  lemma LevelTextsDiffer(a: Level, b: Level)
    ensures LevelText(a) == LevelText(b) ==> a == b
  {
    assert |LevelText(Invalid)| == 0 && |LevelText(Ddl)| == 3 && |LevelText(Write)| == 5;
    assert LevelText(Read)[0] == 'r' && LevelText(Full)[0] == 'f';
  }

  /** The minimum is every row's level exactly when the rows share one. */
  lemma MinIsEveryLevelIff(c: Cluster, user: string)
    ensures (forall n :: (user, n) in c.rows ==> IsMin(LevelText(c.rows[(user, n)]), AccessTexts(c, user))) <==> OneLevel(c, user)
  {
    if OneLevel(c, user) {
      forall n, t | (user, n) in c.rows && t in AccessTexts(c, user)
        ensures TextAtMost(LevelText(c.rows[(user, n)]), t)
      {
        TextReflexive(t);
      }
    }
    if forall n :: (user, n) in c.rows ==> IsMin(LevelText(c.rows[(user, n)]), AccessTexts(c, user)) {
      forall n, m | (user, n) in c.rows && (user, m) in c.rows
        ensures c.rows[(user, n)] == c.rows[(user, m)]
      {
        TextAntisymmetric(LevelText(c.rows[(user, n)]), LevelText(c.rows[(user, m)]));
        LevelTextsDiffer(c.rows[(user, n)], c.rows[(user, m)]);
      }
    }
  }

  /** After successful runs the MIN(access) that ListUsers shows is the level of every row. */
  lemma ListedLevelIsEveryLevel(c: Cluster, turns: seq<Turn>, user: string, text: string)
    requires Exact(c) && IsRun(c, turns) && ExactRun(c, turns)
    requires IsMin(text, AccessTexts(End(c, turns), user))
    ensures forall n :: (user, n) in End(c, turns).rows ==> LevelText(End(c, turns).rows[(user, n)]) == text
  {
    GrantsMatchLevels(c, turns);
    var c' := End(c, turns);
    assert OneLevel(c', user);
    MinIsEveryLevelIff(c', user);
    forall n | (user, n) in c'.rows
      ensures LevelText(c'.rows[(user, n)]) == text
    {
      TextAntisymmetric(LevelText(c'.rows[(user, n)]), text);
    }
  }

  // ---------- A failed creation ----------

  /** The i-th database of a creation can be granted and recorded. */
  predicate Fresh(c: Cluster, user: string, dbs: seq<string>, i: nat)
    requires i < |dbs|
  {
    dbs[i] in c.databases && (user, dbs[i]) !in c.rows && dbs[i] !in dbs[..i]
  }

  /** The creation gets past its first k databases and no further. */
  ghost predicate StopsAt(c: Cluster, user: string, dbs: seq<string>, k: nat) {
    && k <= |dbs|
    && (forall i :: 0 <= i < k ==> Fresh(c, user, dbs, i))
    && (k < |dbs| ==> !Fresh(c, user, dbs, k))
  }

  lemma FreshTail(c: Cluster, next: Cluster, user: string, dbs: seq<string>, i: nat)
    requires 0 < i < |dbs| && next.databases.Keys == c.databases.Keys
    requires forall n :: (user, n) in next.rows <==> (user, n) in c.rows || n == dbs[0]
    ensures Fresh(next, user, dbs[1..], i - 1) <==> Fresh(c, user, dbs, i)
  {
    assert dbs[..i] == [dbs[0]] + dbs[1..][..i - 1];
    assert dbs[1..][i - 1] == dbs[i];
  }

  lemma StopsAtTail(c: Cluster, next: Cluster, user: string, dbs: seq<string>, k: nat)
    requires 0 < k && StopsAt(c, user, dbs, k) && next.databases.Keys == c.databases.Keys
    requires forall n :: (user, n) in next.rows <==> (user, n) in c.rows || n == dbs[0]
    ensures StopsAt(next, user, dbs[1..], k - 1)
  {
    forall i | 0 <= i < k && i < |dbs[1..]|
      ensures Fresh(next, user, dbs[1..], i) <==> Fresh(c, user, dbs, i + 1)
    {
      FreshTail(c, next, user, dbs, i + 1);
    }
  }

  lemma PrefixSet(dbs: seq<string>, k: nat)
    requires 0 < k <= |dbs|
    ensures ToSet(dbs[..k]) == {dbs[0]} + ToSet(dbs[1..][..k - 1])
  {
    assert dbs[..k] == [dbs[0]] + dbs[1..][..k - 1];
  }

  lemma FirstIsReachable(c: Cluster, user: string, dbs: seq<string>, k: nat)
    requires user in c.roles && NO_CONNECTIONS !in dbs && StopsAt(c, user, dbs, k) && dbs != []
    ensures 0 < k <==> Reachable(c, user, dbs[0]) && (user, dbs[0]) !in c.rows
  {
    assert dbs[..0] == [] && dbs[0] in dbs;
    assert 0 < k <==> Fresh(c, user, dbs, 0);
  }

  lemma {:induction false} CreateEachStops(c: Cluster, user: string, dbs: seq<string>, level: Level, k: nat)
    requires user in c.roles && NO_CONNECTIONS !in dbs && StopsAt(c, user, dbs, k)
    ensures var (c', ok) := CreateEach(c, user, dbs, level);
            && (ok <==> k == |dbs|)
            && RowsOf(c', user) == RowsOf(c, user) + ToSet(dbs[..k])
            && c'.databases.Keys == c.databases.Keys
    decreases |dbs|
  {
    if dbs != [] { FirstIsReachable(c, user, dbs, k); }
    if k == 0 {
      assert ToSet(dbs[..0]) == {};
    } else {
      var next := WithRow(Grant(c, user, dbs[0], level), user, dbs[0], level);
      RecordedHead(c, user, dbs[0], level);
      StopsAtTail(c, next, user, dbs, k);
      CreateEachStops(next, user, dbs[1..], level, k - 1);
      PrefixSet(dbs, k);
    }
  }

  /** A creation that stops at its k-th database leaves the rows of those before it, and no role. */
  lemma FailedCreateLeaves(c: Cluster, user: string, dbs: seq<string>, level: Level, k: nat)
    requires Covered(c) && CreateOk(user, dbs, level) && user !in c.roles
    requires StopsAt(c, user, dbs, k) && k < |dbs|
    ensures var (c', ok) := CreateUserRun(c, user, dbs, level);
            && !ok && user !in c'.roles
            && RowsOf(c', user) == RowsOf(c, user) + ToSet(dbs[..k])
            && c'.databases.Keys == c.databases.Keys
  {
    var withRole := c.(roles := c.roles + {user});
    forall i | 0 <= i <= k
      ensures Fresh(withRole, user, dbs, i) <==> Fresh(c, user, dbs, i)
    {
    }
    assert RowsOf(withRole, user) == RowsOf(c, user);
    CreateEachStops(withRole, user, dbs, level, k);
    CreateUserCovered(c, user, dbs, level);
  }

  /**
   Which retries a failed creation blocks: exactly those that name a database it got past, besides
   those that would have failed before it.
   */
  lemma RetrySucceedsIff(c: Cluster, user: string, dbs: seq<string>, level: Level, k: nat, retry: seq<string>, again: Level)
    requires Covered(c) && CreateOk(user, dbs, level) && user !in c.roles
    requires StopsAt(c, user, dbs, k) && k < |dbs|
    ensures var c' := CreateUserRun(c, user, dbs, level).0;
            CreateUserRun(c', user, retry, again).1 <==>
            CreateUserRun(c, user, retry, again).1 && forall n :: n in retry ==> n !in dbs[..k]
  {
    var c' := CreateUserRun(c, user, dbs, level).0;
    FailedCreateLeaves(c, user, dbs, level, k);
    CreateUserEffect(c, user, retry, again);
    CreateUserEffect(c', user, retry, again);
    assert forall n :: (user, n) in c'.rows <==> n in RowsOf(c', user);
    assert forall n :: (user, n) in c.rows <==> n in RowsOf(c, user);
  }

  /** DeleteUser unblocks them all, although the role is already gone; only the application's own role stays. */
  lemma DeleteUserUnblocksRetry(c: Cluster, user: string, dbs: seq<string>, level: Level)
    requires Covered(c)
    ensures CreateUserRun(DeleteUserRun(c, user), user, dbs, level).1 <==>
            CreateOk(user, dbs, level) && user != APP && Distinct(dbs) && forall n :: n in dbs ==> n in c.databases
  {
    if !Pinned(user) { DeleteUserCovered(c, user); }
    DeletedRows(c, user);
    var cleared := DeleteUserRun(c, user);
    CreateUserEffect(cleared, user, dbs, level);
    assert cleared.databases.Keys == c.databases.Keys;
    assert forall n :: (user, n) in cleared.rows <==> n in RowsOf(cleared, user);
  }

  // ---------- Updates that grant more than they record ----------

  /** Grants of an invalid level add access and no row. */
  lemma {:induction false} InvalidGrants(c: Cluster, user: string, order: seq<string>, db: string)
    requires db in c.databases && (user, Connect) in c.databases[db].self && (user, db) !in c.rows
    ensures var c' := GrantEach(c, user, order, Invalid).0;
            db in c'.databases && (user, Connect) in c'.databases[db].self && (user, db) !in c'.rows
    decreases |order|
  {
    if order != [] && Reachable(c, user, order[0]) {
      InvalidGrants(Grant(c, user, order[0], Invalid), user, order[1..], db);
    }
  }

  /** Granting an invalid level on a present database leaves access there that no row records. */
  lemma InvalidGrantEscapes(c: Cluster, user: string, order: seq<string>)
    requires order != [] && Present(c, user, order[0]) && (user, order[0]) !in c.rows
    ensures !Covered(GrantEach(c, user, order, Invalid).0)
  {
    var db := order[0];
    var granted := Grant(c, user, db, Invalid);
    assert (user, Connect) in granted.databases[db].self;
    if Reachable(c, user, db) { InvalidGrants(granted, user, order[1..], db); }
    var c' := GrantEach(c, user, order, Invalid).0;
    assert !Clean(c', user, db);
  }

  /** template0 takes the first GRANT, and the update stops there. */
  lemma UnconnectedGrantEscapes(c: Cluster, user: string, order: seq<string>, level: Level)
    requires order != [] && order[0] == NO_CONNECTIONS && Present(c, user, NO_CONNECTIONS) && (user, NO_CONNECTIONS) !in c.rows
    ensures var (c', ok) := GrantEach(c, user, order, level); !ok && !Covered(c')
  {
    var c' := GrantEach(c, user, order, level).0;
    assert (user, Connect) in c'.databases[NO_CONNECTIONS].self;
    assert !Clean(c', user, NO_CONNECTIONS);
  }

  lemma SomeCurrent(c: Cluster, user: string) returns (level: Level)
    ensures IsCurrent(c, user, level)
  {
    if n :| n in RowsOf(c, user) { level := c.rows[(user, n)]; } else { level := Write; }
  }

  /** Any added database may be the first one granted. */
  lemma ScheduleStartingAt(c: Cluster, user: string, list: seq<string>, access: Option<Level>, db: string) returns (sch: Schedule)
    requires db in ToSet(list) - RowsOf(c, user)
    ensures Scheduled(c, user, Some(list), access, sch) && sch.granted != [] && sch.granted[0] == db
  {
    var held, wanted := RowsOf(c, user), ToSet(list);
    var current := SomeCurrent(c, user);
    var revoked, _ := Complete([], held - wanted, held - wanted);
    var granted, _ := Complete([db], wanted - held - {db}, wanted - held);
    sch := Schedule(current, revoked, granted, []);
    var mid := UpdateList(c, user, Some(list), access, sch).0;
    var releveled, _ := Complete([], RowsOf(mid, user), RowsOf(mid, user));
    sch := sch.(releveled := releveled);
    assert UpdateList(c, user, Some(list), access, sch).0 == mid;
  }

  lemma WithdrawsMeans(c: Cluster, user: string, list: seq<string>, sch: Schedule)
    requires Sound(c) && user in c.roles && Withdraws(c, user, list)
    requires Enumerates(sch.revoked, RowsOf(c, user) - ToSet(list))
    ensures var (mid, ok) := RevokeEach(c, user, sch.revoked);
            ok && mid == Withdraw(c, user, RowsOf(c, user) - ToSet(list))
  {
    EnumeratesSet(sch.revoked, RowsOf(c, user) - ToSet(list));
    RevokeEachEffect(c, user, sch.revoked);
  }

  lemma EscapingRun(c: Cluster, user: string, list: seq<string>, access: Option<Level>, db: string, sch: Schedule)
    requires Covered(c) && user in c.roles && Withdraws(c, user, list)
    requires Scheduled(c, user, Some(list), access, sch) && sch.granted != [] && sch.granted[0] == db
    requires db in c.databases && db !in RowsOf(c, user) && (access == Some(Invalid) || db == NO_CONNECTIONS)
    ensures !Covered(UpdateUserRun(c, user, Some(list), access, sch).0)
  {
    WithdrawsMeans(c, user, list, sch);
    CurrentIsValid(c, user, sch.current);
    var mid := RevokeEach(c, user, sch.revoked).0;
    assert (user, db) !in mid.rows && Present(mid, user, db);
    var level := if access.Some? then access.value else sch.current;
    if level == Invalid {
      InvalidGrantEscapes(mid, user, sch.granted);
    } else {
      UnconnectedGrantEscapes(mid, user, sch.granted, level);
    }
  }

  /** An update that fails the check of Recorded has a run after which someone holds what no row records. */
  lemma UnrecordedUpdateEscapes(c: Cluster, user: string, list: seq<string>, access: Option<Level>) returns (sch: Schedule)
    requires Covered(c) && !Recorded(c, user, list, access)
    ensures Scheduled(c, user, Some(list), access, sch)
    ensures !Covered(UpdateUserRun(c, user, Some(list), access, sch).0)
  {
    var db: string;
    if access == Some(Invalid) {
      db :| db in list && db !in RowsOf(c, user) && db in c.databases;
    } else {
      db := NO_CONNECTIONS;
    }
    sch := ScheduleStartingAt(c, user, list, access, db);
    EscapingRun(c, user, list, access, db, sch);
  }

  lemma HarmfulHasOutcome(c: Cluster, r: Request) returns (c': Cluster, ok: bool)
    requires Covered(c) && !Harmless(c, r)
    ensures Step(c, r, c', ok) && !Covered(c')
  {
    match r
    case UpdateUser(user, list, access) =>
      var sch := UnrecordedUpdateEscapes(c, user, list.value, access);
      c', ok := UpdateUserRun(c, user, list, access, sch).0, UpdateUserRun(c, user, list, access, sch).1;
    case CreateDatabase(name) =>
      CreateDatabaseCovered(c, name);
      c', ok := CreateDatabaseRun(c, name), true;
    case DeleteUser(user) =>
      PinnedDeleteEscapes(c, user);
      c', ok := DeleteUserRun(c, user), true;
  }

  /** Every outcome of a request keeps privileges within the metadata exactly when the request is harmless. */
  lemma CoverKeptIff(c: Cluster, r: Request)
    requires Covered(c)
    ensures (forall c', ok :: Step(c, r, c', ok) ==> Covered(c')) <==> Harmless(c, r)
  {
    if Harmless(c, r) {
      forall c', ok | Step(c, r, c', ok) { CoveredStep(c, r, c', ok); }
    } else {
      var c', ok := HarmfulHasOutcome(c, r);
    }
  }

  /**
   The level is validated only after the database diff.  An update with an invalid level always fails, and
   no order of its loops leaves unrecorded access exactly when some database to revoke is missing or none to add exists.
   */
  lemma InvalidLevelEscapesMetadata(c: Cluster, user: string, list: seq<string>)
    requires Covered(c) && user in c.roles
    ensures forall sch :: Scheduled(c, user, Some(list), Some(Invalid), sch) ==> !UpdateUserRun(c, user, Some(list), Some(Invalid), sch).1
    ensures (forall sch :: Scheduled(c, user, Some(list), Some(Invalid), sch) ==>
                             Covered(UpdateUserRun(c, user, Some(list), Some(Invalid), sch).0)) <==>
            || (exists n :: n in RowsOf(c, user) && n !in list && n !in c.databases)
            || (forall n :: n in list && n !in RowsOf(c, user) ==> n !in c.databases)
  {
    var r := UpdateUser(user, Some(list), Some(Invalid));
    if Harmless(c, r) {
      forall sch | Scheduled(c, user, Some(list), Some(Invalid), sch)
        ensures Covered(UpdateUserRun(c, user, Some(list), Some(Invalid), sch).0)
      {
        UpdateUserCovered(c, user, Some(list), Some(Invalid), sch);
      }
    } else {
      var sch := UnrecordedUpdateEscapes(c, user, list, Some(Invalid));
    }
  }

  // ---------- template1 ----------

  /**
   UpdateUser accepts template1.  A database created after a successful update starts out with nobody
   holding anything in it exactly when the list did not name template1 and no other user's row does.
   */
  lemma NewDatabaseIsCleanIff(c: Cluster, user: string, list: seq<string>, access: Option<Level>, sch: Schedule, name: string)
    requires Exact(c) && Scheduled(c, user, Some(list), access, sch) && UpdateUserRun(c, user, Some(list), access, sch).1
    requires Creatable(c, name)
    ensures var later := CreateDatabaseRun(UpdateUserRun(c, user, Some(list), access, sch).0, name);
            && name in later.databases && (forall u :: (u, name) !in later.rows)
            && ((forall u :: Clean(later, u, name)) <==>
                TEMPLATE !in list && forall u :: (u, TEMPLATE) in c.rows ==> u == user)
  {
    var c' := UpdateUserRun(c, user, Some(list), access, sch).0;
    UpdateDiffIsExact(c, user, list, access, sch);
    UpdateUserExact(c, user, Some(list), access, sch);
    assert Creatable(c', name);
    NewDatabaseIff(c', name);
    NewName(c', name);
    TemplateRows(c, c', user, list, access, sch.current);
  }

  lemma TemplateRows(c: Cluster, c': Cluster, user: string, list: seq<string>, access: Option<Level>, current: Level)
    requires DiffApplied(c, c', user, list, access, current)
    ensures (forall u :: (u, TEMPLATE) !in c'.rows) <==> TEMPLATE !in list && forall u :: (u, TEMPLATE) in c.rows ==> u == user
  {
    assert forall u :: (u, TEMPLATE) in c'.rows <==> if u == user then TEMPLATE in list else (u, TEMPLATE) in c.rows;
    if TEMPLATE in list { assert (user, TEMPLATE) in c'.rows; }
  }
}
