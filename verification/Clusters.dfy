/**
 PostgreSQL users of the managed databases: roles, the managed_users table
 beside them, and the requests that must keep the two together.
 */
module Clusters {
  import opened Prelude
  import opened Text
  import opened Privileges

  // ---------- The cluster ----------

  const APP := "pgmanager"
  const TEMPLATE := "template1"
  const NO_CONNECTIONS := "template0"
  const PROTECTED := {"template0", "template1", "postgres", "pgmanager"}

  /** Roles, databases, and the managed_users and pgbouncer_databases tables. */
  datatype Cluster = Cluster(
    roles: set<string>,
    databases: map<string, Database>,
    rows: map<(string, string), Level>,
    listed: map<string, bool>)

  function RowsOf(c: Cluster, user: string): (names: set<string>)
    ensures forall n :: n in names <==> (user, n) in c.rows
  {
    set k | k in c.rows && k.0 == user :: k.1
  }

  /** Statements naming a missing role or database fail. */
  predicate Present(c: Cluster, user: string, db: string) {
    user in c.roles && db in c.databases
  }

  /** Most statements need a connection to the database as well, and template0 takes none. */
  predicate Reachable(c: Cluster, user: string, db: string) {
    Present(c, user, db) && db != NO_CONNECTIONS
  }

  function WithDb(c: Cluster, db: string, d: Database): Cluster {
    c.(databases := c.databases[db := d])
  }

  /** The GRANT on the database comes first, and stays when no connection can be made for the rest. */
  function Grant(c: Cluster, user: string, db: string, level: Level): Cluster {
    if !Present(c, user, db) then c
    else if db == NO_CONNECTIONS then WithDb(c, db, GrantOn(c.databases[db], OnDatabase, user, {Connect}))
    else WithDb(c, db, Entitle(c.databases[db], user, RightsOf(level)))
  }

  function Revoke(c: Cluster, user: string, db: string): Cluster {
    if !Present(c, user, db) then c
    else if db == NO_CONNECTIONS then WithDb(c, db, RevokeOn(c.databases[db], OnDatabase, user))
    else WithDb(c, db, Strip(c.databases[db], user))
  }

  /** DROP OWNED BY as one database sees it: run there, or elsewhere in the cluster. */
  function DropOwnedAt(d: Database, user: string, here: bool): Database {
    if here then Strip(d, user) else d.(self := Without(d.self, user))
  }

  /** The connected bootstrap superuser and the predefined roles: the server drops neither them nor what they hold. */
  predicate Pinned(user: string) {
    user == APP || HasPrefix(user, "pg_")
  }

  /** DROP OWNED BY run in each named database: everything there, and the access to every database. */
  function DropOwned(c: Cluster, user: string, names: set<string>): Cluster {
    if user !in c.roles || Pinned(user) || names !! c.databases.Keys then c
    else c.(databases := map n | n in c.databases :: DropOwnedAt(c.databases[n], user, n in names))
  }

  /** A role that still holds something somewhere cannot be dropped. */
  ghost predicate Bare(c: Cluster, user: string) {
    forall n :: n in c.databases ==> Holds(c.databases[n], user, NO_RIGHTS)
  }

  ghost function DropRole(c: Cluster, user: string): Cluster {
    if Bare(c, user) && !Pinned(user) then c.(roles := c.roles - {user}) else c
  }

  function WithRow(c: Cluster, user: string, db: string, level: Level): Cluster {
    c.(rows := c.rows[(user, db) := level])
  }

  function WithoutRows(c: Cluster, user: string, names: set<string>): Cluster {
    c.(rows := map k | k in c.rows && !(k.0 == user && k.1 in names) :: c.rows[k])
  }

  // ---------- Requests ----------

  function CreateEach(c: Cluster, user: string, dbs: seq<string>, level: Level): (Cluster, bool)
    decreases |dbs|
  {
    if dbs == [] then (c, true)
    else if dbs[0] !in c.databases then (c, false)
    else
      var granted := Grant(c, user, dbs[0], level);
      if !Reachable(c, user, dbs[0]) || (user, dbs[0]) in c.rows then (granted, false)
      else CreateEach(WithRow(granted, user, dbs[0], level), user, dbs[1..], level)
  }

  ghost function Rollback(c: Cluster, user: string): Cluster {
    DropRole(DropOwned(c, user, RowsOf(c, user) - {NO_CONNECTIONS} + {APP}), user)
  }

  /** Names CREATE ROLE refuses. */
  predicate Reserved(user: string) {
    HasPrefix(user, "pg_") || user == "public" || user == "none"
  }

  predicate CreateOk(user: string, dbs: seq<string>, level: Level) {
    && |user| <= 63 && ValidName(user) && !Reserved(user)
    && dbs != [] && (forall i :: 0 <= i < |dbs| ==> dbs[i] !in PROTECTED)
    && level != Invalid
  }

  ghost function CreateUserRun(c: Cluster, user: string, dbs: seq<string>, level: Level): (Cluster, bool) {
    if !CreateOk(user, dbs, level) || user in c.roles then (c, false)
    else
      var (c', ok) := CreateEach(c.(roles := c.roles + {user}), user, dbs, level);
      if ok then (c', true) else (Rollback(c', user), false)
  }

  function RevokeEach(c: Cluster, user: string, order: seq<string>): (Cluster, bool)
    decreases |order|
  {
    if order == [] then (c, true)
    else if !Reachable(c, user, order[0]) then (Revoke(c, user, order[0]), false)
    else RevokeEach(WithoutRows(Revoke(c, user, order[0]), user, {order[0]}), user, order[1..])
  }

  /** The row of an invalid level violates the table's CHECK; the error is ignored. */
  function GrantEach(c: Cluster, user: string, order: seq<string>, level: Level): (Cluster, bool)
    decreases |order|
  {
    if order == [] then (c, true)
    else if !Reachable(c, user, order[0]) then (Grant(c, user, order[0], level), false)
    else
      var granted := Grant(c, user, order[0], level);
      GrantEach(if level == Invalid then granted else WithRow(granted, user, order[0], level), user, order[1..], level)
  }

  function RelevelEach(c: Cluster, user: string, order: seq<string>, level: Level): (Cluster, bool)
    decreases |order|
  {
    if order == [] then (c, true)
    else if !Reachable(c, user, order[0]) then (Revoke(c, user, order[0]), false)
    else RelevelEach(Grant(Revoke(c, user, order[0]), user, order[0], level), user, order[1..], level)
  }

  function ToSet(s: seq<string>): (r: set<string>)
    ensures forall n :: n in r <==> n in s
  {
    set n | n in s
  }

  /** The level a request falls back to: some row of the user's, or "write". */
  ghost predicate IsCurrent(c: Cluster, user: string, level: Level) {
    if RowsOf(c, user) == {} then level == Write
    else exists n :: (user, n) in c.rows && c.rows[(user, n)] == level
  }

  /** The choices a run of UpdateUser leaves to map iteration and to unordered SELECTs. */
  datatype Schedule = Schedule(current: Level, revoked: seq<string>, granted: seq<string>, releveled: seq<string>)

  function UpdateDatabases(c: Cluster, user: string, level: Level, sch: Schedule): (Cluster, bool) {
    var (c', ok) := RevokeEach(c, user, sch.revoked);
    if ok then GrantEach(c', user, sch.granted, level) else (c', false)
  }

  function SetLevels(c: Cluster, user: string, level: Level): Cluster {
    c.(rows := map k | k in c.rows :: if k.0 == user then level else c.rows[k])
  }

  function UpdateLevel(c: Cluster, user: string, level: Level, sch: Schedule): (Cluster, bool) {
    if level == Invalid then (c, false)
    else
      var (c', ok) := RelevelEach(c, user, sch.releveled, level);
      if ok then (SetLevels(c', user, level), true) else (c', false)
  }

  function UpdateList(c: Cluster, user: string, list: Option<seq<string>>, access: Option<Level>, sch: Schedule): (Cluster, bool) {
    if list == None then (c, true)
    else UpdateDatabases(c, user, if access.Some? then access.value else sch.current, sch)
  }

  /** First the database diff, then, if one was given, the new level; its validity is checked in between. */
  function UpdateUserRun(c: Cluster, user: string, list: Option<seq<string>>, access: Option<Level>, sch: Schedule): (Cluster, bool) {
    if user !in c.roles then (c, false)
    else
      var (mid, ok) := UpdateList(c, user, list, access, sch);
      if ok && access.Some? then UpdateLevel(mid, user, access.value, sch) else (mid, ok)
  }

  /** The schedules the request's loops can follow. */
  ghost predicate Scheduled(c: Cluster, user: string, list: Option<seq<string>>, access: Option<Level>, sch: Schedule) {
    && IsCurrent(c, user, sch.current)
    && (list.Some? ==>
          && Enumerates(sch.revoked, RowsOf(c, user) - ToSet(list.value))
          && Enumerates(sch.granted, ToSet(list.value) - RowsOf(c, user)))
    && Enumerates(sch.releveled, RowsOf(UpdateList(c, user, list, access, sch).0, user))
  }

  ghost predicate AddDatabaseRun(c: Cluster, user: string, db: string, c': Cluster, ok: bool) {
    if db in PROTECTED || db == "" || !Reachable(c, user, db) || (user, db) in c.rows || RowsOf(c, user) == {} then
      c' == c && !ok
    else exists level :: IsCurrent(c, user, level) && ok && c' == WithRow(Grant(c, user, db, level), user, db, level)
  }

  ghost function RemoveDatabaseRun(c: Cluster, user: string, db: string): Cluster {
    var c' := Revoke(WithoutRows(c, user, {db}), user, db);
    if RowsOf(c', user) == {} then DropRole(DropOwned(c', user, {APP}), user) else c'
  }

  ghost function DeleteUserRun(c: Cluster, user: string): Cluster {
    WithoutRows(DropRole(DropOwned(c, user, RowsOf(c, user) - {NO_CONNECTIONS}), user), user, RowsOf(c, user))
  }

  predicate CreateDatabaseOk(name: string) {
    |name| <= 63 && ValidName(name) && name !in PROTECTED
  }

  /** What a copy starts with: every access list but the database's own. */
  function Copy(d: Database): Database {
    d.(self := {})
  }

  predicate Creatable(c: Cluster, name: string) {
    CreateDatabaseOk(name) && name !in c.databases && TEMPLATE in c.databases
  }

  /** CREATE DATABASE copies template1, access lists included; only the database's own list starts empty. */
  function CreateDatabaseRun(c: Cluster, name: string): Cluster {
    if !Creatable(c, name) then c
    else
      WithDb(c, name, Copy(c.databases[TEMPLATE]))
      .(listed := if name in c.listed then c.listed else c.listed[name := true])
  }

  predicate Deletable(c: Cluster, name: string) {
    name != "" && name !in PROTECTED && name in c.databases
  }

  function DeleteDatabaseRun(c: Cluster, name: string): Cluster {
    if !Deletable(c, name) then c
    else c.(databases := c.databases - {name}, listed := c.listed - {name})
  }

  function ToggleRun(c: Cluster, name: string, allowed: bool): Cluster {
    if ValidName(name) && name in c.listed then c.(listed := c.listed[name := allowed]) else c
  }

  /** New tables and sequences start with the default privileges. */
  function CreateTableRun(c: Cluster, db: string, table: string): Cluster {
    if db !in c.databases || table in c.databases[db].tables then c
    else
      var d := c.databases[db];
      WithDb(c, db, d.(tables := d.tables[table := d.futureTables]))
  }

  function CreateSequenceRun(c: Cluster, db: string, name: string): Cluster {
    if db !in c.databases || name in c.databases[db].sequences then c
    else
      var d := c.databases[db];
      WithDb(c, db, d.(sequences := d.sequences[name := d.futureSequences]))
  }

  function DropTableRun(c: Cluster, db: string, table: string): Cluster {
    if db !in c.databases then c
    else WithDb(c, db, c.databases[db].(tables := c.databases[db].tables - {table}))
  }

  function DropSequenceRun(c: Cluster, db: string, name: string): Cluster {
    if db !in c.databases then c
    else WithDb(c, db, c.databases[db].(sequences := c.databases[db].sequences - {name}))
  }

  datatype Request =
    | CreateUser(user: string, dbs: seq<string>, level: Level)
    | UpdateUser(user: string, list: Option<seq<string>>, access: Option<Level>)
    | AddUserDatabase(user: string, db: string)
    | RemoveUserDatabase(user: string, db: string)
    | DeleteUser(user: string)
    | CreateDatabase(db: string)
    | DeleteDatabase(db: string)
    | ToggleDatabase(db: string, allowed: bool)
    | CreateTable(db: string, object: string)
    | CreateSequence(db: string, object: string)
    | DropTable(db: string, object: string)
    | DropSequence(db: string, object: string)

  /** One request takes the cluster from c to c'; `ok` is whether it was answered with success. */
  ghost predicate Step(c: Cluster, r: Request, c': Cluster, ok: bool) {
    match r
    case CreateUser(user, dbs, level) => (c', ok) == CreateUserRun(c, user, dbs, level)
    case UpdateUser(user, list, access) =>
      exists sch :: Scheduled(c, user, list, access, sch) && (c', ok) == UpdateUserRun(c, user, list, access, sch)
    case AddUserDatabase(user, db) => AddDatabaseRun(c, user, db, c', ok)
    case RemoveUserDatabase(user, db) =>
      if user == "" || db == "" then c' == c && !ok else c' == RemoveDatabaseRun(c, user, db) && ok
    case DeleteUser(user) => if user == "" then c' == c && !ok else c' == DeleteUserRun(c, user) && ok
    case CreateDatabase(db) =>
      c' == CreateDatabaseRun(c, db) && ok == Creatable(c, db)
    case DeleteDatabase(db) => c' == DeleteDatabaseRun(c, db) && ok == Deletable(c, db)
    case ToggleDatabase(db, allowed) => c' == ToggleRun(c, db, allowed) && ok == (ValidName(db) && db in c.listed)
    case CreateTable(db, table) => c' == CreateTableRun(c, db, table)
    case CreateSequence(db, name) => c' == CreateSequenceRun(c, db, name)
    case DropTable(db, table) => c' == DropTableRun(c, db, table)
    case DropSequence(db, name) => c' == DropSequenceRun(c, db, name)
  }
}
