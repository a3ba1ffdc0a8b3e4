/**
 Access lists and the levels granted on them.  Only privileges granted
 explicitly by the application's own role are represented.
 */
module Privileges {
  datatype Privilege =
    | Select | Insert | Update | Delete | Truncate | References | Trigger | Maintain
    | Usage | Create | Connect | Temporary

  /** One object's access list: who holds what. */
  type Acl = set<(string, Privilege)>

  function Granting(acl: Acl, user: string, privileges: set<Privilege>): (r: Acl)
    ensures forall u, p :: (u, p) in r <==> (u, p) in acl || (u == user && p in privileges)
  {
    acl + set p | p in privileges :: (user, p)
  }

  function Without(acl: Acl, user: string): (r: Acl)
    ensures forall u, p :: (u, p) in r <==> (u, p) in acl && u != user
  {
    set g | g in acl && g.0 != user
  }

  /** The user holds these privileges on the object and no others. */
  ghost predicate HoldsOn(acl: Acl, user: string, privileges: set<Privilege>) {
    forall p :: (user, p) in acl <==> p in privileges
  }

  ghost predicate SameOn(a: Acl, b: Acl, user: string) {
    forall p :: (user, p) in a <==> (user, p) in b
  }

  /** `future*` are the default privileges for objects created later in schema public. */
  datatype Database = Database(
    self: Acl,
    schema: Acl,
    tables: map<string, Acl>,
    sequences: map<string, Acl>,
    futureTables: Acl,
    futureSequences: Acl)

  datatype Target = OnDatabase | OnSchema | OnTables | OnSequences | OnFutureTables | OnFutureSequences

  function GrantAll(acls: map<string, Acl>, user: string, privileges: set<Privilege>): map<string, Acl> {
    map t | t in acls :: Granting(acls[t], user, privileges)
  }

  function RevokeAll(acls: map<string, Acl>, user: string): map<string, Acl> {
    map t | t in acls :: Without(acls[t], user)
  }

  /** GRANT, or ALTER DEFAULT PRIVILEGES ... GRANT. */
  function GrantOn(d: Database, target: Target, user: string, privileges: set<Privilege>): Database {
    match target
    case OnDatabase => d.(self := Granting(d.self, user, privileges))
    case OnSchema => d.(schema := Granting(d.schema, user, privileges))
    case OnTables => d.(tables := GrantAll(d.tables, user, privileges))
    case OnSequences => d.(sequences := GrantAll(d.sequences, user, privileges))
    case OnFutureTables => d.(futureTables := Granting(d.futureTables, user, privileges))
    case OnFutureSequences => d.(futureSequences := Granting(d.futureSequences, user, privileges))
  }

  /** REVOKE ALL, or ALTER DEFAULT PRIVILEGES ... REVOKE ALL. */
  function RevokeOn(d: Database, target: Target, user: string): Database {
    match target
    case OnDatabase => d.(self := Without(d.self, user))
    case OnSchema => d.(schema := Without(d.schema, user))
    case OnTables => d.(tables := RevokeAll(d.tables, user))
    case OnSequences => d.(sequences := RevokeAll(d.sequences, user))
    case OnFutureTables => d.(futureTables := Without(d.futureTables, user))
    case OnFutureSequences => d.(futureSequences := Without(d.futureSequences, user))
  }

  // ---------- Access levels ----------

  /** Invalid stands for every string that is not one of the four levels. */
  datatype Level = Read | Write | Ddl | Full | Invalid

  datatype Rights = Rights(
    database: set<Privilege>,
    schema: set<Privilege>,
    tables: set<Privilege>,
    sequences: set<Privilege>)

  const NO_RIGHTS := Rights({}, {}, {}, {})
  const ROW_CHANGES := {Select, Insert, Update, Delete}
  const ALL_ON_DATABASE := {Connect, Create, Temporary}
  const ALL_ON_SCHEMA := {Usage, Create}
  const ALL_ON_TABLES := {Select, Insert, Update, Delete, Truncate, References, Trigger, Maintain}
  const ALL_ON_SEQUENCES := {Usage, Select, Update}

  /** What a level means.  An invalid level still connects: the statements before the switch run. */
  function RightsOf(level: Level): Rights {
    match level
    case Read => Rights({Connect}, {Usage}, {Select}, {})
    case Write => Rights({Connect}, {Usage}, ROW_CHANGES, {Usage, Select})
    case Ddl => Rights({Connect, Create}, {Usage, Create}, ROW_CHANGES, {Usage, Select})
    case Full => Rights(ALL_ON_DATABASE, ALL_ON_SCHEMA, ALL_ON_TABLES, ALL_ON_SEQUENCES)
    case Invalid => Rights({Connect}, {Usage}, {}, {})
  }

  predicate Includes(big: Rights, small: Rights) {
    && small.database <= big.database
    && small.schema <= big.schema
    && small.tables <= big.tables
    && small.sequences <= big.sequences
  }

  /** The user holds exactly these rights, on every present table and sequence and by default on later ones. */
  ghost predicate Holds(d: Database, user: string, r: Rights) {
    && HoldsOn(d.self, user, r.database)
    && HoldsOn(d.schema, user, r.schema)
    && (forall t :: t in d.tables ==> HoldsOn(d.tables[t], user, r.tables))
    && (forall q :: q in d.sequences ==> HoldsOn(d.sequences[q], user, r.sequences))
    && HoldsOn(d.futureTables, user, r.tables)
    && HoldsOn(d.futureSequences, user, r.sequences)
  }

  function Entitle(d: Database, user: string, r: Rights): Database {
    Database(
      Granting(d.self, user, r.database),
      Granting(d.schema, user, r.schema),
      GrantAll(d.tables, user, r.tables),
      GrantAll(d.sequences, user, r.sequences),
      Granting(d.futureTables, user, r.tables),
      Granting(d.futureSequences, user, r.sequences))
  }

  function Strip(d: Database, user: string): Database {
    Database(
      Without(d.self, user),
      Without(d.schema, user),
      RevokeAll(d.tables, user),
      RevokeAll(d.sequences, user),
      Without(d.futureTables, user),
      Without(d.futureSequences, user))
  }

  /** Two databases in which a user holds the same, object by object. */
  ghost predicate SameHoldings(d: Database, e: Database, user: string) {
    && SameOn(d.self, e.self, user)
    && SameOn(d.schema, e.schema, user)
    && d.tables.Keys == e.tables.Keys
    && (forall t :: t in d.tables ==> SameOn(d.tables[t], e.tables[t], user))
    && d.sequences.Keys == e.sequences.Keys
    && (forall q :: q in d.sequences ==> SameOn(d.sequences[q], e.sequences[q], user))
    && SameOn(d.futureTables, e.futureTables, user)
    && SameOn(d.futureSequences, e.futureSequences, user)
  }

  lemma StripHolds(d: Database, user: string, other: string)
    ensures Holds(Strip(d, user), user, NO_RIGHTS)
    ensures other != user ==> SameHoldings(d, Strip(d, user), other)
  {
  }

  lemma EntitleHolds(d: Database, user: string, r: Rights, other: string)
    ensures Holds(d, user, NO_RIGHTS) ==> Holds(Entitle(d, user, r), user, r)
    ensures other != user ==> SameHoldings(d, Entitle(d, user, r), other)
  {
  }

  /** Changing a level leaves nothing of the old one. */
  lemma RelevelLeavesNothing(d: Database, user: string, r: Rights)
    ensures Holds(Entitle(Strip(d, user), user, r), user, r)
  {
    StripHolds(d, user, user);
    EntitleHolds(Strip(d, user), user, r, user);
  }

  lemma LevelsNest()
    ensures Includes(RightsOf(Write), RightsOf(Read))
    ensures Includes(RightsOf(Ddl), RightsOf(Write))
    ensures Includes(RightsOf(Full), RightsOf(Ddl))
    ensures forall a, b :: a != b ==> RightsOf(a) != RightsOf(b)
  {
    assert Temporary in RightsOf(Full).database && Temporary !in RightsOf(Ddl).database;
    assert Create in RightsOf(Ddl).schema && Create !in RightsOf(Write).schema;
    assert Insert in RightsOf(Write).tables && Insert !in RightsOf(Read).tables;
    assert Select in RightsOf(Read).tables && Select !in RightsOf(Invalid).tables;
  }

  // ---------- The levels, privilege by privilege ----------

  /**
   What the user can do in a database: on it, on its schema, on each of its tables and sequences, and
   by default on each that is created later.
   */
  ghost predicate Can(
    d: Database, user: string, onDatabase: set<Privilege>, onSchema: set<Privilege>, onTables: set<Privilege>,
    onSequences: set<Privilege>)
  {
    && HoldsOn(d.self, user, onDatabase)
    && HoldsOn(d.schema, user, onSchema)
    && (forall t :: t in d.tables ==> HoldsOn(d.tables[t], user, onTables))
    && (forall q :: q in d.sequences ==> HoldsOn(d.sequences[q], user, onSequences))
    && HoldsOn(d.futureTables, user, onTables)
    && HoldsOn(d.futureSequences, user, onSequences)
  }

  ghost predicate CanDo(d: Database, user: string, level: Level) {
    match level
    case Read => Can(d, user, {Connect}, {Usage}, {Select}, {})
    case Write => Can(d, user, {Connect}, {Usage}, {Select, Insert, Update, Delete}, {Usage, Select})
    case Ddl => Can(d, user, {Connect, Create}, {Usage, Create}, {Select, Insert, Update, Delete}, {Usage, Select})
    case Full =>
      Can(d, user, {Connect, Create, Temporary}, {Usage, Create},
          {Select, Insert, Update, Delete, Truncate, References, Trigger, Maintain}, {Usage, Select, Update})
    case Invalid => Can(d, user, {Connect}, {Usage}, {}, {})
  }

  lemma HoldsIsCan(d: Database, user: string, r: Rights)
    ensures Holds(d, user, r) <==> Can(d, user, r.database, r.schema, r.tables, r.sequences)
  {
  }

  /** Entitled to a level, somebody who could do nothing can do exactly what the level is for. */
  lemma EntitlePermits(d: Database, user: string, level: Level)
    requires Can(d, user, {}, {}, {}, {})
    ensures CanDo(Entitle(d, user, RightsOf(level)), user, level)
  {
    HoldsIsCan(d, user, NO_RIGHTS);
    EntitleHolds(d, user, RightsOf(level), user);
    HoldsIsCan(Entitle(d, user, RightsOf(level)), user, RightsOf(level));
  }
}
