/** What the access levels let a user do, privilege by privilege. */
module LevelMeanings {
  import opened Prelude
  import opened Privileges
  import opened Clusters
  import opened ClusterSafety
  import opened ClusterExactness

  /** In every run of successful requests a row lets its user do exactly what its level is for, and without one nothing. */
  lemma RowsPermit(c: Cluster, turns: seq<Turn>, user: string, db: string)
    requires Exact(c) && IsRun(c, turns) && ExactRun(c, turns)
    requires db in End(c, turns).databases
    ensures var end := End(c, turns);
            if (user, db) in end.rows then CanDo(end.databases[db], user, end.rows[(user, db)])
            else Can(end.databases[db], user, {}, {}, {}, {})
  {
    GrantsMatchLevels(c, turns);
    var end := End(c, turns);
    assert HasItsDue(end, user, db);
    HoldsIsCan(end.databases[db], user, Due(end, user, db));
  }

  /** A table created later, in any such run, is the user's to read and write exactly as the level says. */
  lemma LaterTablePermits(c: Cluster, turns: seq<Turn>, user: string, db: string, table: string)
    requires Exact(c) && IsRun(c, turns) && ExactRun(c, turns)
    requires (user, db) in End(c, turns).rows && db in End(c, turns).databases && table !in End(c, turns).databases[db].tables
    ensures var end := End(c, turns);
            var later := CreateTableRun(end, db, table);
            && table in later.databases[db].tables
            && var acl := later.databases[db].tables[table];
               match end.rows[(user, db)]
               case Read => HoldsOn(acl, user, {Select})
               case Full => HoldsOn(acl, user, {Select, Insert, Update, Delete, Truncate, References, Trigger, Maintain})
               case _ => HoldsOn(acl, user, {Select, Insert, Update, Delete})
  {
    RowsPermit(c, turns, user, db);
    GrantsMatchLevels(c, turns);
  }
}
