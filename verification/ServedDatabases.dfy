/** The database requests and the pgbouncer.ini rebuild together: what clients can reach after any run. */
module ServedDatabases {
  import opened Prelude
  import opened Text
  import opened Privileges
  import C = Clusters
  import R = ClusterRules
  import S = ClusterSafety
  import I = PgBouncerIni

  /** SELECT database_name FROM pgbouncer_databases WHERE allowed = true, in some order. */
  ghost predicate IsAllowedList(c: C.Cluster, names: seq<string>) {
    forall n :: n in names <==> n in c.listed && c.listed[n]
  }

  /** Whatever is listed has a valid name; pgbouncer_databases starts out with the system databases. */
  ghost predicate ListedValid(c: C.Cluster) {
    forall n :: n in c.listed ==> ValidName(n)
  }

  lemma AllowedNamesAreValid(c: C.Cluster, names: seq<string>)
    requires ListedValid(c) && IsAllowedList(c, names)
    ensures I.ValidNames(names)
  {
    forall i | 0 <= i < |names|
      ensures ValidName(names[i])
    {
      assert names[i] in names;
    }
  }

  predicate ForDatabases(r: C.Request) {
    r.CreateDatabase? || r.DeleteDatabase? || r.ToggleDatabase?
  }

  lemma DatabaseStepListed(c: C.Cluster, r: C.Request, c': C.Cluster, ok: bool)
    requires ListedValid(c) && ForDatabases(r) && C.Step(c, r, c', ok)
    ensures ListedValid(c')
  {
  }

  lemma OtherStepListed(c: C.Cluster, r: C.Request, c': C.Cluster, ok: bool)
    requires !ForDatabases(r) && C.Step(c, r, c', ok)
    ensures c'.listed == c.listed
  {
    if r.CreateUser? || r.UpdateUser? || r.AddUserDatabase? || r.RemoveUserDatabase? || r.DeleteUser? {
      R.OthersAreSpared(c, r, r.user, c', ok);
    }
  }

  /** No request, served or refused, lists an invalid name. */
  lemma ListedStep(c: C.Cluster, r: C.Request, c': C.Cluster, ok: bool)
    requires ListedValid(c) && C.Step(c, r, c', ok)
    ensures ListedValid(c')
  {
    if ForDatabases(r) { DatabaseStepListed(c, r, c', ok); } else { OtherStepListed(c, r, c', ok); }
  }

  lemma {:induction false} ListedRun(c: C.Cluster, turns: seq<S.Turn>)
    requires ListedValid(c) && S.IsRun(c, turns)
    ensures ListedValid(S.End(c, turns))
    decreases |turns|
  {
    if turns != [] {
      ListedStep(c, turns[0].request, turns[0].after, turns[0].ok);
      S.EndAfterFirst(c, turns);
      ListedRun(turns[0].after, turns[1..]);
    }
  }

  /**
   After any run of requests whatever a rebuild over whatever text the file held makes PgBouncer
   serve exactly the databases the table allows.
   */
  lemma RebuildServesAllowed(c: C.Cluster, turns: seq<S.Turn>, content: string, names: seq<string>)
    requires ListedValid(c) && S.IsRun(c, turns) && IsAllowedList(S.End(c, turns), names)
    ensures var end := S.End(c, turns);
            forall n :: n in I.Databases(I.RewriteDatabases(content, names)) <==> n in end.listed && end.listed[n]
  {
    ListedRun(c, turns);
    AllowedNamesAreValid(S.End(c, turns), names);
    I.RewriteServesExactly(content, names);
  }

  /** A database that was switched off, or dropped, is gone from the file at the next rebuild. */
  lemma WithdrawnDatabaseIsNotServed(c: C.Cluster, name: string, drop: bool, content: string, names: seq<string>)
    requires ListedValid(c) && name in c.listed && (drop ==> C.Deletable(c, name))
    requires IsAllowedList(if drop then C.DeleteDatabaseRun(c, name) else C.ToggleRun(c, name, false), names)
    ensures name !in I.Databases(I.RewriteDatabases(content, names))
    ensures forall n :: n != name ==>
              (n in I.Databases(I.RewriteDatabases(content, names)) <==> n in c.listed && c.listed[n])
  {
    var after := if drop then C.DeleteDatabaseRun(c, name) else C.ToggleRun(c, name, false);
    assert ValidName(name);
    forall i | 0 <= i < |names|
      ensures ValidName(names[i])
    {
      assert names[i] in names;
    }
    I.RewriteServesExactly(content, names);
  }

  // ---------- The latest word on a database ----------

  /** What a served request says about a database's listing: allowed, switched off, or none. */
  function Listing(was: Option<bool>, turn: S.Turn, name: string): Option<bool> {
    if !turn.ok then was
    else match turn.request
      case CreateDatabase(db) => if db == name && was == None then Some(true) else was
      case DeleteDatabase(db) => if db == name then None else was
      case ToggleDatabase(db, allowed) => if db == name then Some(allowed) else was
      case _ => was
  }

  function LatestListing(was: Option<bool>, turns: seq<S.Turn>, name: string): Option<bool>
    decreases |turns|
  {
    if turns == [] then was else LatestListing(Listing(was, turns[0], name), turns[1..], name)
  }

  function Listed(c: C.Cluster, name: string): Option<bool> {
    if name in c.listed then Some(c.listed[name]) else None
  }

  lemma ListingStep(c: C.Cluster, turn: S.Turn, name: string)
    requires C.Step(c, turn.request, turn.after, turn.ok)
    ensures Listed(turn.after, name) == Listing(Listed(c, name), turn, name)
  {
    if !ForDatabases(turn.request) { OtherStepListed(c, turn.request, turn.after, turn.ok); }
  }

  /** In every run the table says of each database what the latest served request about it said. */
  lemma {:induction false} ListingsFollowRequests(c: C.Cluster, turns: seq<S.Turn>, name: string)
    requires S.IsRun(c, turns)
    ensures Listed(S.End(c, turns), name) == LatestListing(Listed(c, name), turns, name)
    decreases |turns|
  {
    if turns != [] {
      ListingStep(c, turns[0], name);
      S.EndAfterFirst(c, turns);
      ListingsFollowRequests(turns[0].after, turns[1..], name);
    }
  }

  /**
   After any run of requests and the rebuild that follows, over whatever text the file held, a database is
   served exactly when the latest request about it allows it: its creation, or a toggle that switched it on.
   */
  lemma ServedIffLatestAllows(c: C.Cluster, turns: seq<S.Turn>, content: string, names: seq<string>, name: string)
    requires ListedValid(c) && S.IsRun(c, turns) && IsAllowedList(S.End(c, turns), names)
    ensures name in I.Databases(I.RewriteDatabases(content, names)) <==>
            LatestListing(Listed(c, name), turns, name) == Some(true)
  {
    RebuildServesAllowed(c, turns, content, names);
    ListingsFollowRequests(c, turns, name);
  }

  lemma ToggleServes(c: C.Cluster, name: string, allowed: bool, content: string, after: seq<string>)
    requires ListedValid(c) && ValidName(name) && name in c.listed
    requires IsAllowedList(C.ToggleRun(c, name, allowed), after)
    ensures forall n :: n in I.Databases(I.RewriteDatabases(content, after)) <==>
                        if n == name then allowed else n in c.listed && c.listed[n]
  {
    RebuildServesAllowed(C.ToggleRun(c, name, allowed), [], content, after);
  }

  /** A served toggle: this database is served from the next rebuild on exactly if allowed, every other as before. */
  lemma ToggleDecides(c: C.Cluster, name: string, allowed: bool, content: string, before: seq<string>, after: seq<string>)
    requires ListedValid(c) && ValidName(name) && name in c.listed
    requires IsAllowedList(c, before) && IsAllowedList(C.ToggleRun(c, name, allowed), after)
    ensures name in I.Databases(I.RewriteDatabases(content, after)) <==> allowed
    ensures forall n :: n != name ==>
              (n in I.Databases(I.RewriteDatabases(content, after)) <==> n in I.Databases(I.RewriteDatabases(content, before)))
  {
    RebuildServesAllowed(c, [], content, before);
    ToggleServes(c, name, allowed, content, after);
  }
}
