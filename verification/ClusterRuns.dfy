/** The loops of the user requests, whatever order they run in, as operations on sets of databases. */
module ClusterRuns {
  import opened Prelude
  import opened Privileges
  import opened Clusters

  function StripIn(c: Cluster, user: string, names: set<string>): Cluster {
    c.(databases := map n | n in c.databases ::
         if n in names then Strip(c.databases[n], user) else c.databases[n])
  }

  function EntitleIn(c: Cluster, user: string, names: set<string>, level: Level): Cluster {
    c.(databases := map n | n in c.databases ::
         if n in names then Entitle(c.databases[n], user, RightsOf(level)) else c.databases[n])
  }

  function WithRows(c: Cluster, user: string, names: set<string>, level: Level): Cluster {
    c.(rows := map k | k in c.rows.Keys + (set n | n in names :: (user, n)) ::
         if k.0 == user && k.1 in names then level else c.rows[k])
  }

  /** Access granted and recorded in each of the databases. */
  function Admit(c: Cluster, user: string, names: set<string>, level: Level): Cluster {
    WithRows(EntitleIn(c, user, names, level), user, names, level)
  }

  lemma AdmitNone(c: Cluster, user: string, level: Level)
    ensures Admit(c, user, {}, level) == c
  {
    assert EntitleIn(c, user, {}, level).databases == c.databases;
    assert WithRows(c, user, {}, level).rows == c.rows;
  }

  lemma EntitleOne(c: Cluster, user: string, name: string, rest: set<string>, level: Level)
    requires Reachable(c, user, name) && name !in rest
    ensures EntitleIn(Grant(c, user, name, level), user, rest, level) == EntitleIn(c, user, {name} + rest, level)
  {
    assert EntitleIn(Grant(c, user, name, level), user, rest, level).databases ==
           EntitleIn(c, user, {name} + rest, level).databases;
  }

  lemma RowOne(c: Cluster, user: string, name: string, rest: set<string>, level: Level)
    ensures WithRows(WithRow(c, user, name, level), user, rest, level) == WithRows(c, user, {name} + rest, level)
  {
    assert WithRows(WithRow(c, user, name, level), user, rest, level).rows ==
           WithRows(c, user, {name} + rest, level).rows;
  }

  lemma AdmitOne(c: Cluster, user: string, name: string, rest: set<string>, level: Level)
    requires Reachable(c, user, name) && name !in rest
    ensures Admit(WithRow(Grant(c, user, name, level), user, name, level), user, rest, level) ==
            Admit(c, user, {name} + rest, level)
  {
    var granted := Grant(c, user, name, level);
    EntitleOne(c, user, name, rest, level);
    RowOne(EntitleIn(granted, user, rest, level), user, name, rest, level);
    assert EntitleIn(WithRow(granted, user, name, level), user, rest, level) ==
           WithRow(EntitleIn(granted, user, rest, level), user, name, level);
  }

  function RelevelIn(c: Cluster, user: string, names: set<string>, level: Level): Cluster {
    c.(databases := map n | n in c.databases ::
         if n in names then Entitle(Strip(c.databases[n], user), user, RightsOf(level)) else c.databases[n])
  }

  lemma RelevelOne(c: Cluster, user: string, name: string, rest: set<string>, level: Level)
    requires Reachable(c, user, name) && name !in rest
    ensures RelevelIn(Grant(Revoke(c, user, name), user, name, level), user, rest, level) ==
            RelevelIn(c, user, {name} + rest, level)
  {
    assert RelevelIn(Grant(Revoke(c, user, name), user, name, level), user, rest, level).databases ==
           RelevelIn(c, user, {name} + rest, level).databases;
  }

  ghost predicate AllReachable(c: Cluster, user: string, names: set<string>) {
    forall n :: n in names ==> Reachable(c, user, n)
  }

  ghost predicate Distinct(s: seq<string>) {
    forall i, j :: 0 <= i < j < |s| ==> s[i] != s[j]
  }

  lemma DistinctTail(s: seq<string>)
    requires s != [] && Distinct(s)
    ensures Distinct(s[1..]) && s[0] !in s[1..]
    ensures ToSet(s) == {s[0]} + ToSet(s[1..])
  {
    assert forall n :: n in s <==> n == s[0] || n in s[1..];
  }

  lemma {:induction false} RevokeEachEffect(c: Cluster, user: string, order: seq<string>)
    requires Distinct(order)
    ensures RevokeEach(c, user, order).1 <==> AllReachable(c, user, ToSet(order))
    ensures RevokeEach(c, user, order).1 ==>
              RevokeEach(c, user, order).0 == WithoutRows(StripIn(c, user, ToSet(order)), user, ToSet(order))
    decreases |order|
  {
    if order == [] {
      assert WithoutRows(StripIn(c, user, {}), user, {}) == c by {
        assert StripIn(c, user, {}).databases == c.databases;
        assert WithoutRows(c, user, {}).rows == c.rows;
      }
    } else {
      DistinctTail(order);
      assert order[0] in ToSet(order);
      if Reachable(c, user, order[0]) {
        var next := WithoutRows(Revoke(c, user, order[0]), user, {order[0]});
        RevokeEachEffect(next, user, order[1..]);
        ReachableTail(c, next, user, order);
        if RevokeEach(c, user, order).1 {
          var a := WithoutRows(StripIn(next, user, ToSet(order[1..])), user, ToSet(order[1..]));
          var b := WithoutRows(StripIn(c, user, ToSet(order)), user, ToSet(order));
          assert a.databases == b.databases;
          assert a.rows == b.rows;
        }
      }
    }
  }

  lemma GrantMore(c: Cluster, user: string, order: seq<string>, level: Level)
    requires order != [] && Distinct(order) && Reachable(c, user, order[0])
    ensures var next := WithRow(Grant(c, user, order[0], level), user, order[0], level);
            && (AllReachable(c, user, ToSet(order)) <==> AllReachable(next, user, ToSet(order[1..])))
            && Admit(next, user, ToSet(order[1..]), level) == Admit(c, user, ToSet(order), level)
  {
    DistinctTail(order);
    AdmitOne(c, user, order[0], ToSet(order[1..]), level);
    ReachableTail(c, WithRow(Grant(c, user, order[0], level), user, order[0], level), user, order);
  }

  lemma {:induction false} GrantEachEffect(c: Cluster, user: string, order: seq<string>, level: Level)
    requires Distinct(order) && level != Invalid
    ensures GrantEach(c, user, order, level).1 <==> AllReachable(c, user, ToSet(order))
    ensures GrantEach(c, user, order, level).1 ==> GrantEach(c, user, order, level).0 == Admit(c, user, ToSet(order), level)
    decreases |order|
  {
    if order == [] {
      AdmitNone(c, user, level);
    } else if Reachable(c, user, order[0]) {
      GrantEachEffect(WithRow(Grant(c, user, order[0], level), user, order[0], level), user, order[1..], level);
      GrantMore(c, user, order, level);
    } else {
      assert order[0] in ToSet(order);
    }
  }

  lemma ReachableTail(c: Cluster, next: Cluster, user: string, order: seq<string>)
    requires order != [] && Reachable(c, user, order[0])
    requires next.roles == c.roles && next.databases.Keys == c.databases.Keys
    ensures AllReachable(c, user, ToSet(order)) <==> AllReachable(next, user, ToSet(order[1..]))
  {
    assert forall n :: n in order <==> n == order[0] || n in order[1..];
    if AllReachable(next, user, ToSet(order[1..])) {
      forall n | n in ToSet(order)
        ensures Reachable(c, user, n)
      {
        assert n == order[0] || Reachable(next, user, n);
      }
    }
    if AllReachable(c, user, ToSet(order)) {
      forall n | n in ToSet(order[1..])
        ensures Reachable(next, user, n)
      {
        assert n in ToSet(order);
      }
    }
  }

  lemma RelevelMore(c: Cluster, user: string, order: seq<string>, level: Level)
    requires order != [] && Distinct(order) && Reachable(c, user, order[0])
    ensures var next := Grant(Revoke(c, user, order[0]), user, order[0], level);
            && (AllReachable(c, user, ToSet(order)) <==> AllReachable(next, user, ToSet(order[1..])))
            && RelevelIn(next, user, ToSet(order[1..]), level) == RelevelIn(c, user, ToSet(order), level)
  {
    DistinctTail(order);
    RelevelOne(c, user, order[0], ToSet(order[1..]), level);
    ReachableTail(c, Grant(Revoke(c, user, order[0]), user, order[0], level), user, order);
  }

  lemma {:induction false} RelevelEachEffect(c: Cluster, user: string, order: seq<string>, level: Level)
    requires Distinct(order)
    ensures RelevelEach(c, user, order, level).1 <==> AllReachable(c, user, ToSet(order))
    ensures RelevelEach(c, user, order, level).1 ==>
              RelevelEach(c, user, order, level).0 == RelevelIn(c, user, ToSet(order), level)
    decreases |order|
  {
    if order == [] {
      assert RelevelIn(c, user, {}, level).databases == c.databases;
    } else if Reachable(c, user, order[0]) {
      RelevelEachEffect(Grant(Revoke(c, user, order[0]), user, order[0], level), user, order[1..], level);
      RelevelMore(c, user, order, level);
    } else {
      assert order[0] in ToSet(order);
    }
  }

  ghost predicate Admissible(c: Cluster, user: string, dbs: seq<string>) {
    Distinct(dbs) && AllReachable(c, user, ToSet(dbs)) && RowsOf(c, user) !! ToSet(dbs)
  }

  lemma AdmissibleTail(c: Cluster, next: Cluster, user: string, dbs: seq<string>)
    requires dbs != [] && Reachable(c, user, dbs[0]) && (user, dbs[0]) !in c.rows
    requires next.roles == c.roles && next.databases.Keys == c.databases.Keys
    requires RowsOf(next, user) == RowsOf(c, user) + {dbs[0]}
    ensures Admissible(c, user, dbs) <==> Admissible(next, user, dbs[1..])
    ensures Admissible(c, user, dbs) ==> dbs[0] !in ToSet(dbs[1..])
  {
    ReachableTail(c, next, user, dbs);
    assert forall n :: n in dbs <==> n == dbs[0] || n in dbs[1..];
    if Distinct(dbs) {
      DistinctTail(dbs);
    } else if Distinct(dbs[1..]) {
      assert dbs[0] in ToSet(dbs[1..]);
    }
  }

  lemma AdmissibleHead(c: Cluster, user: string, dbs: seq<string>)
    requires dbs != [] && Admissible(c, user, dbs)
    ensures Reachable(c, user, dbs[0]) && (user, dbs[0]) !in c.rows
  {
    assert dbs[0] in ToSet(dbs);
    assert dbs[0] !in RowsOf(c, user);
  }

  lemma AdmitMore(c: Cluster, user: string, dbs: seq<string>, level: Level)
    requires dbs != [] && Admissible(c, user, dbs)
    ensures Admit(WithRow(Grant(c, user, dbs[0], level), user, dbs[0], level), user, ToSet(dbs[1..]), level) ==
            Admit(c, user, ToSet(dbs), level)
  {
    AdmissibleHead(c, user, dbs);
    DistinctTail(dbs);
    AdmitOne(c, user, dbs[0], ToSet(dbs[1..]), level);
  }

  lemma RecordedHead(c: Cluster, user: string, db: string, level: Level)
    requires Reachable(c, user, db) && (user, db) !in c.rows
    ensures var next := WithRow(Grant(c, user, db, level), user, db, level);
            && next.roles == c.roles && next.databases.Keys == c.databases.Keys
            && RowsOf(next, user) == RowsOf(c, user) + {db}
  {
  }

  /** Creating a user succeeds on distinct, existing databases with no rows left over, and nowhere else. */
  lemma {:induction false} CreateEachEffect(c: Cluster, user: string, dbs: seq<string>, level: Level)
    requires user in c.roles && level != Invalid
    ensures CreateEach(c, user, dbs, level).1 <==> Admissible(c, user, dbs)
    ensures CreateEach(c, user, dbs, level).1 ==> CreateEach(c, user, dbs, level).0 == Admit(c, user, ToSet(dbs), level)
    decreases |dbs|
  {
    if dbs == [] {
      AdmitNone(c, user, level);
    } else if Reachable(c, user, dbs[0]) && (user, dbs[0]) !in c.rows {
      var next := WithRow(Grant(c, user, dbs[0], level), user, dbs[0], level);
      RecordedHead(c, user, dbs[0], level);
      CreateEachEffect(next, user, dbs[1..], level);
      AdmissibleTail(c, next, user, dbs);
      if Admissible(c, user, dbs) { AdmitMore(c, user, dbs, level); }
    } else if Admissible(c, user, dbs) {
      AdmissibleHead(c, user, dbs);
    }
  }

  // ---------- Orders ----------

  /** Any order of the databases still to visit completes the order so far. */
  lemma Complete(done: seq<string>, todo: set<string>, names: set<string>) returns (order: seq<string>, rest: seq<string>)
    requires Enumerates(done, names - todo) && todo <= names
    ensures order == done + rest && Enumerates(order, names) && Enumerates(rest, todo)
    decreases todo
  {
    if todo == {} {
      order, rest := done, [];
      assert names - todo == names;
    } else {
      var n :| n in todo;
      assert Enumerates(done + [n], names - (todo - {n}));
      order, rest := Complete(done + [n], todo - {n}, names);
      assert done + ([n] + rest) == order;
      rest := [n] + rest;
    }
  }

  /** There is always some order to run in. */
  lemma SomeSchedule(c: Cluster, user: string, list: Option<seq<string>>, access: Option<Level>, current: Level)
    returns (sch: Schedule)
    requires IsCurrent(c, user, current)
    ensures Scheduled(c, user, list, access, sch)
  {
    var held := RowsOf(c, user);
    var wanted := if list.Some? then ToSet(list.value) else held;
    var revoked, _ := Complete([], held - wanted, held - wanted);
    var granted, _ := Complete([], wanted - held, wanted - held);
    sch := Schedule(current, revoked, granted, []);
    var mid := UpdateList(c, user, list, access, sch).0;
    var releveled, _ := Complete([], RowsOf(mid, user), RowsOf(mid, user));
    sch := sch.(releveled := releveled);
    assert UpdateList(c, user, list, access, sch).0 == mid;
  }
}
