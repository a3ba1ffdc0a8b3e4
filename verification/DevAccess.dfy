/**
 Which databases a dev account may open, over runs of requests: the rows of dev_databases against
 what the requests gave.
 */
module DevAccess {
  import opened Prelude
  import opened Accounts

  /** The rows after a run. */
  ghost function Granted(requests: seq<Request>): Grants
    decreases |requests|
  {
    if requests == [] then {}
    else
      var before := requests[..|requests| - 1];
      ExecDev(Granted(before), Run(before), requests[|requests| - 1])
  }

  /** Creates the account, or sets its role through the web application. */
  predicate Assigns(e: Event, uid: nat) {
    match e
    case Installed(u) => u == uid
    case Created(u, _) => u == uid
    case RoleSet(u, _, cli) => u == uid && !cli
    case _ => false
  }

  /** The names given by the last entry that assigns the account any. */
  ghost function LatestNames(requests: seq<Request>, uid: nat): set<string>
    decreases |requests|
  {
    if requests == [] then {}
    else
      var last := |requests| - 1;
      if Assigns(History(requests)[last].event, uid) then NamesGiven(requests[last])
      else LatestNames(requests[..last], uid)
  }

  ghost predicate RowsMatch(requests: seq<Request>) {
    && DevValid(Run(requests), Granted(requests))
    && forall uid, n :: uid in Run(requests).users ==>
         ((uid, n) in Granted(requests) <==> n in LatestNames(requests, uid))
  }

  /** Each effect changes the rows of each account as its event says. */
  lemma RegrantFollows(dev: Grants, s: Store, e: Effect, names: set<string>, uid: nat, n: string)
    requires s.Valid() && DevValid(s, dev) && Allowed(s, e) && uid in Perform(s, e).users
    requires names != {} ==> e.AddUser? || (e.SetRole? && !e.cli) || e.Nop?
    ensures (uid, n) in Regrant(dev, s, e, names) <==>
            if Assigns(EventOf(s, e), uid) then n in names else uid in s.users && (uid, n) in dev
  {
  }

  lemma RegrantValid(dev: Grants, s: Store, e: Effect, names: set<string>)
    requires DevValid(s, dev) && Allowed(s, e)
    ensures DevValid(Perform(s, e), Regrant(dev, s, e, names))
  {
  }

  lemma NamesOnlyOnAssigning(s: Store, r: Request)
    ensures var e := Decide(s, r); NamesGiven(r) != {} ==> e.AddUser? || (e.SetRole? && !e.cli) || e.Nop?
  {
  }

  lemma UsersBefore(s: Store, e: Effect, uid: nat)
    requires Allowed(s, e) && uid in Perform(s, e).users && !Assigns(EventOf(s, e), uid)
    ensures uid in s.users
  {
  }

  /** In every run the rows of each account are the names last given to it. */
  lemma {:induction false} RowsMatchHistory(requests: seq<Request>)
    ensures RowsMatch(requests)
    decreases |requests|
  {
    if requests != [] {
      var before := requests[..|requests| - 1];
      var r := requests[|requests| - 1];
      RowsMatchHistory(before);
      RunInvariant(before);
      RowsMatchStep(before, r);
      assert before + [r] == requests;
    }
  }

  lemma RowsMatchStep(before: seq<Request>, r: Request)
    requires RowsMatch(before) && Run(before).Valid()
    ensures RowsMatch(before + [r])
  {
    var s := Run(before);
    var e := Decide(s, r);
    RunSnoc(before, r);
    DecideAllowed(s, r);
    NamesOnlyOnAssigning(s, r);
    RegrantValid(Granted(before), s, e, NamesGiven(r));
    forall uid, n | uid in Perform(s, e).users
      ensures (uid, n) in Granted(before + [r]) <==> n in LatestNames(before + [r], uid)
    {
      RegrantFollows(Granted(before), s, e, NamesGiven(r), uid, n);
      if !Assigns(EventOf(s, e), uid) { UsersBefore(s, e, uid); }
    }
  }

  lemma RunSnoc(before: seq<Request>, r: Request)
    ensures var all := before + [r];
            && Run(all) == Perform(Run(before), Decide(Run(before), r))
            && Granted(all) == Regrant(Granted(before), Run(before), Decide(Run(before), r), NamesGiven(r))
            && forall uid :: LatestNames(all, uid) ==
                             if Assigns(EventOf(Run(before), Decide(Run(before), r)), uid) then NamesGiven(r)
                             else LatestNames(before, uid)
  {
    var all := before + [r];
    assert all[..|all| - 1] == before && all[|all| - 1] == r;
    assert History(all)[|all| - 1].event == EventOf(Run(before), Decide(Run(before), r));
  }

  // ---------- Main results ----------

  /** CheckDevAccess: administrators and viewers pass, a dev account needs a row. */
  predicate MayOpen(s: Store, dev: Grants, token: string, db: string) {
    var u := s.Validate(token);
    u.Some? && (u.value.role == Dev ==> (u.value.uid, db) in dev)
  }

  /** Entry i of the history still stands for the token, and its account may open the database. */
  ghost predicate Opens(requests: seq<Request>, i: nat, uid: nat, token: string, db: string) {
    var h := History(requests);
    && Live(h, i, token, uid) && Run(requests).now < h[i].time + SESSION_LIFETIME
    && (LatestRole(h, uid) == Some(Dev) ==> db in LatestNames(requests, uid))
  }

  lemma MayOpenIff(requests: seq<Request>, token: string, db: string, uid: nat)
    requires var u := Run(requests).Validate(token); u.Some? && u.value.uid == uid
    ensures MayOpen(Run(requests), Granted(requests), token, db) <==>
            (LatestRole(History(requests), uid) == Some(Dev) ==> db in LatestNames(requests, uid))
  {
    SessionTableEqualsHistory(requests, token, uid);
    RowsMatchHistory(requests);
  }

  lemma OpensIsAccepted(requests: seq<Request>, i: nat, uid: nat, token: string, db: string)
    requires Opens(requests, i, uid, token, db)
    ensures var u := Run(requests).Validate(token); u.Some? && u.value.uid == uid
  {
    SessionTableEqualsHistory(requests, token, uid);
    var h := History(requests);
    assert Live(h, i, token, uid) && Run(requests).now < h[i].time + SESSION_LIFETIME;
  }

  /**
   A token opens a database exactly when a login less than 24 hours ago issued it, nothing since revoked
   it, and its account is no dev account or was last given this database.
   */
  lemma DevAccessEqualsHistory(requests: seq<Request>, token: string, db: string)
    ensures MayOpen(Run(requests), Granted(requests), token, db) <==>
            exists i: nat, uid: nat :: Opens(requests, i, uid, token, db)
  {
    if MayOpen(Run(requests), Granted(requests), token, db) {
      var uid := Run(requests).Validate(token).value.uid;
      SessionTableEqualsHistory(requests, token, uid);
      MayOpenIff(requests, token, db, uid);
      var i: nat :| Live(History(requests), i, token, uid) && Run(requests).now < History(requests)[i].time + SESSION_LIFETIME;
      assert Opens(requests, i, uid, token, db);
    }
    forall i: nat, uid: nat | Opens(requests, i, uid, token, db)
      ensures MayOpen(Run(requests), Granted(requests), token, db)
    {
      OpensIsAccepted(requests, i, uid, token, db);
      MayOpenIff(requests, token, db, uid);
    }
  }

  lemma GivenAreOpen(s: Store, r: Request, n: string)
    requires Decide(s, r) != Nop && n in NamesGiven(r)
    ensures n !in PROTECTED
  {
    var i :| 0 <= i < |r.dbs| && r.dbs[i] == n;
  }

  lemma {:induction false} LatestAreOpen(requests: seq<Request>, uid: nat)
    ensures LatestNames(requests, uid) !! PROTECTED
    decreases |requests|
  {
    if requests != [] {
      var before := requests[..|requests| - 1];
      var r := requests[|requests| - 1];
      LatestAreOpen(before, uid);
      if Assigns(History(requests)[|before|].event, uid) {
        forall n | n in NamesGiven(r) { GivenAreOpen(Run(before), r, n); }
      }
    }
  }

  /** No run lets a dev account into a system database. */
  lemma DevNeverOpensSystem(requests: seq<Request>, token: string, db: string)
    requires MayOpen(Run(requests), Granted(requests), token, db)
    ensures Run(requests).Validate(token).value.role == Dev ==> db !in {"template0", "template1", "postgres", "pgmanager"}
  {
    RunInvariant(requests);
    RowsMatchHistory(requests);
    LatestAreOpen(requests, Run(requests).Validate(token).value.uid);
  }

  /**
   Taking the dev role away takes the rows away exactly when the web application does it; after the CLI
   does they wait for the role to come back.
   */
  lemma DemotionDropsRowsIff(requests: seq<Request>, r: Request, uid: nat, role: Role, cli: bool)
    requires Decide(Run(requests), r) == SetRole(uid, role, cli) && role != Dev
    ensures (forall n :: (uid, n) !in Granted(requests + [r])) <==> !cli || LatestNames(requests, uid) == {}
  {
    RunSnoc(requests, r);
    RowsMatchHistory(requests);
    DecideAllowed(Run(requests), r);
    if cli && LatestNames(requests, uid) != {} {
      var n :| n in LatestNames(requests, uid);
      assert (uid, n) in Granted(requests);
    }
  }

  // ---------- What one assignment gives ----------

  /** No name comes twice up to and including place i. */
  predicate NoRepeat(dbs: seq<string>, i: nat)
    requires i < |dbs|
  {
    forall j, k :: 0 <= j < k <= i ==> dbs[j] != dbs[k]
  }

  lemma {:induction false} TakenIff(dbs: seq<string>, i: nat)
    requires i < |dbs|
    ensures i < Taken(dbs) <==> NoRepeat(dbs, i)
    decreases |dbs|
  {
    var last := |dbs| - 1;
    if i < last {
      TakenIff(dbs[..last], i);
      assert NoRepeat(dbs[..last], i) <==> NoRepeat(dbs, i);
      if Taken(dbs[..last]) == last && dbs[last] in dbs[..last] { assert Taken(dbs) == last; }
    } else if last > 0 {
      TakenIff(dbs[..last], last - 1);
      assert NoRepeat(dbs[..last], last - 1) <==> NoRepeat(dbs, last - 1);
    }
  }

  lemma TakenNames(dbs: seq<string>, n: string)
    ensures n in Names(dbs[..Taken(dbs)]) <==> exists i :: 0 <= i < |dbs| && dbs[i] == n && NoRepeat(dbs, i)
  {
    forall i | 0 <= i < |dbs| { TakenIff(dbs, i); }
    if n in Names(dbs[..Taken(dbs)]) {
      var i :| 0 <= i < Taken(dbs) && dbs[..Taken(dbs)][i] == n;
      assert dbs[i] == n && NoRepeat(dbs, i);
    }
    if i :| 0 <= i < |dbs| && dbs[i] == n && NoRepeat(dbs, i) { assert dbs[..Taken(dbs)][i] == n; }
  }

  /** A web update leaves a dev account exactly the listed databases, and any other account none. */
  lemma UpdateGives(requests: seq<Request>, r: Request, uid: nat, n: string)
    requires r.UpdateUser? && Decide(Run(requests), r) == SetRole(uid, r.role, false)
    ensures (uid, n) in Granted(requests + [r]) <==> r.role == Dev && n in r.dbs
  {
    RunSnoc(requests, r);
  }

  /** A creation gives the listed ones up to the first that is repeated. */
  lemma CreationGives(requests: seq<Request>, r: Request, uid: nat, n: string)
    requires r.CreateUser? && EventOf(Run(requests), Decide(Run(requests), r)) == Created(uid, r.role)
    ensures (uid, n) in Granted(requests + [r]) <==>
            r.role == Dev && exists i :: 0 <= i < |r.dbs| && r.dbs[i] == n && NoRepeat(r.dbs, i)
  {
    RunSnoc(requests, r);
    TakenNames(r.dbs, n);
    RunInvariant(requests);
    RowsMatchHistory(requests);
    assert uid == Run(requests).nextId && uid !in Run(requests).users;
  }
}
