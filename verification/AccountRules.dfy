/**
 When each account request is served, told from the requests before it: who was given which name,
 password and role, and which logins still stand.
 */
module AccountRules {
  import opened Prelude
  import opened Text
  import opened Accounts

  // ---------- Accounts, from the requests ----------

  function NameIn(r: Request): string {
    match r
    case Setup(name, _, _) => name
    case CreateUser(_, name, _, _, _, _) => name
    case CliCreate(name, _, _) => name
    case _ => ""
  }

  function PasswordIn(r: Request): string {
    match r
    case Setup(_, password, _) => password
    case CreateUser(_, _, password, _, _, _) => password
    case ChangePassword(_, _, password) => password
    case ResetPassword(_, _, password) => password
    case CliCreate(_, password, _) => password
    case CliReset(_, password) => password
    case _ => ""
  }

  function RoleIn(r: Request): Role {
    match r
    case CreateUser(_, _, _, role, _, _) => role
    case UpdateUser(_, _, role, _, _) => role
    case CliCreate(_, _, role) => role
    case CliChangeRole(_, role) => role
    case _ => Admin
  }

  /** The account after a request that was answered with this event. */
  function Told(was: Option<User>, r: Request, e: Event, uid: nat): Option<User> {
    match e
    case Installed(u) => if u == uid then Some(User(NameIn(r), PasswordIn(r), Admin)) else was
    case Created(u, _) => if u == uid then Some(User(NameIn(r), PasswordIn(r), RoleIn(r))) else was
    case PasswordSet(u) => if u == uid && was.Some? then Some(was.value.(password := PasswordIn(r))) else was
    case RoleSet(u, _, _) => if u == uid && was.Some? then Some(was.value.(role := RoleIn(r))) else was
    case Deleted(u) => if u == uid then None else was
    case _ => was
  }

  /** The account the requests of a run tell of, if it is still there. */
  ghost function AccountOf(requests: seq<Request>, uid: nat): Option<User>
    decreases |requests|
  {
    if requests == [] then None
    else
      var last := |requests| - 1;
      Told(AccountOf(requests[..last], uid), requests[last], History(requests)[last].event, uid)
  }

  function Stored(s: Store, uid: nat): Option<User> {
    if uid in s.users then Some(s.users[uid]) else None
  }

  /** What the effect stores comes from the request. */
  ghost predicate TakenFrom(e: Effect, r: Request) {
    match e
    case Install(name, password, _) => name == NameIn(r) && password == PasswordIn(r)
    case AddUser(name, password, role) => name == NameIn(r) && password == PasswordIn(r) && role == RoleIn(r)
    case SetPassword(_, password) => password == PasswordIn(r)
    case SetRole(_, role, _) => role == RoleIn(r)
    case _ => true
  }

  lemma EffectIsTaken(s: Store, r: Request)
    ensures TakenFrom(Decide(s, r), r)
  {
  }

  lemma PerformTells(s: Store, e: Effect, r: Request, uid: nat)
    requires s.Valid() && Allowed(s, e) && TakenFrom(e, r)
    ensures Stored(Perform(s, e), uid) == Told(Stored(s, uid), r, EventOf(s, e), uid)
  {
  }

  lemma RunSnoc(before: seq<Request>, r: Request)
    ensures var all := before + [r];
            && Run(all) == Perform(Run(before), Decide(Run(before), r))
            && History(all) == History(before) + [Entry(Run(before).now, EventOf(Run(before), Decide(Run(before), r)))]
  {
    var all := before + [r];
    assert all[..|all| - 1] == before && all[|all| - 1] == r;
  }

  /** In every run the accounts on record are the ones the requests tell of. */
  lemma {:induction false} AccountsFollowRequests(requests: seq<Request>, uid: nat)
    ensures Stored(Run(requests), uid) == AccountOf(requests, uid)
    decreases |requests|
  {
    if requests != [] {
      var before := requests[..|requests| - 1];
      var r := requests[|requests| - 1];
      var s := Run(before);
      assert before + [r] == requests;
      AccountsFollowRequests(before, uid);
      RunInvariant(before);
      DecideAllowed(s, r);
      EffectIsTaken(s, r);
      PerformTells(s, Decide(s, r), r, uid);
      RunSnoc(before, r);
    }
  }

  // ---------- Who speaks ----------

  /** A login less than 24 hours ago issued the token to the account, and nothing since revoked it. */
  ghost predicate Speaks(requests: seq<Request>, token: string, uid: nat) {
    exists i: nat :: Live(History(requests), i, token, uid) && Run(requests).now < History(requests)[i].time + 86400
  }

  ghost predicate SpeaksAsAdmin(requests: seq<Request>, token: string, uid: nat) {
    Speaks(requests, token, uid) && IsRole(requests, uid, Admin)
  }

  ghost predicate IsRole(requests: seq<Request>, uid: nat, role: Role) {
    AccountOf(requests, uid).Some? && AccountOf(requests, uid).value.role == role
  }

  ghost predicate IsNamed(requests: seq<Request>, uid: nat, name: string) {
    AccountOf(requests, uid).Some? && AccountOf(requests, uid).value.name == name
  }

  ghost predicate NameTaken(requests: seq<Request>, name: string) {
    exists uid: nat :: IsNamed(requests, uid, name)
  }

  /** The answer to one more request. */
  ghost function Answer(requests: seq<Request>, r: Request): Event {
    EventOf(Run(requests), Decide(Run(requests), r))
  }

  lemma SpeaksIs(requests: seq<Request>, token: string, uid: nat)
    ensures var u := Run(requests).Validate(token);
            && (Speaks(requests, token, uid) <==> u.Some? && u.value.uid == uid)
            && (Speaks(requests, token, uid) ==>
                  AccountOf(requests, uid).Some?
                  && u.value.name == AccountOf(requests, uid).value.name && u.value.role == AccountOf(requests, uid).value.role)
  {
    SessionTableEqualsHistory(requests, token, uid);
    AccountsFollowRequests(requests, uid);
  }

  lemma AdminIs(requests: seq<Request>, token: string)
    ensures IsAdmin(Run(requests), token) <==> exists a: nat :: SpeaksAsAdmin(requests, token, a)
    ensures forall a: nat :: SpeaksAsAdmin(requests, token, a) ==>
              Run(requests).Validate(token).Some? && Run(requests).Validate(token).value.uid == a
              && a in Run(requests).Admins() && IsNamed(requests, a, Run(requests).Validate(token).value.name)
  {
    if IsAdmin(Run(requests), token) {
      var a := Run(requests).Validate(token).value.uid;
      SpeaksIs(requests, token, a);
      assert SpeaksAsAdmin(requests, token, a);
    }
    forall a: nat | SpeaksAsAdmin(requests, token, a)
      ensures IsAdmin(Run(requests), token) && Run(requests).Validate(token).value.uid == a
      ensures a in Run(requests).Admins() && IsNamed(requests, a, Run(requests).Validate(token).value.name)
    {
      SpeaksIs(requests, token, a);
      AccountsFollowRequests(requests, a);
    }
  }

  /** The account of a name, as the table finds it. */
  lemma LookupIsNamed(requests: seq<Request>, name: string)
    ensures forall uid: nat :: Lookup(Run(requests), name) == Some(uid) <==> IsNamed(requests, uid, name)
    ensures Run(requests).HasId(name) <==> NameTaken(requests, name)
  {
    RunInvariant(requests);
    var s := Run(requests);
    forall uid: nat
      ensures Lookup(s, name) == Some(uid) <==> IsNamed(requests, uid, name)
    {
      AccountsFollowRequests(requests, uid);
      if IsNamed(requests, uid, name) { LookupIs(s, uid); }
    }
    if s.HasId(name) {
      var uid :| uid in s.users && s.users[uid].name == name;
      AccountsFollowRequests(requests, uid);
      assert IsNamed(requests, uid, name);
    }
    if NameTaken(requests, name) {
      var uid: nat :| IsNamed(requests, uid, name);
      AccountsFollowRequests(requests, uid);
    }
  }

  // ---------- Logging in ----------

  /** The token belongs to no standing login, expired or not. */
  ghost predicate Unused(requests: seq<Request>, token: string) {
    forall i: nat, uid: nat :: !Live(History(requests), i, token, uid)
  }

  lemma UnusedIs(requests: seq<Request>, token: string)
    ensures token !in Run(requests).sessions <==> Unused(requests, token)
  {
    RunInvariant(requests);
    if token in Run(requests).sessions {
      var i: nat :| Live(History(requests), i, token, Run(requests).sessions[token].uid);
    }
  }

  /**
   In every run a login opens a session for an account exactly when name and password are not blank, the
   token is not in use, and the account has this name and was last given exactly this password.
   */
  lemma LoginServedIff(requests: seq<Request>, name: string, password: string, token: string, uid: nat)
    ensures Answer(requests, Login(name, password, token)) == LoggedIn(token, uid) <==>
            && name != "" && password != "" && Unused(requests, token)
            && IsNamed(requests, uid, name) && AccountOf(requests, uid).value.password == password
  {
    UnusedIs(requests, token);
    LookupIsNamed(requests, name);
    AccountsFollowRequests(requests, uid);
    if Lookup(Run(requests), name).Some? { AccountsFollowRequests(requests, Lookup(Run(requests), name).value); }
  }

  /** Changing one's own password takes the current one. */
  lemma ChangePasswordServedIff(requests: seq<Request>, token: string, current: string, password: string, uid: nat)
    ensures Answer(requests, ChangePassword(token, current, password)) == PasswordSet(uid) <==>
            && Speaks(requests, token, uid) && current != "" && 8 <= |password| <= 72
            && AccountOf(requests, uid).Some? && AccountOf(requests, uid).value.password == current
  {
    SpeaksIs(requests, token, uid);
    AccountsFollowRequests(requests, uid);
  }

  // ---------- Administration ----------

  predicate AssignableTo(role: Role, dbs: seq<string>, existing: set<string>) {
    role == Dev ==>
      dbs != [] && forall i :: 0 <= i < |dbs| ==>
                     dbs[i] in existing && dbs[i] !in {"template0", "template1", "postgres", "pgmanager"}
  }

  lemma CreateServedIff(
    requests: seq<Request>, actor: string, name: string, password: string, role: Role, dbs: seq<string>, existing: set<string>)
    ensures Answer(requests, CreateUser(actor, name, password, role, dbs, existing)).Created? <==>
            && (exists a: nat :: SpeaksAsAdmin(requests, actor, a))
            && 3 <= |name| && ValidName(name) && 8 <= |password| <= 72 && !NameTaken(requests, name)
            && AssignableTo(role, dbs, existing)
  {
    AdminIs(requests, actor);
    LookupIsNamed(requests, name);
  }

  /** An administrator acts on the account: not the caller's own. */
  ghost predicate ActsOn(requests: seq<Request>, actor: string, uid: nat, name: string) {
    exists a: nat :: SpeaksAsAdmin(requests, actor, a) && !IsNamed(requests, a, name) && IsNamed(requests, uid, name)
  }

  lemma ActsOnIs(requests: seq<Request>, actor: string, uid: nat, name: string)
    ensures AdminTarget(Run(requests), actor, name) == Some(uid) <==> ActsOn(requests, actor, uid, name)
    ensures ActsOn(requests, actor, uid, name) ==> Run(requests).Admins() != {uid}
  {
    AdminIs(requests, actor);
    LookupIsNamed(requests, name);
    if ActsOn(requests, actor, uid, name) {
      var a: nat :| SpeaksAsAdmin(requests, actor, a) && !IsNamed(requests, a, name) && IsNamed(requests, uid, name);
      assert a != uid && a in Run(requests).Admins();
      assert Run(requests).Validate(actor).value.name != name;
    }
    if AdminTarget(Run(requests), actor, name) == Some(uid) {
      var a: nat :| SpeaksAsAdmin(requests, actor, a);
      assert IsNamed(requests, a, Run(requests).Validate(actor).value.name);
      assert ActsOn(requests, actor, uid, name);
    }
  }

  /**
   One request after another, changing or deleting somebody's account is never refused for the sake of the
   last administrator: the caller is another one.  The guards matter only in races.
   */
  lemma UpdateServedIff(
    requests: seq<Request>, actor: string, name: string, role: Role, dbs: seq<string>, existing: set<string>, uid: nat)
    ensures Answer(requests, UpdateUser(actor, name, role, dbs, existing)) == RoleSet(uid, role, false) <==>
            ActsOn(requests, actor, uid, name) && AssignableTo(role, dbs, existing)
  {
    ActsOnIs(requests, actor, uid, name);
  }

  lemma DeleteServedIff(requests: seq<Request>, actor: string, name: string, uid: nat)
    ensures Answer(requests, DeleteUser(actor, name)) == Deleted(uid) <==> ActsOn(requests, actor, uid, name)
  {
    ActsOnIs(requests, actor, uid, name);
  }

  lemma ResetServedIff(requests: seq<Request>, actor: string, name: string, password: string, uid: nat)
    ensures Answer(requests, ResetPassword(actor, name, password)) == PasswordSet(uid) <==>
            && (exists a: nat :: SpeaksAsAdmin(requests, actor, a))
            && IsNamed(requests, uid, name) && 8 <= |password| <= 72
  {
    AdminIs(requests, actor);
    LookupIsNamed(requests, name);
  }

  // ---------- The recovery CLI ----------

  /** Some other account is an administrator. */
  ghost predicate OtherAdmin(requests: seq<Request>, uid: nat) {
    exists b: nat :: b != uid && IsRole(requests, b, Admin)
  }

  lemma OnlyAdminIs(requests: seq<Request>, uid: nat)
    ensures Run(requests).Admins() == {uid} <==> IsRole(requests, uid, Admin) && !OtherAdmin(requests, uid)
  {
    forall b: nat
      ensures b in Run(requests).Admins() <==> IsRole(requests, b, Admin)
    {
      AccountsFollowRequests(requests, b);
    }
    if OtherAdmin(requests, uid) {
      var b: nat :| b != uid && IsRole(requests, b, Admin);
      assert b in Run(requests).Admins();
    }
    if IsRole(requests, uid, Admin) && !OtherAdmin(requests, uid) {
      assert forall b :: b in Run(requests).Admins() <==> b == uid;
    }
  }

  lemma CliCreateServedIff(requests: seq<Request>, name: string, password: string, role: Role)
    ensures Answer(requests, CliCreate(name, password, role)).Created? <==>
            && WordOrHyphen(name) && !NameTaken(requests, name)
            && 8 <= |password| <= 72 && WordOrHyphen(password)
  {
    LookupIsNamed(requests, name);
  }

  lemma CliDeleteServedIff(requests: seq<Request>, name: string, uid: nat)
    ensures Answer(requests, CliDelete(name)) == Deleted(uid) <==>
            && name != "q" && WordOrHyphen(name) && IsNamed(requests, uid, name)
            && (IsRole(requests, uid, Admin) ==> OtherAdmin(requests, uid))
  {
    LookupIsNamed(requests, name);
    OnlyAdminIs(requests, uid);
  }

  lemma CliResetServedIff(requests: seq<Request>, name: string, password: string, uid: nat)
    ensures Answer(requests, CliReset(name, password)) == PasswordSet(uid) <==>
            && name != "q" && WordOrHyphen(name) && IsNamed(requests, uid, name)
            && 8 <= |password| <= 72 && WordOrHyphen(password)
  {
    LookupIsNamed(requests, name);
  }

  lemma CliRoleServedIff(requests: seq<Request>, name: string, role: Role, uid: nat)
    ensures Answer(requests, CliChangeRole(name, role)) == RoleSet(uid, role, true) <==>
            && name != "q" && WordOrHyphen(name) && IsNamed(requests, uid, name) && !IsRole(requests, uid, role)
            && (IsRole(requests, uid, Admin) ==> OtherAdmin(requests, uid))
  {
    LookupIsNamed(requests, name);
    OnlyAdminIs(requests, uid);
    AccountsFollowRequests(requests, uid);
    if Lookup(Run(requests), name).Some? { AccountsFollowRequests(requests, Lookup(Run(requests), name).value); }
  }

  // ---------- Setup ----------

  /** The flag, from the last request that wrote it. */
  ghost function FlagOf(requests: seq<Request>): bool
    decreases |requests|
  {
    if requests == [] then false
    else
      var last := |requests| - 1;
      match requests[last]
      case Setup(_, _, flagWritten) =>
        if History(requests)[last].event.Installed? then flagWritten else FlagOf(requests[..last])
      case SaveSetting(completed) => completed
      case _ => FlagOf(requests[..last])
  }

  lemma FlagStep(s: Store, r: Request)
    ensures Perform(s, Decide(s, r)).setupCompleted ==
            match r
            case Setup(_, _, flagWritten) => if EventOf(s, Decide(s, r)).Installed? then flagWritten else s.setupCompleted
            case SaveSetting(completed) => completed
            case _ => s.setupCompleted
  {
    DecideAllowed(s, r);
  }

  lemma {:induction false} FlagFollowsRequests(requests: seq<Request>)
    ensures Run(requests).setupCompleted == FlagOf(requests)
    decreases |requests|
  {
    if requests != [] {
      var before := requests[..|requests| - 1];
      var r := requests[|requests| - 1];
      assert before + [r] == requests;
      FlagFollowsRequests(before);
      FlagStep(Run(before), r);
      RunSnoc(before, r);
    }
  }

  ghost predicate NoAccount(requests: seq<Request>) {
    forall uid: nat :: AccountOf(requests, uid) == None
  }

  lemma NoAccountIs(requests: seq<Request>)
    ensures Run(requests).users == map[] <==> NoAccount(requests)
  {
    var s := Run(requests);
    if s.users == map[] {
      forall uid: nat
        ensures AccountOf(requests, uid) == None
      {
        AccountsFollowRequests(requests, uid);
      }
    } else {
      var uid :| uid in s.users;
      AccountsFollowRequests(requests, uid);
      assert AccountOf(requests, uid) != None;
    }
  }

  /** Setup is open to anybody exactly while there is no account and the flag is off. */
  lemma SetupServedIff(requests: seq<Request>, name: string, password: string, flagWritten: bool)
    ensures Answer(requests, Setup(name, password, flagWritten)).Installed? <==>
            && !FlagOf(requests) && NoAccount(requests)
            && 3 <= |name| && ValidName(name) && 8 <= |password| <= 72
  {
    FlagFollowsRequests(requests);
    NoAccountIs(requests);
  }

  // ---------- Sessions ----------

  /**
   A new password, a deletion and a change of role by the CLI end every session of the account, a logout its
   own session; a change of role by the web application ends none.
   */
  lemma SessionsAfter(requests: seq<Request>, r: Request, token: string, uid: nat)
    requires !r.Wait? && !Answer(requests, r).LoggedIn?
    ensures Speaks(requests + [r], token, uid) <==>
            Speaks(requests, token, uid) &&
            match Answer(requests, r)
            case PasswordSet(u) => u != uid
            case Deleted(u) => u != uid
            case RoleSet(u, _, cli) => u != uid || !cli
            case LoggedOut(t) => t != token
            case _ => true
  {
    var e := Entry(Run(requests).now, Answer(requests, r));
    RunSnoc(requests, r);
    SameTime(Run(requests), r);
    var h, h' := History(requests), History(requests) + [e];
    if Speaks(requests, token, uid) {
      var i: nat :| Live(h, i, token, uid) && Run(requests).now < h[i].time + 86400;
      LiveSnoc(h, e, i, token, uid);
      assert h'[i] == h[i];
      if !Revokes(e.event, token, uid) { assert Live(h', i, token, uid); }
    }
    if Speaks(requests + [r], token, uid) {
      var i: nat :| Live(h', i, token, uid) && Run(requests).now < h'[i].time + 86400;
      LiveSnoc(h, e, i, token, uid);
      assert h'[i] == h[i];
    }
  }

  lemma SameTime(s: Store, r: Request)
    requires !r.Wait?
    ensures Perform(s, Decide(s, r)).now == s.now
  {
    DecideAllowed(s, r);
  }

  /** A logout ends the session of its token, whoever's it was, and a served login starts one. */
  lemma LogInAndOut(requests: seq<Request>, name: string, password: string, token: string, uid: nat)
    ensures !Speaks(requests + [Logout(token)], token, uid)
    ensures Answer(requests, Login(name, password, token)) == LoggedIn(token, uid) ==>
              Speaks(requests + [Login(name, password, token)], token, uid)
  {
    SessionsAfter(requests, Logout(token), token, uid);
    var r := Login(name, password, token);
    if Answer(requests, r) == LoggedIn(token, uid) {
      var e := Entry(Run(requests).now, LoggedIn(token, uid));
      RunSnoc(requests, r);
      SameTime(Run(requests), r);
      LiveSnoc(History(requests), e, |History(requests)|, token, uid);
      assert Live(History(requests + [r]), |History(requests)|, token, uid);
    }
  }
}
