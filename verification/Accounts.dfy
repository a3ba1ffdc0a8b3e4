/**
 Login accounts and sessions: the web handlers and the recovery CLI as steps
 over the auth_users, sessions and system_config tables.
 */
module Accounts {
  import opened Prelude
  import opened Text
  import C = Clusters

  const SESSION_LIFETIME: nat := 86400
  const PROTECTED := C.PROTECTED

  datatype Role = Admin | Dev | Viewer

  datatype User = User(name: string, password: string, role: Role)

  datatype Session = Session(uid: nat, expires: nat)

  datatype SessionUser = SessionUser(uid: nat, name: string, role: Role)

  /** The tables; ids come from a SERIAL column, `now` is the server clock in seconds. */
  datatype Store = Store(
    users: map<nat, User>,
    nextId: nat,
    sessions: map<string, Session>,
    setupCompleted: bool,
    now: nat)
  {
    function Admins(): set<nat> {
      set i | i in users && users[i].role == Admin
    }

    ghost predicate HasId(name: string) {
      exists i :: i in users && users[i].name == name
    }

    /** The keys and constraints of the schema: unique names, serial ids, sessions reference users. */
    ghost predicate Valid() {
      && (forall i :: i in users ==> i < nextId)
      && (forall i, j :: i in users && j in users && users[i].name == users[j].name ==> i == j)
      && (forall t :: t in sessions ==> sessions[t].uid in users)
    }

    function Validate(token: string): Option<SessionUser> {
      if token in sessions && sessions[token].expires > now && sessions[token].uid in users then
        var u := users[sessions[token].uid];
        Some(SessionUser(sessions[token].uid, u.name, u.role))
      else
        None
    }

    function WithoutSessionsOf(uid: nat): Store {
      this.(sessions := map t | t in sessions && sessions[t].uid != uid :: sessions[t])
    }

    function WithoutUser(uid: nat): Store {
      WithoutSessionsOf(uid).(users := users - {uid})
    }
  }

  const EMPTY := Store(map[], 0, map[], false, 0)

  /**
   Requests carry effective passwords: a generated one when the caller left it blank.  `existing` is
   what pg_database lists at the time.
   */
  datatype Request =
    | Setup(name: string, password: string, flagWritten: bool)
    | Login(name: string, password: string, token: string)
    | Logout(token: string)
    | ChangePassword(token: string, current: string, password: string)
    | CreateUser(actor: string, name: string, password: string, role: Role, dbs: seq<string>, existing: set<string>)
    | UpdateUser(actor: string, name: string, role: Role, dbs: seq<string>, existing: set<string>)
    | DeleteUser(actor: string, name: string)
    | ResetPassword(actor: string, name: string, password: string)
    | SaveSetting(completed: bool)
    | CliCreate(name: string, password: string, role: Role)
    | CliDelete(name: string)
    | CliReset(name: string, password: string)
    | CliChangeRole(name: string, role: Role)
    | Wait(seconds: nat)

  datatype Event =
    | Nothing
    | Installed(uid: nat)
    | Created(uid: nat, role: Role)
    | LoggedIn(token: string, uid: nat)
    | LoggedOut(token: string)
    | PasswordSet(uid: nat)
    | Deleted(uid: nat)
    | RoleSet(uid: nat, role: Role, cli: bool)

  predicate PasswordOk(p: string) {
    8 <= |p| <= 72
  }

  predicate WebNameOk(name: string) {
    3 <= |name| && ValidName(name)
  }

  predicate CliPasswordOk(p: string) {
    PasswordOk(p) && WordOrHyphen(p)
  }

  /** The CLI's prompts for an existing account take "q" as a way out. */
  predicate CliTargetOk(name: string) {
    name != "q" && WordOrHyphen(name)
  }

  /** The databases a dev account may be given. */
  predicate DatabasesOk(dbs: seq<string>, existing: set<string>) {
    dbs != [] && forall i :: 0 <= i < |dbs| ==> dbs[i] !in PROTECTED && dbs[i] in existing
  }

  predicate IsAdmin(s: Store, token: string) {
    s.Validate(token).Some? && s.Validate(token).value.role == Admin
  }

  /** SELECT id FROM auth_users WHERE username = name. */
  ghost function Lookup(s: Store, name: string): (r: Option<nat>)
    ensures r.Some? ==> r.value in s.users && s.users[r.value].name == name
    ensures r.None? ==> !s.HasId(name)
  {
    if s.HasId(name) then
      var i :| i in s.users && s.users[i].name == name;
      Some(i)
    else
      None
  }

  /** The account an administrator may change or delete: any but the caller's own. */
  ghost function AdminTarget(s: Store, actor: string, name: string): Option<nat> {
    if IsAdmin(s, actor) && s.Validate(actor).value.name != name then Lookup(s, name) else None
  }

  /** What a served request does to the tables. */
  datatype Effect =
    | Nop
    | Install(name: string, password: string, flag: bool)
    | AddUser(name: string, password: string, role: Role)
    | OpenSession(token: string, uid: nat)
    | CloseSession(token: string)
    | SetPassword(uid: nat, password: string)
    | RemoveUser(uid: nat)
    | SetRole(uid: nat, role: Role, cli: bool)
    | SetFlag(completed: bool)
    | Advance(seconds: nat)

  function Perform(s: Store, e: Effect): Store
    requires (e.SetPassword? || e.SetRole?) ==> e.uid in s.users
  {
    match e
    case Nop => s
    case Install(name, password, flag) =>
      s.(users := s.users[s.nextId := User(name, password, Admin)], nextId := s.nextId + 1, setupCompleted := flag)
    case AddUser(name, password, role) =>
      s.(users := s.users[s.nextId := User(name, password, role)], nextId := s.nextId + 1)
    case OpenSession(token, uid) => s.(sessions := s.sessions[token := Session(uid, s.now + SESSION_LIFETIME)])
    case CloseSession(token) => s.(sessions := s.sessions - {token})
    case SetPassword(uid, password) =>
      s.(users := s.users[uid := s.users[uid].(password := password)]).WithoutSessionsOf(uid)
    case RemoveUser(uid) => s.WithoutUser(uid)
    case SetRole(uid, role, cli) =>
      var s' := s.(users := s.users[uid := s.users[uid].(role := role)]);
      if cli then s'.WithoutSessionsOf(uid) else s'
    case SetFlag(completed) => s.(setupCompleted := completed)
    case Advance(seconds) => s.(now := s.now + seconds)
  }

  /** Which effect a request has, and when it is refused. */
  ghost function Decide(s: Store, r: Request): Effect {
    match r
    case Setup(name, password, flagWritten) =>
      if s.setupCompleted || s.users != map[] || !WebNameOk(name) || !PasswordOk(password) then Nop
      else Install(name, password, flagWritten)
    case Login(name, password, token) =>
      var id := Lookup(s, name);
      if name == "" || password == "" || id == None || s.users[id.value].password != password || token in s.sessions then Nop
      else OpenSession(token, id.value)
    case Logout(token) => CloseSession(token)
    case ChangePassword(token, current, password) =>
      var u := s.Validate(token);
      if u == None || current == "" || !PasswordOk(password) || s.users[u.value.uid].password != current then Nop
      else SetPassword(u.value.uid, password)
    case CreateUser(actor, name, password, role, dbs, existing) =>
      if !IsAdmin(s, actor) || !WebNameOk(name) || !PasswordOk(password) || s.HasId(name) then Nop
      else if role == Dev && !DatabasesOk(dbs, existing) then Nop
      else AddUser(name, password, role)
    case UpdateUser(actor, name, role, dbs, existing) =>
      var id := AdminTarget(s, actor, name);
      if id == None || (role == Dev && !DatabasesOk(dbs, existing)) then Nop
      else if s.Admins() == {id.value} && role != Admin then Nop
      else SetRole(id.value, role, false)
    case DeleteUser(actor, name) =>
      var id := AdminTarget(s, actor, name);
      if id == None || s.Admins() == {id.value} then Nop
      else RemoveUser(id.value)
    case ResetPassword(actor, name, password) =>
      var id := Lookup(s, name);
      if !IsAdmin(s, actor) || id == None || !PasswordOk(password) then Nop
      else SetPassword(id.value, password)
    case SaveSetting(completed) => SetFlag(completed)
    case CliCreate(name, password, role) =>
      if !WordOrHyphen(name) || s.HasId(name) || !CliPasswordOk(password) then Nop
      else AddUser(name, password, role)
    case CliDelete(name) =>
      var id := Lookup(s, name);
      if !CliTargetOk(name) || id == None || s.Admins() == {id.value} then Nop
      else RemoveUser(id.value)
    case CliReset(name, password) =>
      var id := Lookup(s, name);
      if !CliTargetOk(name) || id == None || !CliPasswordOk(password) then Nop
      else SetPassword(id.value, password)
    case CliChangeRole(name, role) =>
      var id := Lookup(s, name);
      if !CliTargetOk(name) || id == None || s.users[id.value].role == role || s.Admins() == {id.value} then Nop
      else SetRole(id.value, role, true)
    case Wait(seconds) => Advance(seconds)
  }

  /** What the guards of the handlers and of the CLI let through. */
  ghost predicate Allowed(s: Store, e: Effect) {
    match e
    case Install(name, _, _) => s.users == map[]
    case AddUser(name, _, _) => !s.HasId(name)
    case OpenSession(token, uid) => uid in s.users && token !in s.sessions
    case SetPassword(uid, _) => uid in s.users
    case RemoveUser(uid) => uid in s.users && s.Admins() != {uid}
    case SetRole(uid, role, _) => uid in s.users && (role == Admin || s.Admins() != {uid})
    case _ => true
  }

  lemma DecideAllowed(s: Store, r: Request)
    ensures Allowed(s, Decide(s, r))
  {
  }

  function EventOf(s: Store, e: Effect): Event {
    match e
    case Install(_, _, _) => Installed(s.nextId)
    case AddUser(_, _, role) => Created(s.nextId, role)
    case OpenSession(token, uid) => LoggedIn(token, uid)
    case CloseSession(token) => LoggedOut(token)
    case SetPassword(uid, _) => PasswordSet(uid)
    case RemoveUser(uid) => Deleted(uid)
    case SetRole(uid, role, cli) => RoleSet(uid, role, cli)
    case _ => Nothing
  }

  ghost function Exec(s: Store, r: Request): Store {
    DecideAllowed(s, r);
    Perform(s, Decide(s, r))
  }

  // ---------- The databases of dev accounts ----------

  /** dev_databases: which account may open which database while its role is dev. */
  type Grants = set<(nat, string)>

  function Of(uid: nat, names: set<string>): Grants {
    set n | n in names :: (uid, n)
  }

  function Without(dev: Grants, uid: nat): Grants {
    set p | p in dev && p.0 != uid
  }

  /** How many names are inserted one by one before the first repeated one violates the key. */
  function Taken(dbs: seq<string>): (k: nat)
    ensures k <= |dbs|
    decreases |dbs|
  {
    if dbs == [] then 0
    else
      var last := |dbs| - 1;
      var k := Taken(dbs[..last]);
      if k == last && dbs[last] !in dbs[..last] then k + 1 else k
  }

  function Names(dbs: seq<string>): set<string> {
    set i | 0 <= i < |dbs| :: dbs[i]
  }

  /** The names a served request leaves the account with. */
  function NamesGiven(r: Request): set<string> {
    match r
    case CreateUser(_, _, _, role, dbs, _) => if role == Dev then Names(dbs[..Taken(dbs)]) else {}
    case UpdateUser(_, _, role, dbs, _) => if role == Dev then Names(dbs) else {}
    case _ => {}
  }

  /** The rows after an effect; the CLI's change of role leaves them. */
  function Regrant(dev: Grants, s: Store, e: Effect, names: set<string>): Grants {
    match e
    case AddUser(_, _, _) => dev + Of(s.nextId, names)
    case RemoveUser(uid) => Without(dev, uid)
    case SetRole(uid, _, cli) => if cli then dev else Without(dev, uid) + Of(uid, names)
    case _ => dev
  }

  ghost function ExecDev(dev: Grants, s: Store, r: Request): Grants {
    Regrant(dev, s, Decide(s, r), NamesGiven(r))
  }

  /** The rows reference accounts. */
  ghost predicate DevValid(s: Store, dev: Grants) {
    forall p :: p in dev ==> p.0 in s.users
  }

  // ---------- Histories ----------

  datatype Entry = Entry(time: nat, event: Event)

  ghost function Run(requests: seq<Request>): Store
    decreases |requests|
  {
    if requests == [] then EMPTY
    else Exec(Run(requests[..|requests| - 1]), requests[|requests| - 1])
  }

  /** What an observer recorded: one entry per request, stamped with the time it was served. */
  ghost function History(requests: seq<Request>): (h: seq<Entry>)
    ensures |h| == |requests|
    decreases |requests|
  {
    if requests == [] then []
    else
      var before := requests[..|requests| - 1];
      History(before) + [Entry(Run(before).now, EventOf(Run(before), Decide(Run(before), requests[|requests| - 1])))]
  }

  /** Ends every session of the user, or this one. */
  predicate Revokes(e: Event, token: string, uid: nat) {
    match e
    case LoggedOut(t) => t == token
    case PasswordSet(u) => u == uid
    case Deleted(u) => u == uid
    case RoleSet(u, _, cli) => cli && u == uid
    case _ => false
  }

  /** Entry i of the history issued the token to the user and nothing since revoked it. */
  ghost predicate Live(h: seq<Entry>, i: nat, token: string, uid: nat) {
    && i < |h|
    && h[i].event == LoggedIn(token, uid)
    && forall j :: i < j < |h| ==> !Revokes(h[j].event, token, uid)
  }

  function RoleGiven(e: Event, uid: nat): Option<Role> {
    match e
    case Installed(u) => if u == uid then Some(Admin) else None
    case Created(u, r) => if u == uid then Some(r) else None
    case RoleSet(u, r, _) => if u == uid then Some(r) else None
    case _ => None
  }

  function LatestRole(h: seq<Entry>, uid: nat): Option<Role>
    decreases |h|
  {
    if h == [] then None
    else
      var last := RoleGiven(h[|h| - 1].event, uid);
      if last.Some? then last else LatestRole(h[..|h| - 1], uid)
  }

  // ---------- Invariants of runs ----------

  ghost predicate SessionsMatch(s: Store, h: seq<Entry>) {
    && (forall t :: t in s.sessions ==>
          exists i: nat :: Live(h, i, t, s.sessions[t].uid) && s.sessions[t].expires == h[i].time + SESSION_LIFETIME)
    && (forall t, uid: nat, i: nat :: Live(h, i, t, uid) ==>
          t in s.sessions && s.sessions[t] == Session(uid, h[i].time + SESSION_LIFETIME))
  }

  ghost predicate UsersMatch(s: Store, h: seq<Entry>) {
    && (forall uid :: uid in s.users ==> LatestRole(h, uid) == Some(s.users[uid].role))
    && (forall i, uid: nat :: 0 <= i < |h| && h[i].event == Deleted(uid) ==> uid < s.nextId && uid !in s.users)
  }

  lemma PerformValid(s: Store, e: Effect)
    requires s.Valid() && Allowed(s, e)
    ensures Perform(s, e).Valid()
    ensures s.nextId <= Perform(s, e).nextId
  {
  }

  /** One more entry: which live logins stay live. */
  lemma LiveSnoc(h: seq<Entry>, e: Entry, i: nat, token: string, uid: nat)
    ensures Live(h + [e], i, token, uid) <==>
            (i < |h| && Live(h, i, token, uid) && !Revokes(e.event, token, uid))
            || (i == |h| && e.event == LoggedIn(token, uid))
  {
    var h' := h + [e];
    if i < |h| {
      if Live(h, i, token, uid) && !Revokes(e.event, token, uid) {
        assert forall j :: i < j < |h'| ==> !Revokes(h'[j].event, token, uid);
      }
      if Live(h', i, token, uid) {
        assert h'[|h|] == e;
        assert forall j :: i < j < |h| ==> h[j] == h'[j];
      }
    }
  }

  /** Every effect changes the sessions table exactly as its event says. */
  lemma PerformSessions(s: Store, e: Effect)
    requires s.Valid() && Allowed(s, e)
    ensures SessionsFollow(s, Perform(s, e), Entry(s.now, EventOf(s, e)))
  {
    var s' := Perform(s, e);
    match e
    case OpenSession(_, _) =>
    case CloseSession(token) => FilterIs(s, s', EventOf(s, e));
    case SetPassword(uid, _) => FilterIs(s, s', EventOf(s, e));
    case RemoveUser(uid) => FilterIs(s, s', EventOf(s, e));
    case SetRole(uid, _, cli) => FilterIs(s, s', EventOf(s, e));
    case _ => FilterIs(s, s', Nothing);
  }

  /** The sessions an event leaves, token by token. */
  lemma FilterIs(s: Store, s': Store, event: Event)
    requires !event.LoggedIn?
    requires forall t :: t in s'.sessions <==> t in s.sessions && !Revokes(event, t, s.sessions[t].uid)
    requires forall t :: t in s'.sessions ==> s'.sessions[t] == s.sessions[t]
    ensures SessionsFollow(s, s', Entry(s.now, event))
  {
    var kept := map t | t in s.sessions && !Revokes(event, t, s.sessions[t].uid) :: s.sessions[t];
    assert s'.sessions.Keys == kept.Keys;
    assert s'.sessions == kept;
  }

  /** Roles and the set of accounts change exactly as the event says. */
  lemma PerformUsers(s: Store, e: Effect)
    requires s.Valid() && Allowed(s, e)
    ensures var s' := Perform(s, e);
            && (forall i :: i in s'.users ==>
                  match RoleGiven(EventOf(s, e), i)
                  case Some(role) => s'.users[i].role == role
                  case None => i in s.users && s'.users[i].role == s.users[i].role)
            && (forall i :: i in s'.users && i !in s.users ==> i == s.nextId)
            && (EventOf(s, e).Deleted? ==> EventOf(s, e).uid in s.users && EventOf(s, e).uid !in s'.users)
  {
  }

  lemma SessionsMatchSnoc(s: Store, h: seq<Entry>, effect: Effect)
    requires s.Valid() && Allowed(s, effect) && SessionsMatch(s, h)
    ensures SessionsMatch(Perform(s, effect), h + [Entry(s.now, EventOf(s, effect))])
  {
    PerformSessions(s, effect);
    FollowKeepsMatch(s, h, Perform(s, effect), Entry(s.now, EventOf(s, effect)));
  }

  lemma FollowKeepsMatch(s: Store, h: seq<Entry>, s': Store, e: Entry)
    requires SessionsMatch(s, h) && SessionsFollow(s, s', e)
    ensures SessionsMatch(s', h + [e])
  {
    forall t | t in s'.sessions
      ensures exists i: nat :: Live(h + [e], i, t, s'.sessions[t].uid)
                               && s'.sessions[t].expires == (h + [e])[i].time + SESSION_LIFETIME
    {
      SessionHasLogin(s, h, s', e, t);
    }
    forall t, uid: nat, i: nat | Live(h + [e], i, t, uid)
      ensures t in s'.sessions && s'.sessions[t] == Session(uid, (h + [e])[i].time + SESSION_LIFETIME)
    {
      LoginHasSession(s, h, s', e, i, t, uid);
    }
  }

  ghost predicate SessionsFollow(s: Store, s': Store, e: Entry) {
    match e.event
    case LoggedIn(token, uid) =>
      token !in s.sessions && s'.sessions == s.sessions[token := Session(uid, e.time + SESSION_LIFETIME)]
    case event =>
      s'.sessions == map t | t in s.sessions && !Revokes(event, t, s.sessions[t].uid) :: s.sessions[t]
  }

  lemma SessionHasLogin(s: Store, h: seq<Entry>, s': Store, e: Entry, t: string)
    requires SessionsMatch(s, h) && SessionsFollow(s, s', e) && t in s'.sessions
    ensures exists i: nat :: Live(h + [e], i, t, s'.sessions[t].uid)
                             && s'.sessions[t].expires == (h + [e])[i].time + SESSION_LIFETIME
  {
    var uid := s'.sessions[t].uid;
    if e.event == LoggedIn(t, uid) {
      LiveSnoc(h, e, |h|, t, uid);
      assert Live(h + [e], |h|, t, uid);
    } else {
      var i: nat :| Live(h, i, t, uid) && s.sessions[t].expires == h[i].time + SESSION_LIFETIME;
      LiveSnoc(h, e, i, t, uid);
      assert Live(h + [e], i, t, uid) && (h + [e])[i] == h[i];
    }
  }

  lemma LoginHasSession(s: Store, h: seq<Entry>, s': Store, e: Entry, i: nat, t: string, uid: nat)
    requires SessionsMatch(s, h) && SessionsFollow(s, s', e) && Live(h + [e], i, t, uid)
    ensures t in s'.sessions && s'.sessions[t] == Session(uid, (h + [e])[i].time + SESSION_LIFETIME)
  {
    LiveSnoc(h, e, i, t, uid);
  }

  lemma UsersMatchSnoc(s: Store, h: seq<Entry>, e: Effect)
    requires s.Valid() && Allowed(s, e) && UsersMatch(s, h)
    ensures UsersMatch(Perform(s, e), h + [Entry(s.now, EventOf(s, e))])
  {
    PerformValid(s, e);
    PerformUsers(s, e);
    RolesFollow(s, h, Perform(s, e), Entry(s.now, EventOf(s, e)));
    DeletedStayGone(s, h, Perform(s, e), Entry(s.now, EventOf(s, e)));
  }

  lemma LatestRoleSnoc(h: seq<Entry>, e: Entry, uid: nat)
    ensures LatestRole(h + [e], uid) == if RoleGiven(e.event, uid).Some? then RoleGiven(e.event, uid) else LatestRole(h, uid)
  {
    assert (h + [e])[..|h|] == h;
  }

  lemma RolesFollow(s: Store, h: seq<Entry>, s': Store, e: Entry)
    requires UsersMatch(s, h)
    requires forall i :: i in s'.users ==>
               match RoleGiven(e.event, i)
               case Some(role) => s'.users[i].role == role
               case None => i in s.users && s'.users[i].role == s.users[i].role
    ensures forall uid :: uid in s'.users ==> LatestRole(h + [e], uid) == Some(s'.users[uid].role)
  {
    forall uid | uid in s'.users
      ensures LatestRole(h + [e], uid) == Some(s'.users[uid].role)
    {
      LatestRoleSnoc(h, e, uid);
    }
  }

  lemma DeletedStayGone(s: Store, h: seq<Entry>, s': Store, e: Entry)
    requires UsersMatch(s, h) && s.nextId <= s'.nextId
    requires forall i :: i in s'.users && i !in s.users ==> i == s.nextId
    requires e.event.Deleted? ==> e.event.uid < s'.nextId && e.event.uid !in s'.users
    ensures forall i, uid: nat :: 0 <= i <= |h| && (h + [e])[i].event == Deleted(uid) ==> uid < s'.nextId && uid !in s'.users
  {
    forall i, uid: nat | 0 <= i <= |h| && (h + [e])[i].event == Deleted(uid)
      ensures uid < s'.nextId && uid !in s'.users
    {
      if i < |h| { assert h[i].event == Deleted(uid); }
    }
  }

  lemma {:induction false} RunInvariant(requests: seq<Request>)
    ensures Run(requests).Valid()
    ensures SessionsMatch(Run(requests), History(requests))
    ensures UsersMatch(Run(requests), History(requests))
    decreases |requests|
  {
    if requests != [] {
      var before := requests[..|requests| - 1];
      var s := Run(before);
      var e := Decide(s, requests[|requests| - 1]);
      RunInvariant(before);
      DecideAllowed(s, requests[|requests| - 1]);
      PerformValid(s, e);
      SessionsMatchSnoc(s, History(before), e);
      UsersMatchSnoc(s, History(before), e);
    }
  }

  // ---------- Sessions against the history ----------

  /**
   A token is accepted, for user `uid`, exactly when some login issued it to that user less than
   24 hours ago and nothing since revoked it; the role it carries is the last one given to the user.
   */
  lemma SessionTableEqualsHistory(requests: seq<Request>, token: string, uid: nat)
    ensures var s := Run(requests);
            var h := History(requests);
            && ((s.Validate(token).Some? && s.Validate(token).value.uid == uid) <==>
                (exists i: nat :: Live(h, i, token, uid) && s.now < h[i].time + SESSION_LIFETIME))
            && (s.Validate(token).Some? && s.Validate(token).value.uid == uid ==>
                LatestRole(h, uid) == Some(s.Validate(token).value.role))
  {
    RunInvariant(requests);
    var s := Run(requests);
    var h := History(requests);
    if s.Validate(token).Some? && s.Validate(token).value.uid == uid {
      var i: nat :| Live(h, i, token, uid) && s.sessions[token].expires == h[i].time + SESSION_LIFETIME;
    }
  }

  /** An account deleted at any earlier point never speaks again, whoever reuses its name. */
  lemma DeletedAccountsStayDead(requests: seq<Request>, k: nat, token: string)
    requires k < |requests|
    ensures var s := Run(requests);
            s.Validate(token).Some? ==> History(requests)[k].event != Deleted(s.Validate(token).value.uid)
  {
    RunInvariant(requests);
  }

  // ---------- The last administrator ----------

  lemma PerformKeepsAdmin(s: Store, e: Effect)
    requires s.Valid() && Allowed(s, e) && s.Admins() != {}
    ensures Perform(s, e).Admins() != {}
  {
    var target := if e.RemoveUser? || e.SetRole? then {e.uid} else {};
    if s.Admins() - target == {} {
      assert s.Admins() == target;
    } else {
      var b :| b in s.Admins() - target;
      assert b in Perform(s, e).Admins();
    }
  }

  lemma StepKeepsAdmin(requests: seq<Request>, r: Request)
    requires Run(requests).Admins() != {}
    ensures Run(requests + [r]).Admins() != {}
  {
    var s := Run(requests);
    assert (requests + [r])[..|requests + [r]| - 1] == requests;
    RunInvariant(requests);
    DecideAllowed(s, r);
    PerformKeepsAdmin(s, Decide(s, r));
  }

  /** Once there is an administrator there is one after every continuation of the run. */
  lemma {:induction false} LastAdminSurvives(first: seq<Request>, later: seq<Request>)
    requires Run(first).Admins() != {}
    ensures Run(first + later).Admins() != {}
    decreases |later|
  {
    if later == [] {
      assert first + later == first;
    } else {
      StepKeepsAdmin(first, later[0]);
      LastAdminSurvives(first + [later[0]], later[1..]);
      assert first + [later[0]] + later[1..] == first + later;
    }
  }

  /** The i-th step of a run: some allowed effect, recorded in the i-th entry. */
  lemma {:induction false} StepAt(requests: seq<Request>, i: nat) returns (e: Effect)
    requires i < |requests|
    ensures Allowed(Run(requests[..i]), e)
    ensures Run(requests[..i + 1]) == Perform(Run(requests[..i]), e)
    ensures History(requests)[i].event == EventOf(Run(requests[..i]), e)
    decreases |requests|
  {
    var before := requests[..|requests| - 1];
    if i < |before| {
      e := StepAt(before, i);
      assert before[..i] == requests[..i] && before[..i + 1] == requests[..i + 1];
    } else {
      e := Decide(Run(before), requests[i]);
      DecideAllowed(Run(before), requests[i]);
      assert requests[..i] == before && requests[..i + 1] == requests;
    }
  }

  lemma InstallMakesAdmin(s: Store, e: Effect)
    requires Allowed(s, e) && EventOf(s, e).Installed?
    ensures s.Admins() == {} && Perform(s, e).Admins() != {}
  {
    assert s.nextId in Perform(s, e).Admins();
  }

  lemma SetupMakesAdmin(requests: seq<Request>, i: nat)
    requires i < |requests| && History(requests)[i].event.Installed?
    ensures Run(requests[..i]).Admins() == {} && Run(requests[..i + 1]).Admins() != {}
  {
    var e := StepAt(requests, i);
    InstallMakesAdmin(Run(requests[..i]), e);
  }

  lemma AdminAfterSetup(requests: seq<Request>, i: nat, j: nat)
    requires i < j <= |requests| && Run(requests[..i + 1]).Admins() != {}
    ensures Run(requests[..j]).Admins() != {}
  {
    LastAdminSurvives(requests[..i + 1], requests[i + 1..j]);
    assert requests[..i + 1] + requests[i + 1..j] == requests[..j];
  }

  /** Setup is served at most once, even if its flag was never written or later overwritten. */
  lemma SetupAtMostOnce(requests: seq<Request>, i: nat, j: nat)
    requires i < j < |requests|
    ensures var h := History(requests); !(h[i].event.Installed? && h[j].event.Installed?)
  {
    var h := History(requests);
    if h[i].event.Installed? && h[j].event.Installed? {
      SetupMakesAdmin(requests, i);
      SetupMakesAdmin(requests, j);
      AdminAfterSetup(requests, i, j);
    }
  }

  // ---------- The handlers and the CLI as code ----------

  lemma OneAdmin(admins: set<nat>, id: nat)
    requires id in admins
    ensures |admins| > 1 <==> admins != {id}
  {
    if |admins| <= 1 {
      assert |admins - {id}| == 0;
      assert admins == {id} + (admins - {id});
    }
  }

  lemma LookupIs(s: Store, id: nat)
    requires s.Valid() && id in s.users
    ensures Lookup(s, s.users[id].name) == Some(id)
  {
    assert s.HasId(s.users[id].name);
  }

  lemma NamesSnoc(uid: nat, dbs: seq<string>, i: nat)
    requires i < |dbs|
    ensures Of(uid, Names(dbs[..i + 1])) == Of(uid, Names(dbs[..i])) + {(uid, dbs[i])}
    ensures (uid, dbs[i]) in Of(uid, Names(dbs[..i])) <==> dbs[i] in dbs[..i]
    ensures Taken(dbs[..i]) == i ==> Taken(dbs[..i + 1]) == if dbs[i] in dbs[..i] then i else i + 1
  {
    assert dbs[..i + 1][..i] == dbs[..i];
    assert dbs[..i + 1] == dbs[..i] + [dbs[i]];
    assert Names(dbs[..i + 1]) == Names(dbs[..i]) + {dbs[i]} by {
      assert dbs[..i + 1][i] == dbs[i];
      forall x | x in Names(dbs[..i]) ensures x in Names(dbs[..i + 1]) {
        var j :| 0 <= j < i && dbs[..i][j] == x;
        assert dbs[..i + 1][j] == x;
      }
    }
  }

  lemma {:induction false} TakenStops(dbs: seq<string>, i: nat)
    requires i < |dbs| && Taken(dbs[..i + 1]) == i
    ensures Taken(dbs) == i
    decreases |dbs|
  {
    var last := |dbs| - 1;
    if i == last {
      assert dbs[..i + 1] == dbs;
    } else {
      assert dbs[..last][..i + 1] == dbs[..i + 1];
      TakenStops(dbs[..last], i);
    }
  }

  class AuthDatabase {
    var users: map<nat, User>
    var nextId: nat
    var sessions: map<string, Session>
    var setupCompleted: bool
    var now: nat
    var dev: Grants

    function Snapshot(): Store
      reads `users, `nextId, `sessions, `setupCompleted, `now
    {
      Store(users, nextId, sessions, setupCompleted, now)
    }

    constructor ()
      ensures Snapshot() == EMPTY && dev == {}
    {
      users, nextId, sessions, setupCompleted, now, dev := map[], 0, map[], false, 0, {};
    }

    method SelectId(name: string) returns (id: Option<nat>)
      requires Snapshot().Valid()
      ensures id == Lookup(Snapshot(), name)
    {
      if i :| i in users && users[i].name == name {
        id := Some(i);
        LookupIs(Snapshot(), i);
      } else {
        id := None;
      }
    }

    method SelectTarget(actor: string, name: string) returns (id: Option<nat>)
      requires Snapshot().Valid()
      ensures id == AdminTarget(Snapshot(), actor, name)
    {
      var user := Snapshot().Validate(actor);
      if user == None || user.value.role != Admin { return None; }
      if user.value.name == name { return None; }
      id := SelectId(name);
    }

    method InsertUser(name: string, password: string, role: Role)
      modifies `users, `nextId
      ensures Snapshot() == Perform(old(Snapshot()), AddUser(name, password, role))
    {
      users := users[nextId := User(name, password, role)];
      nextId := nextId + 1;
    }

    method DeleteSession(token: string)
      modifies `sessions
      ensures Snapshot() == old(Snapshot()).(sessions := old(sessions) - {token})
    {
      sessions := sessions - {token};
    }

    method DeleteUserSessions(uid: nat)
      modifies `sessions
      ensures Snapshot() == old(Snapshot()).WithoutSessionsOf(uid)
    {
      sessions := map t | t in sessions && sessions[t].uid != uid :: sessions[t];
    }

    /** Deleting a row cascades to the sessions and the databases that reference it. */
    method DeleteUserRow(uid: nat)
      modifies `users, `sessions, `dev
      ensures Snapshot() == old(Snapshot()).WithoutUser(uid) && dev == Without(old(dev), uid)
    {
      users := users - {uid};
      DeleteUserSessions(uid);
      DeleteDevRows(uid);
    }

    method DeleteSessionsAndRow(uid: nat)
      modifies `users, `sessions, `dev
      ensures Snapshot() == old(Snapshot()).WithoutUser(uid) && dev == Without(old(dev), uid)
    {
      DeleteUserSessions(uid);
      DeleteUserRow(uid);
    }

    method DeleteDevRows(uid: nat)
      modifies `dev
      ensures dev == Without(old(dev), uid)
    {
      dev := set p | p in dev && p.0 != uid;
    }

    method UpdateRole(uid: nat, role: Role)
      requires uid in users
      modifies `users
      ensures Snapshot() == old(Snapshot()).(users := old(users)[uid := old(users)[uid].(role := role)])
    {
      users := users[uid := users[uid].(role := role)];
    }

    method UpdatePassword(uid: nat, password: string)
      requires uid in users
      modifies `users, `sessions
      ensures Snapshot() == Perform(old(Snapshot()), SetPassword(uid, password))
    {
      users := users[uid := users[uid].(password := password)];
      DeleteUserSessions(uid);
    }

    method CountAdmins() returns (n: nat)
      ensures n == |Snapshot().Admins()|
    {
      var admins := set i | i in users && users[i].role == Admin;
      n := |admins|;
      assert admins == Snapshot().Admins();
    }

    /** Whether the setup screen is offered: exactly when submitting it would create the account. */
    method SetupCheck() returns (needsSetup: bool)
      ensures forall name, password, flagWritten :: WebNameOk(name) && PasswordOk(password) ==>
                (needsSetup <==> Decide(Snapshot(), Setup(name, password, flagWritten)).Install?)
    {
      var completed := setupCompleted;
      var count := |users|;
      needsSetup := !completed && count == 0;
    }

    method SetupAdmin(name: string, password: string, flagWritten: bool) returns (ok: bool)
      requires Snapshot().Valid()
      modifies `users, `nextId, `sessions, `setupCompleted
      ensures Snapshot() == Exec(old(Snapshot()), Setup(name, password, flagWritten))
      ensures ok <==> Decide(old(Snapshot()), Setup(name, password, flagWritten)) != Nop
    {
      if setupCompleted { return false; }
      if |users| > 0 { return false; }
      if |name| < 3 || !ValidName(name) { return false; }
      if |password| < 8 || |password| > 72 { return false; }
      InsertUser(name, password, Admin);
      if flagWritten { setupCompleted := true; }
      return true;
    }

    method LogIn(name: string, password: string, token: string) returns (ok: bool)
      requires Snapshot().Valid()
      modifies `sessions
      ensures Snapshot() == Exec(old(Snapshot()), Login(name, password, token))
      ensures ok <==> Decide(old(Snapshot()), Login(name, password, token)) != Nop
      ensures ok <==>
              && name != "" && password != "" && token !in old(sessions)
              && exists i :: i in old(users) && old(users)[i].name == name && old(users)[i].password == password
    {
      if name == "" || password == "" { return false; }
      var id := SelectId(name);
      if id == None { return false; }
      if users[id.value].password != password { return false; }
      if token in sessions { return false; }
      sessions := sessions[token := Session(id.value, now + SESSION_LIFETIME)];
      return true;
    }

    method LogOut(token: string)
      modifies `sessions
      ensures Snapshot() == Exec(old(Snapshot()), Logout(token))
    {
      DeleteSession(token);
    }

    method ChangeOwnPassword(token: string, current: string, password: string) returns (ok: bool)
      requires Snapshot().Valid()
      modifies `users, `sessions
      ensures Snapshot() == Exec(old(Snapshot()), ChangePassword(token, current, password))
      ensures ok <==> Decide(old(Snapshot()), ChangePassword(token, current, password)) != Nop
    {
      var user := Snapshot().Validate(token);
      if user == None { return false; }
      if |current| == 0 || |password| == 0 { return false; }
      if |password| < 8 || |password| > 72 { return false; }
      if users[user.value.uid].password != current { return false; }
      UpdatePassword(user.value.uid, password);
      return true;
    }

    /** The insertions of one list, up to the first that fails. */
    method InsertDevRows(uid: nat, dbs: seq<string>) returns (ok: bool)
      requires forall p :: p in dev ==> p.0 != uid
      modifies `dev
      ensures dev == old(dev) + Of(uid, Names(dbs[..Taken(dbs)]))
      ensures ok <==> Taken(dbs) == |dbs|
    {
      ghost var before := dev;
      for i := 0 to |dbs|
        invariant dev == before + Of(uid, Names(dbs[..i])) && Taken(dbs[..i]) == i
      {
        NamesSnoc(uid, dbs, i);
        if (uid, dbs[i]) in dev {
          TakenStops(dbs, i);
          return false;
        }
        dev := dev + {(uid, dbs[i])};
      }
      assert dbs[..|dbs|] == dbs;
      return true;
    }

    /** The same list with ON CONFLICT DO NOTHING, after the old rows are gone. */
    method ReplaceDevRows(uid: nat, dbs: seq<string>)
      modifies `dev
      ensures dev == Without(old(dev), uid) + Of(uid, Names(dbs))
    {
      DeleteDevRows(uid);
      ghost var before := dev;
      for i := 0 to |dbs|
        invariant dev == before + Of(uid, Names(dbs[..i]))
      {
        NamesSnoc(uid, dbs, i);
        dev := dev + {(uid, dbs[i])};
      }
      assert dbs[..|dbs|] == dbs;
    }

    method CheckDatabases(dbs: seq<string>, existing: set<string>) returns (ok: bool)
      ensures ok <==> DatabasesOk(dbs, existing)
    {
      if |dbs| == 0 { return false; }
      for i := 0 to |dbs|
        invariant forall j :: 0 <= j < i ==> dbs[j] !in PROTECTED && dbs[j] in existing
      {
        if dbs[i] in PROTECTED { return false; }
        if dbs[i] !in existing { return false; }
      }
      return true;
    }

    /** The statements of a creation, once its checks have passed. */
    method AddAccount(name: string, password: string, role: Role, dbs: seq<string>) returns (ok: bool)
      requires Snapshot().Valid() && !Snapshot().HasId(name) && DevValid(Snapshot(), dev)
      modifies `users, `nextId, `dev
      ensures Snapshot() == Perform(old(Snapshot()), AddUser(name, password, role))
      ensures dev == old(dev) + Of(old(nextId), if role == Dev then Names(dbs[..Taken(dbs)]) else {})
      ensures ok <==> (role == Dev ==> Taken(dbs) == |dbs|)
    {
      PerformValid(Snapshot(), AddUser(name, password, role));
      ghost var uid := nextId;
      InsertUser(name, password, role);
      if role != Dev { return true; }
      var id := SelectId(name);
      assert id == Some(uid) by { LookupIs(Snapshot(), uid); }
      ok := InsertDevRows(id.value, dbs);
    }

    /** A name that comes twice in the list stops the insertions; the account has been created by then. */
    method CreateAuthUser(
      actor: string, name: string, password: string, role: Role, dbs: seq<string>, existing: set<string>)
      returns (ok: bool)
      requires Snapshot().Valid() && DevValid(Snapshot(), dev)
      modifies `users, `nextId, `dev
      ensures Snapshot() == Exec(old(Snapshot()), CreateUser(actor, name, password, role, dbs, existing))
      ensures dev == ExecDev(old(dev), old(Snapshot()), CreateUser(actor, name, password, role, dbs, existing))
      ensures ok <==> Decide(old(Snapshot()), CreateUser(actor, name, password, role, dbs, existing)) != Nop
                      && (role == Dev ==> Taken(dbs) == |dbs|)
    {
      if !IsAdmin(Snapshot(), actor) { return false; }
      if |name| < 3 || !ValidName(name) { return false; }
      if |password| < 8 || |password| > 72 { return false; }
      if role == Dev {
        var fine := CheckDatabases(dbs, existing);
        if !fine { return false; }
      }
      var id := SelectId(name);
      if id != None { return false; }
      ok := AddAccount(name, password, role, dbs);
    }

    method UpdateAuthUser(actor: string, name: string, role: Role, dbs: seq<string>, existing: set<string>)
      returns (ok: bool)
      requires Snapshot().Valid()
      modifies `users, `dev
      ensures Snapshot() == Exec(old(Snapshot()), UpdateUser(actor, name, role, dbs, existing))
      ensures dev == ExecDev(old(dev), old(Snapshot()), UpdateUser(actor, name, role, dbs, existing))
      ensures ok <==> Decide(old(Snapshot()), UpdateUser(actor, name, role, dbs, existing)) != Nop
    {
      var id := SelectTarget(actor, name);
      if id == None { return false; }
      if role == Dev {
        var fine := CheckDatabases(dbs, existing);
        if !fine { return false; }
      }
      ok := UpdateRoleUnlessLast(id.value, role);
      if !ok { return; }
      if role == Dev {
        ReplaceDevRows(id.value, dbs);
      } else {
        DeleteDevRows(id.value);
      }
    }

    /** The count guards the write only when the role read was admin and the new one is not. */
    method UpdateRoleUnlessLast(id: nat, role: Role) returns (ok: bool)
      requires id in users
      modifies `users
      ensures ok <==> old(Snapshot()).Admins() != {id} || role == Admin
      ensures Snapshot() == if ok then Perform(old(Snapshot()), SetRole(id, role, false)) else old(Snapshot())
    {
      if users[id].role == Admin && role != Admin {
        var admins := CountAdmins();
        OneAdmin(Snapshot().Admins(), id);
        if admins <= 1 { return false; }
      } else {
        assert role != Admin ==> id !in Snapshot().Admins();
      }
      UpdateRole(id, role);
      return true;
    }

    method DeleteAuthUser(actor: string, name: string) returns (ok: bool)
      requires Snapshot().Valid()
      modifies `users, `sessions, `dev
      ensures Snapshot() == Exec(old(Snapshot()), DeleteUser(actor, name))
      ensures dev == ExecDev(old(dev), old(Snapshot()), DeleteUser(actor, name))
      ensures ok <==> Decide(old(Snapshot()), DeleteUser(actor, name)) != Nop
    {
      var id := SelectTarget(actor, name);
      if id == None { return false; }
      ok := DeleteUnlessLast(id.value);
    }

    /** The two branches of DeleteAuthUser delete in opposite orders; the rows cascade to the sessions. */
    method DeleteUnlessLast(id: nat) returns (ok: bool)
      requires id in users
      modifies `users, `sessions, `dev
      ensures ok <==> old(Snapshot()).Admins() != {id}
      ensures Snapshot() == if ok then old(Snapshot()).WithoutUser(id) else old(Snapshot())
      ensures dev == if ok then Without(old(dev), id) else old(dev)
    {
      if users[id].role == Admin {
        var admins := CountAdmins();
        OneAdmin(Snapshot().Admins(), id);
        if admins <= 1 { return false; }
        DeleteUserRow(id);
        DeleteUserSessions(id);
      } else {
        assert id !in Snapshot().Admins();
        DeleteSessionsAndRow(id);
      }
      return true;
    }

    method ResetAuthUserPassword(actor: string, name: string, password: string) returns (ok: bool)
      requires Snapshot().Valid()
      modifies `users, `sessions
      ensures Snapshot() == Exec(old(Snapshot()), ResetPassword(actor, name, password))
      ensures ok <==> Decide(old(Snapshot()), ResetPassword(actor, name, password)) != Nop
    {
      if !IsAdmin(Snapshot(), actor) { return false; }
      var id := SelectId(name);
      if id == None { return false; }
      if |password| < 8 || |password| > 72 { return false; }
      UpdatePassword(id.value, password);
      return true;
    }

    method CliCreateUser(name: string, password: string, role: Role) returns (ok: bool)
      requires Snapshot().Valid()
      modifies `users, `nextId
      ensures Snapshot() == Exec(old(Snapshot()), CliCreate(name, password, role))
      ensures ok <==> Decide(old(Snapshot()), CliCreate(name, password, role)) != Nop
    {
      if !WordOrHyphen(name) { return false; }
      var existing := SelectId(name);
      if existing != None { return false; }
      if !CliPasswordOk(password) { return false; }
      InsertUser(name, password, role);
      return true;
    }

    method CliDeleteUser(name: string) returns (ok: bool)
      requires Snapshot().Valid()
      modifies `users, `sessions, `dev
      ensures Snapshot() == Exec(old(Snapshot()), CliDelete(name))
      ensures dev == ExecDev(old(dev), old(Snapshot()), CliDelete(name))
      ensures ok <==> Decide(old(Snapshot()), CliDelete(name)) != Nop
    {
      if name in {"q", ""} { return false; }
      if !WordOrHyphen(name) { return false; }
      var admins := CountAdmins();
      var id := SelectId(name);
      if id == None { return false; }
      if users[id.value].role == Admin {
        OneAdmin(Snapshot().Admins(), id.value);
        if admins <= 1 { return false; }
      } else {
        assert id.value !in Snapshot().Admins();
      }
      DeleteSessionsAndRow(id.value);
      return true;
    }

    method CliResetPassword(name: string, password: string) returns (ok: bool)
      requires Snapshot().Valid()
      modifies `users, `sessions
      ensures Snapshot() == Exec(old(Snapshot()), CliReset(name, password))
      ensures ok <==> Decide(old(Snapshot()), CliReset(name, password)) != Nop
    {
      if name in {"q", ""} { return false; }
      if !WordOrHyphen(name) { return false; }
      var id := SelectId(name);
      if id == None { return false; }
      if !CliPasswordOk(password) { return false; }
      UpdatePassword(id.value, password);
      return true;
    }

    method CliSetRole(name: string, role: Role) returns (ok: bool)
      requires Snapshot().Valid()
      modifies `users, `sessions
      ensures Snapshot() == Exec(old(Snapshot()), CliChangeRole(name, role))
      ensures ok <==> Decide(old(Snapshot()), CliChangeRole(name, role)) != Nop
    {
      if name in {"q", ""} { return false; }
      if !WordOrHyphen(name) { return false; }
      var id := SelectId(name);
      if id == None { return false; }
      if role == users[id.value].role { return false; }
      if users[id.value].role == Admin && role != Admin {
        var admins := CountAdmins();
        OneAdmin(Snapshot().Admins(), id.value);
        if admins <= 1 { return false; }
      } else {
        assert id.value !in Snapshot().Admins();
      }
      UpdateRole(id.value, role);
      DeleteUserSessions(id.value);
      return true;
    }
  }
}
