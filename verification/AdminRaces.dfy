/**
 The role handlers read an account's role in one statement and write it in a
 later one.  Here the statements of any number of requests interleave freely.
 */
module AdminRaces {
  import opened Accounts

  /** A request between its two statements; `sawAdmin` is what its SELECT returned. */
  datatype Flight =
    | Updating(uid: nat, role: Role, sawAdmin: bool)
    | Deleting(uid: nat, sawAdmin: bool)

  datatype World = World(roles: map<nat, Role>, nextId: nat, flights: map<nat, Flight>) {
    function Admins(): set<nat> {
      set i | i in roles && roles[i] == Admin
    }

    ghost predicate Valid() {
      && (forall i :: i in roles ==> i < nextId)
      && (forall r :: r in flights ==> flights[r].uid < nextId)
    }
  }

  datatype Statement =
    | Insert(role: Role)
    | SelectForUpdate(request: nat, uid: nat, role: Role)
    | SelectForDelete(request: nat, uid: nat)
    | Write(request: nat)

  /** The guarded statements carry `(SELECT COUNT(*) ... role = 'admin') > 1` in their WHERE clause. */
  function WriteFlight(roles: map<nat, Role>, admins: nat, f: Flight): map<nat, Role> {
    if f.uid !in roles then roles
    else match f
      case Updating(uid, role, sawAdmin) =>
        if sawAdmin && role != Admin && admins <= 1 then roles else roles[uid := role]
      case Deleting(uid, sawAdmin) =>
        if sawAdmin && (roles[uid] != Admin || admins <= 1) then roles else roles - {uid}
  }

  function Next(w: World, s: Statement): World {
    match s
    case Insert(role) => w.(roles := w.roles[w.nextId := role], nextId := w.nextId + 1)
    case SelectForUpdate(r, uid, role) =>
      if uid in w.roles then w.(flights := w.flights[r := Updating(uid, role, w.roles[uid] == Admin)]) else w
    case SelectForDelete(r, uid) =>
      if uid in w.roles then w.(flights := w.flights[r := Deleting(uid, w.roles[uid] == Admin)]) else w
    case Write(r) =>
      if r in w.flights then
        w.(roles := WriteFlight(w.roles, |w.Admins()|, w.flights[r]), flights := w.flights - {r})
      else w
  }

  function Run(w: World, statements: seq<Statement>): World
    decreases |statements|
  {
    if statements == [] then w else Run(Next(w, statements[0]), statements[1..])
  }

  /** A write that skips the count because its earlier read found no administrator. */
  predicate Unguarded(f: Flight) {
    if f.Updating? then f.role != Admin && !f.sawAdmin else !f.sawAdmin
  }

  /** The statement writes blindly over the only administrator. */
  predicate OverwritesLastAdmin(w: World, s: Statement) {
    s.Write? && s.request in w.flights && Unguarded(w.flights[s.request]) && w.Admins() == {w.flights[s.request].uid}
  }

  lemma WriteFlightEffect(w: World, f: Flight)
    requires w.Admins() != {}
    ensures var after := w.(roles := WriteFlight(w.roles, |w.Admins()|, f)).Admins();
            && w.Admins() - {f.uid} <= after <= w.Admins() + {f.uid}
            && (f.uid in w.Admins() ==>
                  (f.uid in after <==> ((f.Updating? && f.role == Admin) || (f.sawAdmin && |w.Admins()| <= 1))))
  {
  }

  /** One statement ends the reign of the last administrator exactly when it is such a blind write. */
  lemma LosesLastAdminIff(w: World, s: Statement)
    requires w.Valid() && w.Admins() != {}
    ensures Next(w, s).Admins() == {} <==> OverwritesLastAdmin(w, s)
  {
    if s.Write? && s.request in w.flights {
      var f := w.flights[s.request];
      WriteFlightEffect(w, f);
      assert Next(w, s).Admins() == w.(roles := WriteFlight(w.roles, |w.Admins()|, f)).Admins();
      if f.uid in w.Admins() {
        OneAdmin(w.Admins(), f.uid);
      } else {
        var a :| a in w.Admins();
        assert a in w.Admins() - {f.uid};
      }
      if w.Admins() != {f.uid} {
        var b :| b in w.Admins() && b != f.uid;
        assert b in Next(w, s).Admins();
      } else if !Unguarded(f) {
        assert f.uid in Next(w, s).Admins();
      }
    } else {
      var a :| a in w.Admins();
      assert a in Next(w, s).Admins();
    }
  }

  /** No account becomes an administrator while a request that read it as something else is still to write it. */
  ghost predicate NoPromotionInFlight(w: World, statements: seq<Statement>)
    decreases |statements|
  {
    statements != [] ==>
      var w' := Next(w, statements[0]);
      && (forall r :: r in w'.flights && !w'.flights[r].sawAdmin && w'.flights[r].uid in w'.Admins() ==>
            w'.flights[r].uid in w.Admins())
      && NoPromotionInFlight(w', statements[1..])
  }

  /** Requests that read a non-administrator still face one. */
  ghost predicate ReadsCurrent(w: World) {
    forall r :: r in w.flights && !w.flights[r].sawAdmin ==> w.flights[r].uid !in w.Admins()
  }

  lemma {:induction false} AdminSurvivesInterleaving(w: World, statements: seq<Statement>)
    requires w.Valid() && w.Admins() != {} && ReadsCurrent(w)
    requires NoPromotionInFlight(w, statements)
    ensures Run(w, statements).Admins() != {}
    decreases |statements|
  {
    if statements != [] {
      var s := statements[0];
      var w' := Next(w, s);
      LosesLastAdminIff(w, s);
      assert !OverwritesLastAdmin(w, s);
      assert w'.Valid();
      forall r | r in w'.flights && !w'.flights[r].sawAdmin
        ensures w'.flights[r].uid !in w'.Admins()
      {
        if s.Write? { assert r in w.flights && w'.flights[r] == w.flights[r]; }
      }
      AdminSurvivesInterleaving(w', statements[1..]);
    }
  }

  lemma RunCons(w: World, s: Statement, rest: seq<Statement>)
    ensures Run(w, [s] + rest) == Run(Next(w, s), rest)
  {
    assert ([s] + rest)[1..] == rest;
  }

  const RACE := [
    SelectForUpdate(10, 1, Viewer),
    SelectForUpdate(11, 1, Admin), Write(11),
    SelectForDelete(12, 0), Write(12),
    Write(10)]

  lemma RaceFirstHalf()
    ensures Run(World(map[0 := Admin, 1 := Dev], 2, map[]), RACE) ==
            Run(World(map[0 := Admin, 1 := Admin], 2, map[10 := Updating(1, Viewer, false)]), RACE[3..])
  {
    var w0 := World(map[0 := Admin, 1 := Dev], 2, map[]);
    var w1 := w0.(flights := map[10 := Updating(1, Viewer, false)]);
    var w2 := w1.(flights := w1.flights[11 := Updating(1, Admin, false)]);
    var w3 := w1.(roles := map[0 := Admin, 1 := Admin]);
    RunCons(w0, RACE[0], RACE[1..]);
    assert Next(w0, RACE[0]) == w1;
    RunCons(w1, RACE[1], RACE[2..]);
    assert Next(w1, RACE[1]) == w2;
    RunCons(w2, RACE[2], RACE[3..]);
    assert Next(w2, RACE[2]) == w3;
    assert RACE == [RACE[0]] + RACE[1..];
    assert RACE[1..] == [RACE[1]] + RACE[2..];
    assert RACE[2..] == [RACE[2]] + RACE[3..];
  }

  lemma RaceSecondHalf()
    ensures Run(World(map[0 := Admin, 1 := Admin], 2, map[10 := Updating(1, Viewer, false)]), RACE[3..]) ==
            World(map[1 := Viewer], 2, map[])
  {
    var w3 := World(map[0 := Admin, 1 := Admin], 2, map[10 := Updating(1, Viewer, false)]);
    var w4 := w3.(flights := w3.flights[12 := Deleting(0, true)]);
    var w5 := w3.(roles := map[1 := Admin]);
    assert w4.Admins() == {0, 1};
    assert RACE[3..] == [RACE[3]] + ([RACE[4]] + ([RACE[5]] + []));
    RunCons(w3, RACE[3], [RACE[4]] + ([RACE[5]] + []));
    assert Next(w3, RACE[3]) == w4;
    RunCons(w4, RACE[4], [RACE[5]] + []);
    assert Next(w4, RACE[4]) == w5;
    RunCons(w5, RACE[5], []);
    assert Next(w5, RACE[5]) == World(map[1 := Viewer], 2, map[]);
  }

  /** Without that proviso the last administrator can go: a promotion slips between another request's two statements. */
  lemma PromotionInFlightLosesAdmin()
    ensures var w := World(map[0 := Admin, 1 := Dev], 2, map[]);
            w.Valid() && ReadsCurrent(w) && w.Admins() == {0} && Run(w, RACE).Admins() == {}
  {
    RaceFirstHalf();
    RaceSecondHalf();
  }
}
