/**
 The certificate handlers and the PgBouncer watcher share a directory and a
 signal file.  Both sides are sequences of single-file steps; this module
 interleaves them freely and proves that no restart is ever lost.
 */
module TlsRestart {
  import opened Prelude

  // ---------- Files and the steps that change them ----------

  datatype Preference = Empty | On | Off

  datatype CertFile = ServerCrt | ServerKey | RootCrt | RootKey

  /**
   File contents are the version of the first PEM block, which is the one a reader takes; 0 is a file
   without any.
   */
  datatype Files = Files(pref: Option<Preference>, certs: map<CertFile, nat>) {

    predicate HasPair() {
      ServerCrt in certs && ServerKey in certs
    }

    /** What `isSSLEnabled` reports. */
    predicate SslEnabled() {
      if pref == None then HasPair() else pref != Some(Off)
    }
  }

  /** Truncate opens with O_TRUNC, Touch without; both create a missing file. */
  datatype FileOp =
    | Truncate(file: CertFile)
    | Touch(file: CertFile)
    | Write(file: CertFile, version: nat)
    | Remove(file: CertFile)
    | TruncatePref
    | WritePref(pref: Preference)
    | Signal

  function Apply(f: Files, op: FileOp): Files {
    match op
    case Truncate(n) => f.(certs := f.certs[n := 0])
    case Touch(n) => if n in f.certs then f else f.(certs := f.certs[n := 0])
    case Write(n, v) => f.(certs := f.certs[n := v])
    case Remove(n) => f.(certs := f.certs - {n})
    case TruncatePref => f.(pref := Some(Empty))
    case WritePref(p) => f.(pref := Some(p))
    case Signal => f
  }

  ghost function ApplyAll(f: Files, ops: seq<FileOp>): Files
    decreases |ops|
  {
    if ops == [] then f else ApplyAll(Apply(f, ops[0]), ops[1..])
  }

  // ---------- Requests ----------

  datatype Request =
    | Generate(version: nat)
    | Upload(version: nat, withCa: bool)
    | Enable
    | Disable
    | Delete

  function PreferenceOps(p: Preference): seq<FileOp> {
    [TruncatePref, WritePref(p), Signal]
  }

  /** The file steps a request performs, given the files it finds. */
  function HandlerOps(f: Files, req: Request): seq<FileOp> {
    match req
    case Generate(v) =>
      [Truncate(RootCrt), Write(RootCrt, v), Touch(RootKey), Write(RootKey, v),
       Truncate(ServerCrt), Write(ServerCrt, v), Touch(ServerKey), Write(ServerKey, v)] + PreferenceOps(On)
    case Upload(v, withCa) =>
      [Truncate(ServerCrt), Write(ServerCrt, v), Truncate(ServerKey), Write(ServerKey, v)]
      + (if withCa then [Truncate(RootCrt), Write(RootCrt, v)] else [])
      + PreferenceOps(On)
    case Enable => if !f.HasPair() || f.SslEnabled() then [] else PreferenceOps(On)
    case Disable => PreferenceOps(Off)
    case Delete =>
      (if f.SslEnabled() then PreferenceOps(Off) else [])
      + [Remove(ServerCrt), Remove(ServerKey), Remove(RootCrt), Remove(RootKey)]
  }

  /** The handlers as code: each changes the directory and keeps a journal of its steps. */
  class SslHandler {
    var pref: Option<Preference>
    var certs: map<CertFile, nat>
    var signalled: bool
    var journal: seq<FileOp>

    function State(): Files
      reads this
    {
      Files(pref, certs)
    }

    constructor (pref: Option<Preference>, certs: map<CertFile, nat>)
      ensures State() == Files(pref, certs) && !signalled && journal == []
    {
      this.pref, this.certs, this.signalled, this.journal := pref, certs, false, [];
    }

    method Do(op: FileOp)
      modifies this
      ensures State() == Apply(old(State()), op)
      ensures journal == old(journal) + [op]
      ensures signalled == (old(signalled) || op == Signal)
    {
      match op {
        case Truncate(n) => certs := certs[n := 0];
        case Touch(n) => if n !in certs { certs := certs[n := 0]; }
        case Write(n, v) => certs := certs[n := v];
        case Remove(n) => certs := certs - {n};
        case TruncatePref => pref := Some(Empty);
        case WritePref(p) => pref := Some(p);
        case Signal => signalled := true;
      }
      journal := journal + [op];
    }

    method WritePreference(p: Preference)
      modifies this
      ensures pref == Some(p) && certs == old(certs) && signalled
      ensures journal == old(journal) + PreferenceOps(p)
    {
      Do(TruncatePref);
      Do(WritePref(p));
      Do(Signal);
    }

    /** os.Create or os.WriteFile, and os.OpenFile without O_TRUNC when `truncate` is false. */
    method WriteFile(n: CertFile, v: nat, truncate: bool)
      modifies this
      ensures pref == old(pref) && certs == old(certs)[n := v] && signalled == old(signalled)
      ensures journal == old(journal) + [if truncate then Truncate(n) else Touch(n), Write(n, v)]
    {
      Do(if truncate then Truncate(n) else Touch(n));
      Do(Write(n, v));
    }

    method GenerateCerts(v: nat)
      modifies this
      ensures journal == old(journal) + HandlerOps(old(State()), Generate(v))
      ensures pref == Some(On) && signalled
      ensures certs == old(certs)[RootCrt := v][RootKey := v][ServerCrt := v][ServerKey := v]
    {
      WriteFile(RootCrt, v, true);
      WriteFile(RootKey, v, false);
      WriteFile(ServerCrt, v, true);
      WriteFile(ServerKey, v, false);
      WritePreference(On);
    }

    method UploadCerts(v: nat, withCa: bool)
      modifies this
      ensures journal == old(journal) + HandlerOps(old(State()), Upload(v, withCa))
      ensures pref == Some(On) && signalled
      ensures withCa ==> certs == old(certs)[ServerCrt := v][ServerKey := v][RootCrt := v]
      ensures !withCa ==> certs == old(certs)[ServerCrt := v][ServerKey := v]
    {
      WriteFile(ServerCrt, v, true);
      WriteFile(ServerKey, v, true);
      if withCa {
        WriteFile(RootCrt, v, true);
      }
      WritePreference(On);
    }

    method EnableCerts() returns (ok: bool)
      modifies this
      ensures journal == old(journal) + HandlerOps(old(State()), Enable)
      ensures ok == old(State()).HasPair() && certs == old(certs)
      ensures ok ==> State().SslEnabled()
      ensures pref == (if ok && !old(State()).SslEnabled() then Some(On) else old(pref))
    {
      if !State().HasPair() { return false; }
      if State().SslEnabled() { return true; }
      WritePreference(On);
      return true;
    }

    method DisableCerts()
      modifies this
      ensures journal == old(journal) + HandlerOps(old(State()), Disable)
      ensures pref == Some(Off) && certs == old(certs) && signalled
    {
      WritePreference(Off);
    }

    method DeleteCerts()
      modifies this
      ensures journal == old(journal) + HandlerOps(old(State()), Delete)
      ensures certs == map[] && !State().SslEnabled()
    {
      if State().SslEnabled() {
        WritePreference(Off);
      }
      var names := [ServerCrt, ServerKey, RootCrt, RootKey];
      ghost var before := journal;
      for i := 0 to |names|
        invariant journal == before + seq(i, k requires 0 <= k < i => Remove(names[k]))
        invariant forall k :: 0 <= k < i ==> names[k] !in certs
        invariant !State().SslEnabled()
      {
        Do(Remove(names[i]));
      }
      assert names[0] !in certs && names[1] !in certs && names[2] !in certs && names[3] !in certs;
      assert forall n :: n in certs ==> n.ServerCrt? || n.ServerKey? || n.RootCrt? || n.RootKey?;
    }
  }

  // ---------- The watcher ----------

  datatype Running = Down | Crashed | Plain | Tls(crt: nat, key: nat)

  datatype Watcher =
    | Poll
    | Seen
    | Stopping
    | ReadPref
    | CheckCrt
    | CheckKey
    | Launch(tls: bool)
    | LoadKey(crt: nat)

  /** What write_tls_config and PgBouncer make of a directory nobody is changing. */
  function Desired(f: Files): Running {
    if f.pref != Some(Off) && f.HasPair() then Tls(f.certs[ServerCrt], f.certs[ServerKey]) else Plain
  }

  datatype State = State(
    files: Files,
    signal: bool,
    pending: seq<FileOp>,
    watcher: Watcher,
    running: Running)

  datatype Action = Start(req: Request) | AppStep | WatchStep

  function Watch(s: State): State {
    var f := s.files;
    match s.watcher
    case Poll => if s.signal then s.(watcher := Seen) else s
    case Seen => s.(signal := false, watcher := Stopping)
    case Stopping => s.(running := Down, watcher := ReadPref)
    case ReadPref => s.(watcher := if f.pref == Some(Off) then Launch(false) else CheckCrt)
    case CheckCrt => s.(watcher := if ServerCrt in f.certs then CheckKey else Launch(false))
    case CheckKey => s.(watcher := Launch(ServerKey in f.certs))
    case Launch(tls) =>
      if !tls then s.(running := Plain, watcher := Poll)
      else if ServerCrt in f.certs then s.(watcher := LoadKey(f.certs[ServerCrt]))
      else s.(running := Crashed, watcher := Poll)
    case LoadKey(c) =>
      s.(running := if ServerKey in f.certs then Tls(c, f.certs[ServerKey]) else Crashed, watcher := Poll)
  }

  /** One action of either process; a disabled action changes nothing. */
  function Next(s: State, a: Action): State {
    match a
    case Start(req) =>
      if s.pending == [] then s.(pending := HandlerOps(s.files, req)) else s
    case AppStep =>
      if s.pending == [] then s
      else State(Apply(s.files, s.pending[0]), s.signal || s.pending[0] == Signal, s.pending[1..], s.watcher, s.running)
    case WatchStep => Watch(s)
  }

  function Run(s: State, actions: seq<Action>): State
    decreases |actions|
  {
    if actions == [] then s else Run(Next(s, actions[0]), actions[1..])
  }

  /** The container starts PgBouncer before its first poll, over whatever files are there. */
  ghost predicate Init(s: State) {
    && s.pending == []
    && s.watcher == ReadPref
    && s.running == Down
    && s.files.pref != Some(Empty)
    && PrefCovered(s.files)
  }

  ghost predicate Quiescent(s: State) {
    !s.signal && s.pending == [] && s.watcher == Poll
  }

  // ---------- The invariant ----------

  ghost predicate PrefCovered(f: Files) {
    f.pref == Some(On) ==> f.HasPair()
  }

  /** What the watcher will be running at its next poll if the files stay as they are. */
  ghost function Predicted(s: State): Running {
    var f := s.files;
    match s.watcher
    case Poll => s.running
    case Seen => Desired(f)
    case Stopping => Desired(f)
    case ReadPref => Desired(f)
    case CheckCrt => Desired(f.(pref := Some(On)))
    case CheckKey =>
      if ServerKey !in f.certs then Plain
      else if ServerCrt in f.certs then Tls(f.certs[ServerCrt], f.certs[ServerKey]) else Crashed
    case Launch(tls) =>
      if !tls then Plain
      else if f.HasPair() then Tls(f.certs[ServerCrt], f.certs[ServerKey]) else Crashed
    case LoadKey(c) => if ServerKey in f.certs then Tls(c, f.certs[ServerKey]) else Crashed
  }

  /** The rest of a handler may only skip the signal when it removes files nobody will load. */
  ghost predicate Harmless(f: Files, pending: seq<FileOp>) {
    (forall i :: 0 <= i < |pending| ==> pending[i].Remove?) && Desired(f) == Plain
  }

  /** Every intermediate directory of the pending steps is one the protocol can live with. */
  ghost predicate PendingOk(f: Files, pending: seq<FileOp>)
    decreases |pending|
  {
    && PrefCovered(f)
    && (pending == [] ==> f.pref != Some(Empty))
    && (pending != [] ==>
          && (Signal in pending || Harmless(f, pending))
          && PendingOk(Apply(f, pending[0]), pending[1..]))
  }

  ghost predicate Inv(s: State) {
    && PendingOk(s.files, s.pending)
    && (s.watcher == Seen ==> s.signal)
    && (s.signal || Signal in s.pending || Predicted(s) == Desired(s.files))
  }

  lemma {:induction false} PreferenceOpsOk(f: Files, p: Preference)
    requires PrefCovered(f) && p != Empty && (p == On ==> f.HasPair())
    ensures PendingOk(f, PreferenceOps(p))
  {
    var f1 := Apply(f, TruncatePref);
    var f2 := Apply(f1, WritePref(p));
    assert PendingOk(f2, []);
    assert PendingOk(f2, [Signal]);
    assert [WritePref(p), Signal][1..] == [Signal];
    assert Signal in [WritePref(p), Signal];
    assert PendingOk(f1, [WritePref(p), Signal]);
    assert PreferenceOps(p)[1..] == [WritePref(p), Signal];
    assert Signal in PreferenceOps(p);
  }

  /** Writing certificates never endangers a program that ends by signalling. */
  lemma {:induction false} CertWritesOk(f: Files, writes: seq<FileOp>, rest: seq<FileOp>)
    requires forall i :: 0 <= i < |writes| ==> writes[i].Truncate? || writes[i].Touch? || writes[i].Write?
    requires PrefCovered(f) && Signal in rest
    requires PendingOk(ApplyAll(f, writes), rest)
    ensures PendingOk(f, writes + rest)
    decreases |writes|
  {
    if writes == [] {
      assert writes + rest == rest;
    } else {
      var all := writes + rest;
      assert Signal in all;
      assert all[1..] == writes[1..] + rest;
      CertWritesOk(Apply(f, writes[0]), writes[1..], rest);
    }
  }

  lemma {:induction false} CertWritesEffect(f: Files, writes: seq<FileOp>)
    requires forall i :: 0 <= i < |writes| ==> writes[i].Truncate? || writes[i].Touch? || writes[i].Write?
    ensures ApplyAll(f, writes).pref == f.pref
    ensures f.certs.Keys <= ApplyAll(f, writes).certs.Keys
    ensures forall i :: 0 <= i < |writes| ==> writes[i].file in ApplyAll(f, writes).certs
    decreases |writes|
  {
    if writes != [] {
      CertWritesEffect(Apply(f, writes[0]), writes[1..]);
    }
  }

  lemma {:induction false} RemovalsOk(f: Files, removals: seq<FileOp>)
    requires PrefCovered(f) && f.pref != Some(Empty) && Harmless(f, removals)
    ensures PendingOk(f, removals)
    decreases |removals|
  {
    if removals != [] {
      RemovalsOk(Apply(f, removals[0]), removals[1..]);
    }
  }

  lemma {:induction false} SequenceOk(f: Files, first: seq<FileOp>, removals: seq<FileOp>)
    requires first == PreferenceOps(Off) && PrefCovered(f)
    requires forall i :: 0 <= i < |removals| ==> removals[i].Remove?
    ensures PendingOk(f, first + removals)
  {
    var f1 := Apply(f, TruncatePref);
    var f2 := Apply(f1, WritePref(Off));
    var ops := first + removals;
    RemovalsOk(f2, removals);
    assert ops[1..][1..][1..] == removals;
    assert ops[2] == ops[1..][1] == ops[1..][1..][0] == Signal;
    assert PendingOk(f2, ops[1..][1..]);
    assert PendingOk(f1, ops[1..]);
  }

  lemma HandlerOpsOk(f: Files, req: Request)
    requires PrefCovered(f) && f.pref != Some(Empty)
    ensures PendingOk(f, HandlerOps(f, req))
  {
    match req
    case Generate(v) =>
      var writes := [Truncate(RootCrt), Write(RootCrt, v), Touch(RootKey), Write(RootKey, v),
                     Truncate(ServerCrt), Write(ServerCrt, v), Touch(ServerKey), Write(ServerKey, v)];
      CertWritesEffect(f, writes);
      assert writes[4].file == ServerCrt && writes[6].file == ServerKey;
      PreferenceOpsOk(ApplyAll(f, writes), On);
      assert PreferenceOps(On)[2] == Signal;
      CertWritesOk(f, writes, PreferenceOps(On));
    case Upload(v, withCa) =>
      var writes := [Truncate(ServerCrt), Write(ServerCrt, v), Truncate(ServerKey), Write(ServerKey, v)]
                    + (if withCa then [Truncate(RootCrt), Write(RootCrt, v)] else []);
      CertWritesEffect(f, writes);
      assert writes[0].file == ServerCrt && writes[2].file == ServerKey;
      PreferenceOpsOk(ApplyAll(f, writes), On);
      assert PreferenceOps(On)[2] == Signal;
      CertWritesOk(f, writes, PreferenceOps(On));
    case Enable =>
      if HandlerOps(f, req) != [] { PreferenceOpsOk(f, On); }
    case Disable => PreferenceOpsOk(f, Off);
    case Delete =>
      var removals := [Remove(ServerCrt), Remove(ServerKey), Remove(RootCrt), Remove(RootKey)];
      if f.SslEnabled() {
        SequenceOk(f, PreferenceOps(Off), removals);
      } else {
        assert HandlerOps(f, req) == removals;
        RemovalsOk(f, removals);
      }
  }

  lemma InvInit(s: State)
    requires Init(s)
    ensures Inv(s)
  {
  }

  lemma InvAppStep(s: State)
    requires Inv(s) && s.pending != []
    ensures Inv(Next(s, AppStep))
  {
    var s' := Next(s, AppStep);
    if !s'.signal && Signal !in s'.pending {
      assert s.pending == [s.pending[0]] + s'.pending;
      assert Signal !in s.pending;
      assert s.pending[0].Remove?;
    }
  }

  lemma InvNext(s: State, a: Action)
    requires Inv(s)
    ensures Inv(Next(s, a))
  {
    match a
    case Start(req) =>
      if s.pending == [] { HandlerOpsOk(s.files, req); }
    case AppStep =>
      if s.pending != [] { InvAppStep(s); }
    case WatchStep =>
  }

  lemma {:induction false} InvRun(s: State, actions: seq<Action>)
    requires Inv(s)
    ensures Inv(Run(s, actions))
    decreases |actions|
  {
    if actions != [] {
      InvNext(s, actions[0]);
      InvRun(Next(s, actions[0]), actions[1..]);
    }
  }

  // ---------- Main results ----------

  /** No interleaving loses a restart: once everything is at rest, PgBouncer runs what the files ask for. */
  lemma NoLostRestart(s: State, actions: seq<Action>)
    requires Init(s)
    ensures var s' := Run(s, actions); Quiescent(s') ==> s'.running == Desired(s'.files)
  {
    InvInit(s);
    InvRun(s, actions);
  }

  /** "on" is never on disk without both certificate files, at any intermediate step. */
  lemma PreferenceNeverOutrunsCertificates(s: State, actions: seq<Action>)
    requires Init(s)
    ensures var f := Run(s, actions).files; f.pref == Some(On) ==> ServerCrt in f.certs && ServerKey in f.certs
  {
    InvInit(s);
    InvRun(s, actions);
  }

  /** At rest the status page and the running process agree, though they are computed differently. */
  lemma StatusMatchesRunning(s: State, actions: seq<Action>)
    requires Init(s)
    ensures var s' := Run(s, actions); Quiescent(s') ==> (s'.files.SslEnabled() <==> s'.running.Tls?)
  {
    InvInit(s);
    InvRun(s, actions);
    var s' := Run(s, actions);
    if Quiescent(s') {
      assert PendingOk(s'.files, []);
      assert s'.files.pref.Some? ==> s'.files.pref.value.On? || s'.files.pref.value.Off?;
    }
  }

  // ---------- Convergence ----------

  /** Watcher steps left before it is back at its poll point with no signal to serve. */
  ghost function Remaining(s: State): nat {
    (match s.watcher
     case Poll => 0
     case Seen => 7
     case Stopping => 6
     case ReadPref => 5
     case CheckCrt => 4
     case CheckKey => 3
     case Launch(_) => 2
     case LoadKey(_) => 1)
    + (if s.signal && s.watcher != Seen then 8 else 0)
  }

  ghost function WatchFor(s: State, n: nat): State
    decreases n
  {
    if n == 0 then s else WatchFor(Watch(s), n - 1)
  }

  lemma {:induction false} WatchForConverges(s: State, n: nat)
    requires Inv(s) && s.pending == [] && Remaining(s) <= n
    ensures Quiescent(WatchFor(s, n)) && Inv(WatchFor(s, n)) && WatchFor(s, n).files == s.files
    decreases n
  {
    if n > 0 {
      InvNext(s, WatchStep);
      WatchForConverges(Watch(s), n - 1);
    }
  }

  /** From any reachable state with no handler in flight, fifteen watcher steps reach the wanted configuration. */
  lemma RestartCompletes(s: State, actions: seq<Action>)
    requires Init(s) && Run(s, actions).pending == []
    ensures var s' := Run(s, actions);
            var t := WatchFor(s', 15);
            Quiescent(t) && t.files == s'.files && t.running == Desired(s'.files)
  {
    InvInit(s);
    InvRun(s, actions);
    WatchForConverges(Run(s, actions), 15);
  }

  // ---------- A certificate and the key it belongs to ----------

  /** Server certificate and key, if both are there, come from one request. */
  ghost predicate Matching(f: Files) {
    f.HasPair() ==> f.certs[ServerCrt] == f.certs[ServerKey]
  }

  lemma {:induction false} ApplyAppend(f: Files, a: seq<FileOp>, b: seq<FileOp>)
    ensures ApplyAll(f, a + b) == ApplyAll(ApplyAll(f, a), b)
    decreases |a|
  {
    if a == [] {
      assert a + b == b;
    } else {
      assert (a + b)[1..] == a[1..] + b;
      ApplyAppend(Apply(f, a[0]), a[1..], b);
    }
  }

  lemma ApplyWrite(f: Files, open: FileOp, n: CertFile, v: nat, rest: seq<FileOp>)
    requires open == Truncate(n) || open == Touch(n)
    ensures ApplyAll(f, [open, Write(n, v)] + rest) == ApplyAll(f.(certs := f.certs[n := v]), rest)
  {
    var ops := [open, Write(n, v)] + rest;
    assert ops[1..] == [Write(n, v)] + rest && ops[1..][1..] == rest;
    assert Apply(Apply(f, open), Write(n, v)).certs == f.certs[n := v];
  }

  lemma PreferenceKeepsCerts(f: Files, p: Preference)
    ensures ApplyAll(f, PreferenceOps(p)).certs == f.certs
  {
    var ops := PreferenceOps(p);
    assert ops[1..] == [WritePref(p), Signal] && ops[1..][1..] == [Signal] && ops[1..][1..][1..] == [];
  }

  lemma {:induction false} RemovalsEffect(f: Files, ops: seq<FileOp>)
    requires forall i :: 0 <= i < |ops| ==> ops[i].Remove?
    ensures ApplyAll(f, ops).certs.Keys <= f.certs.Keys
    ensures forall i :: 0 <= i < |ops| ==> ops[i].file !in ApplyAll(f, ops).certs
    decreases |ops|
  {
    if ops != [] { RemovalsEffect(Apply(f, ops[0]), ops[1..]); }
  }

  lemma GenerateMatches(f: Files, v: nat)
    ensures Matching(ApplyAll(f, HandlerOps(f, Generate(v))))
  {
    var prefs := PreferenceOps(On);
    var key := [Touch(ServerKey), Write(ServerKey, v)] + prefs;
    var crt := [Truncate(ServerCrt), Write(ServerCrt, v)] + key;
    var caKey := [Touch(RootKey), Write(RootKey, v)] + crt;
    assert HandlerOps(f, Generate(v)) == [Truncate(RootCrt), Write(RootCrt, v)] + caKey;
    var f1 := f.(certs := f.certs[RootCrt := v]);
    var f2 := f1.(certs := f1.certs[RootKey := v]);
    var f3 := f2.(certs := f2.certs[ServerCrt := v]);
    var f4 := f3.(certs := f3.certs[ServerKey := v]);
    ApplyWrite(f, Truncate(RootCrt), RootCrt, v, caKey);
    ApplyWrite(f1, Touch(RootKey), RootKey, v, crt);
    ApplyWrite(f2, Truncate(ServerCrt), ServerCrt, v, key);
    ApplyWrite(f3, Touch(ServerKey), ServerKey, v, prefs);
    PreferenceKeepsCerts(f4, On);
  }

  lemma UploadMatches(f: Files, v: nat, withCa: bool)
    ensures Matching(ApplyAll(f, HandlerOps(f, Upload(v, withCa))))
  {
    var prefs := PreferenceOps(On);
    var ca := if withCa then [Truncate(RootCrt), Write(RootCrt, v)] + prefs else prefs;
    var key := [Truncate(ServerKey), Write(ServerKey, v)] + ca;
    assert HandlerOps(f, Upload(v, withCa)) == [Truncate(ServerCrt), Write(ServerCrt, v)] + key;
    var f1 := f.(certs := f.certs[ServerCrt := v]);
    var f2 := f1.(certs := f1.certs[ServerKey := v]);
    var f3 := f2.(certs := f2.certs[RootCrt := v]);
    ApplyWrite(f, Truncate(ServerCrt), ServerCrt, v, key);
    ApplyWrite(f1, Truncate(ServerKey), ServerKey, v, ca);
    if withCa { ApplyWrite(f2, Truncate(RootCrt), RootCrt, v, prefs); }
    PreferenceKeepsCerts(f2, On);
    PreferenceKeepsCerts(f3, On);
  }

  lemma DeleteMatches(f: Files)
    ensures Matching(ApplyAll(f, HandlerOps(f, Delete)))
  {
    var removals := [Remove(ServerCrt), Remove(ServerKey), Remove(RootCrt), Remove(RootKey)];
    var first := if f.SslEnabled() then PreferenceOps(Off) else [];
    ApplyAppend(f, first, removals);
    RemovalsEffect(ApplyAll(f, first), removals);
    assert removals[0].file == ServerCrt;
  }

  /** Every request, once finished, leaves a matching pair or none. */
  lemma HandlerOpsMatch(f: Files, req: Request)
    requires Matching(f)
    ensures Matching(ApplyAll(f, HandlerOps(f, req)))
  {
    match req
    case Generate(v) => GenerateMatches(f, v);
    case Upload(v, withCa) => UploadMatches(f, v, withCa);
    case Enable => PreferenceKeepsCerts(f, On);
    case Disable => PreferenceKeepsCerts(f, Off);
    case Delete => DeleteMatches(f);
  }

  lemma MatchingNext(s: State, a: Action)
    requires Matching(ApplyAll(s.files, s.pending))
    ensures var s' := Next(s, a); Matching(ApplyAll(s'.files, s'.pending))
  {
    if a.Start? && s.pending == [] { HandlerOpsMatch(s.files, a.req); }
  }

  lemma {:induction false} MatchingRun(s: State, actions: seq<Action>)
    requires Matching(ApplyAll(s.files, s.pending))
    ensures var s' := Run(s, actions); Matching(ApplyAll(s'.files, s'.pending))
    decreases |actions|
  {
    if actions != [] {
      MatchingNext(s, actions[0]);
      MatchingRun(Next(s, actions[0]), actions[1..]);
    }
  }

  /**
   At rest PgBouncer never runs a certificate with another one's key, however the steps interleaved; and
   with no handler in flight the watcher gets there by itself.
   */
  lemma RunningPairMatches(s: State, actions: seq<Action>)
    requires Init(s) && Matching(s.files)
    ensures var s' := Run(s, actions); Quiescent(s') && s'.running.Tls? ==> s'.running.crt == s'.running.key
    ensures var s' := Run(s, actions);
            s'.pending == [] ==>
              var t := WatchFor(s', 15);
              t.running.Tls? ==> t.running.crt == t.running.key
  {
    NoLostRestart(s, actions);
    MatchingRun(s, actions);
    if Run(s, actions).pending == [] { RestartCompletes(s, actions); }
  }

  lemma RunStep(s: State, a: Action, rest: seq<Action>)
    ensures Run(s, [a] + rest) == Run(Next(s, a), rest)
  {
    assert ([a] + rest)[1..] == rest;
  }

  /** An upload that starts when PgBouncer has loaded the certificate and is about to load the key. */
  lemma UploadMixes(s: State, v: nat)
    requires s.watcher.LoadKey? && s.pending == []
    ensures var up := Next(s, Start(Upload(v, false)));
            var done := Next(Next(Next(Next(up, AppStep), AppStep), AppStep), AppStep);
            Next(done, WatchStep).running == Tls(s.watcher.crt, v)
  {
    var up := Next(s, Start(Upload(v, false)));
    assert up.pending == [Truncate(ServerCrt), Write(ServerCrt, v), Truncate(ServerKey), Write(ServerKey, v)] + PreferenceOps(On);
    var one := Next(up, AppStep);
    assert one.pending == [Write(ServerCrt, v), Truncate(ServerKey), Write(ServerKey, v)] + PreferenceOps(On);
    var two := Next(one, AppStep);
    assert two.pending == [Truncate(ServerKey), Write(ServerKey, v)] + PreferenceOps(On);
    var three := Next(two, AppStep);
    assert three.pending == [Write(ServerKey, v)] + PreferenceOps(On);
  }

  /** Short of rest it can: both halves of a pair may be on disk and the process hold one of each. */
  lemma MixedPairInBetween(s: State, v: nat) returns (actions: seq<Action>)
    requires Init(s) && s.files.pref != Some(Off) && s.files.HasPair()
    ensures Run(s, actions).running == Tls(s.files.certs[ServerCrt], v)
  {
    actions := [WatchStep, WatchStep, WatchStep, WatchStep]
               + [Start(Upload(v, false)), AppStep, AppStep, AppStep, AppStep, WatchStep];
    var loading := Next(Next(Next(Next(s, WatchStep), WatchStep), WatchStep), WatchStep);
    assert loading.watcher == LoadKey(s.files.certs[ServerCrt]) && loading.pending == [];
    FourSteps(s, [Start(Upload(v, false)), AppStep, AppStep, AppStep, AppStep, WatchStep]);
    UploadMixes(loading, v);
    SixSteps(loading, Start(Upload(v, false)));
  }

  lemma FourSteps(s: State, rest: seq<Action>)
    ensures Run(s, [WatchStep, WatchStep, WatchStep, WatchStep] + rest)
            == Run(Next(Next(Next(Next(s, WatchStep), WatchStep), WatchStep), WatchStep), rest)
  {
    var w := WatchStep;
    RunStep(s, w, [w, w, w] + rest);
    RunStep(Next(s, w), w, [w, w] + rest);
    RunStep(Next(Next(s, w), w), w, [w] + rest);
    RunStep(Next(Next(Next(s, w), w), w), w, rest);
    assert [w, w, w, w] + rest == [w] + ([w, w, w] + rest);
    assert [w, w, w] + rest == [w] + ([w, w] + rest);
    assert [w, w] + rest == [w] + ([w] + rest);
  }

  lemma SixSteps(s: State, first: Action)
    ensures Run(s, [first, AppStep, AppStep, AppStep, AppStep, WatchStep])
            == Next(Next(Next(Next(Next(Next(s, first), AppStep), AppStep), AppStep), AppStep), WatchStep)
  {
    var a := AppStep;
    var s1 := Next(s, first);
    var s3 := Next(Next(s1, a), a);
    var s5 := Next(Next(s3, a), a);
    RunStep(s, first, [a, a, a, a, WatchStep]);
    RunStep(s1, a, [a, a, a, WatchStep]);
    RunStep(Next(s1, a), a, [a, a, WatchStep]);
    RunStep(s3, a, [a, WatchStep]);
    RunStep(Next(s3, a), a, [WatchStep]);
    RunStep(s5, WatchStep, []);
    assert [first, a, a, a, a, WatchStep] == [first] + [a, a, a, a, WatchStep];
    assert [a, a, a, a, WatchStep] == [a] + [a, a, a, WatchStep];
    assert [a, a, a, WatchStep] == [a] + [a, a, WatchStep];
    assert [a, a, WatchStep] == [a] + [a, WatchStep];
    assert [a, WatchStep] == [a] + [WatchStep] && [WatchStep] == [WatchStep] + [];
  }
}
