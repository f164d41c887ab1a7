/**
 The login and sudo protocol of one client connection (process.go: ToSrvInit, ToSrvFirstSRP,
 ToSrvSRPBytesA, ToSrvSRPBytesM, ToSrvCltReady). Results of the authentication backend and
 of the SRP computations are part of the packet events.
 */
module Login {
  const SERIALIZE_VER := 29
  const PROTO_VER := 51
  const MAX_PLAYER_NAME_LEN := 20

  datatype ClientState = Created | Init | Active | Sudo
  datatype AuthMethod = NoMethod | SRP | FirstSRP

  datatype KickReason = UnsupportedVer | BadName | AlreadyConnected | BadNameChars | TooManyClts | Banned
    | UnexpectedData | EmptyPasswd | SrvErr | WrongPasswd

  /** What a connection does towards the client and the authentication backend. */
  datatype Action = SendHello(auth: AuthMethod) | SendAcceptAuth | SendSaltB | SendAcceptSudo | SendDenySudo
    | SendKick(reason: KickReason) | SetPasswd(sudo: bool) | SendChat(ok: bool) | RecordFail(sudo: bool)

  datatype Event =
    | ToSrvInit(serializeVer: int, minProtoVer: int, maxProtoVer: int, name: string,
                taken: bool, limitReached: bool, banned: bool, known: bool)
    | ToSrvFirstSRP(emptyPasswd: bool, requirePasswd: bool, setOk: bool)
    | ToSrvSRPBytesA(noSHA1: bool, passwdOk: bool, handshakeOk: bool)
    | ToSrvSRPBytesM(proofOk: bool)
    | ToSrvCltReady
    | Disconnect

  predicate NameChars(name: string) {
    forall c :: c in name ==> 'a' <= c <= 'z' || 'A' <= c <= 'Z' || '0' <= c <= '9' || c == '-' || c == '_'
  }

  /** `initDone` says that the channel `initCh` is closed; closing it again panics. */
  datatype Conn = Conn(cstate: ClientState, auth: AuthMethod, name: string, isNew: bool,
                       initDone: bool, closed: bool, panicked: bool, log: seq<Action>) {
    function Did(a: Action): Conn {
      this.(log := log + [a])
    }

    /** Kicks wait for the acknowledgement and close the connection. */
    function Kicked(reason: KickReason): Conn {
      Did(SendKick(reason)).(closed := true)
    }
  }

  const FRESH := Conn(Created, NoMethod, "", false, false, false, false, [])

  function InitStep(c: Conn, e: Event): Conn
    requires e.ToSrvInit?
  {
    if c.cstate != Created then c
    else
      var c1 := c.(cstate := Init);
      if e.serializeVer != SERIALIZE_VER then c1.Kicked(UnsupportedVer)
      else if e.maxProtoVer != PROTO_VER || e.minProtoVer > PROTO_VER then c1.Kicked(UnsupportedVer)
      else if |e.name| == 0 || |e.name| > MAX_PLAYER_NAME_LEN then c1.Kicked(BadName)
      else if e.taken then c1.Kicked(AlreadyConnected)
      else
        var c2 := c1.(name := e.name);
        if !NameChars(e.name) then c2.Kicked(BadNameChars)
        else if e.name == "singleplayer" then c2.Kicked(BadName)
        else if e.limitReached then c2.Kicked(TooManyClts)
        else if e.banned then c2.Did(SendKick(Banned))  // asynchronous: the connection closes later
        else
          var m := if e.known then SRP else FirstSRP;
          c2.(auth := m).Did(SendHello(m))
  }

  function FirstSRPStep(c: Conn, e: Event): Conn
    requires e.ToSrvFirstSRP?
  {
    if c.cstate == Init then
      if c.auth != FirstSRP then c.Kicked(UnexpectedData)
      else
        var c1 := c.(auth := NoMethod);
        if e.emptyPasswd && e.requirePasswd then c1.Kicked(EmptyPasswd)
        else
          var c2 := c1.Did(SetPasswd(false));
          if !e.setOk then c2.Kicked(SrvErr) else c2.Did(SendAcceptAuth).(isNew := true)
    else if c.cstate != Sudo then c
    else c.(cstate := Active).Did(SetPasswd(true)).Did(SendChat(e.setOk))
  }

  function BytesAStep(c: Conn, e: Event): Conn
    requires e.ToSrvSRPBytesA?
  {
    if c.cstate != Init && c.cstate != Active then c
    else if c.cstate == Init && c.auth != SRP then c.Kicked(UnexpectedData)
    else if !e.noSHA1 then c
    else
      var c1 := c.(auth := SRP);
      if !e.passwdOk then c1.Kicked(SrvErr)
      else if !e.handshakeOk then c1.Kicked(UnexpectedData)
      else c1.Did(SendSaltB)
  }

  function BytesMStep(c: Conn, e: Event): Conn
    requires e.ToSrvSRPBytesM?
  {
    var wantSudo := c.cstate == Active;
    if c.cstate != Init && !wantSudo then c
    else if c.auth != SRP then if wantSudo then c.Did(SendDenySudo) else c.Kicked(UnexpectedData)
    else if e.proofOk then
      var c1 := c.(auth := NoMethod);
      if wantSudo then c1.(cstate := Sudo).Did(SendAcceptSudo) else c1.Did(SendAcceptAuth)
    else
      var c1 := c.Did(RecordFail(wantSudo));
      if wantSudo then c1.Did(SendDenySudo) else c1.Kicked(WrongPasswd)
  }

  /** Nothing is processed after the connection is closed or the proxy has panicked. */
  function Step(c: Conn, e: Event): Conn {
    if c.closed || c.panicked then c
    else
      match e
      case ToSrvInit(_, _, _, _, _, _, _, _) => InitStep(c, e)
      case ToSrvFirstSRP(_, _, _) => FirstSRPStep(c, e)
      case ToSrvSRPBytesA(_, _, _) => BytesAStep(c, e)
      case ToSrvSRPBytesM(_) => BytesMStep(c, e)
      case ToSrvCltReady => c.(cstate := Active, initDone := true, panicked := c.initDone)
      case Disconnect => c.(closed := true)
  }

  function Run(c: Conn, events: seq<Event>): Conn {
    if events == [] then c else Step(Run(c, events[..|events| - 1]), events[|events| - 1])
  }

  function Count(log: seq<Action>, a: Action): nat {
    if log == [] then 0
    else Count(log[..|log| - 1], a) + if log[|log| - 1] == a then 1 else 0
  }

  lemma CountSnoc(log: seq<Action>, b: Action, a: Action)
    ensures Count(log + [b], a) == Count(log, a) + if b == a then 1 else 0
  {
    assert (log + [b])[..|log|] == log;
  }

  ghost function Accepts(c: Conn): nat { Count(c.log, SendAcceptAuth) }
  ghost function FirstSets(c: Conn): nat { Count(c.log, SetPasswd(false)) }
  ghost function SudoSets(c: Conn): nat { Count(c.log, SetPasswd(true)) }
  ghost function SudoProofs(c: Conn): nat { Count(c.log, SendAcceptSudo) }

  /** What holds between any two packets. */
  ghost predicate Safe(c: Conn) {
    // a login credential is pending only before the one acceptance
    && Accepts(c) <= 1 && FirstSets(c) <= 1
    && (c.cstate == Created ==> c.auth == NoMethod && Accepts(c) == 0 && FirstSets(c) == 0)
    && (c.cstate == Init && c.auth != NoMethod ==> Accepts(c) == 0 && FirstSets(c) == 0)
    // the sudo states are entered behind ToSrvCltReady only
    && (c.initDone <==> c.cstate == Active || c.cstate == Sudo)
    // one password change per accepted proof
    && SudoSets(c) <= SudoProofs(c) <= SudoSets(c) + 1
    && (!c.panicked ==> (c.cstate == Sudo <==> SudoProofs(c) == SudoSets(c) + 1))
    && (!c.initDone ==> SudoProofs(c) == 0)
  }

  lemma CountsSnoc(c: Conn, a: Action)
    ensures Accepts(c.Did(a)) == Accepts(c) + if a == SendAcceptAuth then 1 else 0
    ensures FirstSets(c.Did(a)) == FirstSets(c) + if a == SetPasswd(false) then 1 else 0
    ensures SudoSets(c.Did(a)) == SudoSets(c) + if a == SetPasswd(true) then 1 else 0
    ensures SudoProofs(c.Did(a)) == SudoProofs(c) + if a == SendAcceptSudo then 1 else 0
  {
    CountSnoc(c.log, a, SendAcceptAuth);
    CountSnoc(c.log, a, SetPasswd(false));
    CountSnoc(c.log, a, SetPasswd(true));
    CountSnoc(c.log, a, SendAcceptSudo);
  }

  /** Actions that none of the four counters counts. */
  predicate Neutral(a: Action) {
    a != SendAcceptAuth && !a.SetPasswd? && a != SendAcceptSudo
  }

  lemma NeutralSafe(c: Conn, a: Action)
    requires Safe(c) && Neutral(a)
    ensures Safe(c.Did(a))
  {
    hide Count;
    CountsSnoc(c, a);
  }

  lemma KickSafe(c: Conn, reason: KickReason)
    requires Safe(c)
    ensures Safe(c.Kicked(reason))
  {
    hide Count;
    CountsSnoc(c, SendKick(reason));
  }

  lemma InitSafe(c: Conn, e: Event)
    requires Safe(c) && e.ToSrvInit?
    ensures Safe(InitStep(c, e))
  {
    hide Count, NameChars;
    if c.cstate == Created {
      var c1, c2 := c.(cstate := Init), c.(cstate := Init, name := e.name);
      KickSafe(c1, UnsupportedVer);
      KickSafe(c1, BadName);
      KickSafe(c1, AlreadyConnected);
      KickSafe(c2, BadNameChars);
      KickSafe(c2, BadName);
      KickSafe(c2, TooManyClts);
      NeutralSafe(c2, SendKick(Banned));
      var m := if e.known then SRP else FirstSRP;
      NeutralSafe(c2.(auth := m), SendHello(m));
    }
  }

  lemma FirstSRPSafe(c: Conn, e: Event)
    requires Safe(c) && e.ToSrvFirstSRP? && !c.panicked
    ensures Safe(FirstSRPStep(c, e))
  {
    hide Count;
    var c1 := c.(auth := NoMethod);
    KickSafe(c, UnexpectedData);
    KickSafe(c1, EmptyPasswd);
    var c2 := c1.Did(SetPasswd(false));
    CountsSnoc(c1, SetPasswd(false));
    if c.cstate == Init && c.auth == FirstSRP {
      KickSafe(c2, SrvErr);
      CountsSnoc(c2, SendAcceptAuth);
    } else if c.cstate == Sudo {
      var c3 := c.(cstate := Active);
      CountsSnoc(c3, SetPasswd(true));
      NeutralSafe(c3.Did(SetPasswd(true)), SendChat(e.setOk));
    }
  }

  lemma BytesASafe(c: Conn, e: Event)
    requires Safe(c) && e.ToSrvSRPBytesA?
    ensures Safe(BytesAStep(c, e))
  {
    hide Count;
    KickSafe(c, UnexpectedData);
    if c.cstate == Active || (c.cstate == Init && c.auth == SRP) {
      var c1 := c.(auth := SRP);
      KickSafe(c1, SrvErr);
      KickSafe(c1, UnexpectedData);
      NeutralSafe(c1, SendSaltB);
    }
  }

  lemma BytesMSafe(c: Conn, e: Event)
    requires Safe(c) && e.ToSrvSRPBytesM? && !c.panicked
    ensures Safe(BytesMStep(c, e))
  {
    hide Count;
    NeutralSafe(c, SendDenySudo);
    KickSafe(c, UnexpectedData);
    var wantSudo := c.cstate == Active;
    NeutralSafe(c, RecordFail(wantSudo));
    NeutralSafe(c.Did(RecordFail(wantSudo)), SendDenySudo);
    KickSafe(c.Did(RecordFail(wantSudo)), WrongPasswd);
    var c1 := c.(auth := NoMethod);
    CountsSnoc(c1.(cstate := Sudo), SendAcceptSudo);
    CountsSnoc(c1, SendAcceptAuth);
  }

  lemma StepSafe(c: Conn, e: Event)
    requires Safe(c)
    ensures Safe(Step(c, e))
  {
    hide InitStep, FirstSRPStep, BytesAStep, BytesMStep, Accepts, FirstSets, SudoSets, SudoProofs;
    if !c.closed && !c.panicked {
      match e {
        case ToSrvInit(_, _, _, _, _, _, _, _) => InitSafe(c, e);
        case ToSrvFirstSRP(_, _, _) => FirstSRPSafe(c, e);
        case ToSrvSRPBytesA(_, _, _) => BytesASafe(c, e);
        case ToSrvSRPBytesM(_) => BytesMSafe(c, e);
        case ToSrvCltReady => ReadySafe(c);
        case Disconnect => SameCounts(c, c.(closed := true));
      }
    }
  }

  lemma SameCounts(c: Conn, d: Conn)
    requires c.log == d.log
    ensures Accepts(c) == Accepts(d) && FirstSets(c) == FirstSets(d)
    ensures SudoSets(c) == SudoSets(d) && SudoProofs(c) == SudoProofs(d)
  {
  }

  /** A second ToSrvCltReady may drop the sudo state, but it panics. */
  lemma ReadySafe(c: Conn)
    requires Safe(c) && !c.panicked
    ensures Safe(c.(cstate := Active, initDone := true, panicked := c.initDone))
  {
    hide Count;
    SameCounts(c, c.(cstate := Active, initDone := true, panicked := c.initDone));
  }

  /** Over all packet sequences. */
  lemma {:induction false} RunSafe(events: seq<Event>)
    ensures Safe(Run(FRESH, events))
  {
    if events == [] {
    } else {
      RunSafe(events[..|events| - 1]);
      StepSafe(Run(FRESH, events[..|events| - 1]), events[|events| - 1]);
    }
  }

  /**
   A login is accepted at most once; passwords are changed at most once per accepted sudo
   proof and never more than once besides.
   */
  lemma LoginSafety(events: seq<Event>)
    ensures var c := Run(FRESH, events);
      && Accepts(c) <= 1
      && SudoSets(c) <= SudoProofs(c)
      && FirstSets(c) + SudoSets(c) <= 1 + SudoProofs(c)
      && (!c.panicked ==> (c.cstate == Sudo <==> SudoProofs(c) > SudoSets(c)))
  {
    RunSafe(events);
  }

  /** Every check of ToSrvInit passes. */
  predicate Admitted(e: Event) {
    && e.ToSrvInit? && e.serializeVer == SERIALIZE_VER && e.minProtoVer <= PROTO_VER == e.maxProtoVer
    && 1 <= |e.name| <= MAX_PLAYER_NAME_LEN && NameChars(e.name) && e.name != "singleplayer"
    && !e.taken && !e.limitReached && !e.banned
  }

  /** The greeting is sent exactly to the clients that pass every check, and nothing else changes then. */
  lemma HelloExactly(c: Conn, e: Event)
    requires !c.closed && !c.panicked
    ensures (exists m :: Step(c, e).log == c.log + [SendHello(m)]) <==> c.cstate == Created && Admitted(e)
    ensures c.cstate == Created && Admitted(e) ==>
      var m := if e.known then SRP else FirstSRP;
      Step(c, e) == c.(cstate := Init, name := e.name, auth := m, log := c.log + [SendHello(m)])
  {
    hide NameChars;
    if c.cstate == Created && Admitted(e) {
      assert Step(c, e).log == c.log + [SendHello(if e.known then SRP else FirstSRP)];
    } else {
      NoHello(c, e);
    }
  }

  lemma NoHello(c: Conn, e: Event)
    requires !c.closed && !c.panicked && !(c.cstate == Created && Admitted(e))
    ensures forall m :: Step(c, e).log != c.log + [SendHello(m)]
  {
    hide NameChars;
    var d := Step(c, e);
    if e.ToSrvInit? {
      hide FirstSRPStep, BytesAStep, BytesMStep;
      assert |d.log| > |c.log| ==> !d.log[|c.log|].SendHello?;
    } else {
      hide InitStep;
      assert |d.log| > |c.log| ==> !d.log[|c.log|].SendHello?;
    }
  }

  /** A login has been accepted or may still be. */
  ghost predicate Granted(c: Conn) {
    (c.cstate == Init && c.auth != NoMethod) || SendAcceptAuth in c.log
  }

  lemma {:induction false} CountZero(log: seq<Action>, a: Action)
    ensures Count(log, a) == 0 <==> a !in log
  {
    if log == [] {
    } else {
      var init := log[..|log| - 1];
      CountZero(init, a);
      assert log == init + [log[|log| - 1]];
    }
  }

  lemma GrantedStep(c: Conn, e: Event)
    requires Safe(c) && Granted(Step(c, e))
    ensures (Granted(c) && Step(c, e).name == c.name) || (Admitted(e) && Step(c, e).name == e.name)
  {
    hide Count, NameChars;
    CountZero(c.log, SendAcceptAuth);
  }

  /**
   Whoever is accepted was admitted before under the name in use: right versions, a permitted name
   that nobody else had, below the user limit, not banned.
   */
  lemma {:induction false} AcceptedWasAdmitted(events: seq<Event>)
    requires Granted(Run(FRESH, events))
    ensures exists k :: 0 <= k < |events| && Admitted(events[k]) && Run(FRESH, events).name == events[k].name
  {
    if events == [] {
    } else {
      var init, last := events[..|events| - 1], events[|events| - 1];
      var c := Run(FRESH, init);
      RunSafe(init);
      GrantedStep(c, last);
      if Granted(c) && Step(c, last).name == c.name {
        AcceptedWasAdmitted(init);
        var k :| 0 <= k < |init| && Admitted(init[k]) && c.name == init[k].name;
        assert events[k] == init[k];
      } else {
        assert events[|events| - 1] == last;
      }
    }
  }

  /** The packet that completes the login which the greeting has started. */
  predicate Credential(known: bool, e: Event) {
    if known then e.ToSrvSRPBytesM? && e.proofOk
    else e.ToSrvFirstSRP? && e.setOk && !(e.emptyPasswd && e.requirePasswd)
  }

  ghost predicate LoggedIn(events: seq<Event>, i: nat, j: nat, name: string) {
    && i < j < |events| && Admitted(events[i]) && events[i].name == name
    && Credential(events[i].known, events[j])
  }

  ghost predicate Greeted(events: seq<Event>, i: nat, c: Conn) {
    i < |events| && Admitted(events[i]) && events[i].name == c.name && (events[i].known <==> c.auth == SRP)
  }

  lemma PendingStep(c: Conn, e: Event)
    requires c.cstate == Created ==> c.auth == NoMethod
    requires Step(c, e).cstate == Init && Step(c, e).auth != NoMethod
    ensures var d := Step(c, e);
      || (c.cstate == Init && d.auth == c.auth && d.name == c.name)
      || (Admitted(e) && d.name == e.name && (e.known <==> d.auth == SRP))
  {
    hide NameChars;
  }

  /** While a login is pending, the method is the one of the greeting. */
  lemma {:induction false} PendingWasGreeted(events: seq<Event>)
    requires var c := Run(FRESH, events); c.cstate == Init && c.auth != NoMethod
    ensures exists i :: Greeted(events, i, Run(FRESH, events))
  {
    if events == [] {
    } else {
      hide Step, Admitted;
      var init, last := events[..|events| - 1], events[|events| - 1];
      var c, d := Run(FRESH, init), Run(FRESH, events);
      RunSafe(init);
      PendingStep(c, last);
      if c.cstate == Init && d.auth == c.auth && d.name == c.name {
        PendingWasGreeted(init);
        var i :| Greeted(init, i, c);
        assert Greeted(events, i, d);
      } else {
        assert Greeted(events, |init|, d);
      }
    }
  }

  lemma AcceptStep(c: Conn, e: Event)
    requires SendAcceptAuth in Step(c, e).log && SendAcceptAuth !in c.log
    ensures c.cstate == Init && c.auth != NoMethod && Credential(c.auth == SRP, e) && Step(c, e).name == c.name
  {
    hide InitStep, BytesAStep;
    if e.ToSrvInit? || e.ToSrvSRPBytesA? {
      OtherNoAccept(c, e);
    }
  }

  lemma OtherNoAccept(c: Conn, e: Event)
    requires (e.ToSrvInit? || e.ToSrvSRPBytesA?) && SendAcceptAuth !in c.log
    ensures SendAcceptAuth !in Step(c, e).log
  {
    hide NameChars, FirstSRPStep, BytesMStep;
  }

  lemma NameStays(c: Conn, e: Event)
    requires c.cstate != Created
    ensures Step(c, e).name == c.name
  {
  }

  /**
   Whoever is accepted was admitted under the name in use and has then proved to know the password,
   or has set the first one.
   */
  lemma {:induction false} AcceptedTookCredential(events: seq<Event>)
    requires SendAcceptAuth in Run(FRESH, events).log
    ensures exists i, j :: LoggedIn(events, i, j, Run(FRESH, events).name)
  {
    if events == [] {
    } else {
      hide Step, Admitted, Credential;
      var init, last := events[..|events| - 1], events[|events| - 1];
      var c := Run(FRESH, init);
      RunSafe(init);
      CountZero(c.log, SendAcceptAuth);
      hide Safe, Count;
      if SendAcceptAuth in c.log {
        NameStays(c, last);
        AcceptedTookCredential(init);
        var i, j :| LoggedIn(init, i, j, c.name);
        assert LoggedIn(events, i, j, c.name);
      } else {
        AcceptStep(c, last);
        PendingWasGreeted(init);
        var i :| Greeted(init, i, c);
        assert LoggedIn(events, i, |init|, c.name);
      }
    }
  }

  // -------------------------------------------------------------------------
  // What each packet leads to, spelled out

  function InitAnswer(e: Event): Action
    requires e.ToSrvInit?
  {
    if !VersionsFit(e) then SendKick(UnsupportedVer)
    else if !(1 <= |e.name| <= 20) then SendKick(BadName)
    else if e.taken then SendKick(AlreadyConnected)
    else if !NameChars(e.name) then SendKick(BadNameChars)
    else if e.name == "singleplayer" then SendKick(BadName)
    else if e.limitReached then SendKick(TooManyClts)
    else if e.banned then SendKick(Banned)
    else SendHello(if e.known then SRP else FirstSRP)
  }

  /** What the connection does in answer to a packet. */
  function Answer(c: Conn, e: Event): seq<Action> {
    match e
    case ToSrvInit(_, _, _, _, _, _, _, _) => if c.cstate == Created then [InitAnswer(e)] else []
    case ToSrvFirstSRP(empty, required, setOk) =>
      if c.cstate == Sudo then [SetPasswd(true), SendChat(setOk)]
      else if c.cstate != Init then []
      else if c.auth != FirstSRP then [SendKick(UnexpectedData)]
      else if empty && required then [SendKick(EmptyPasswd)]
      else [SetPasswd(false), if setOk then SendAcceptAuth else SendKick(SrvErr)]
    case ToSrvSRPBytesA(noSHA1, passwdOk, handshakeOk) =>
      if c.cstate == Init && c.auth != SRP then [SendKick(UnexpectedData)]
      else if (c.cstate != Init && c.cstate != Active) || !noSHA1 then []
      else [if !passwdOk then SendKick(SrvErr) else if !handshakeOk then SendKick(UnexpectedData) else SendSaltB]
    case ToSrvSRPBytesM(proofOk) =>
      if c.cstate == Init then
        if c.auth != SRP then [SendKick(UnexpectedData)]
        else if proofOk then [SendAcceptAuth]
        else [RecordFail(false), SendKick(WrongPasswd)]
      else if c.cstate == Active then
        if c.auth != SRP then [SendDenySudo]
        else if proofOk then [SendAcceptSudo]
        else [RecordFail(true), SendDenySudo]
      else []
    case _ => []
  }

  lemma InitAnswered(c: Conn, e: Event)
    requires e.ToSrvInit?
    ensures InitStep(c, e).log == c.log + if c.cstate == Created then [InitAnswer(e)] else []
    ensures InitStep(c, e).cstate == if c.cstate == Created then Init else c.cstate
  {
    hide NameChars;
    if c.cstate != Created {
      assert c.log + [] == c.log;
    } else if !VersionsFit(e) || !(1 <= |e.name| <= 20) || e.taken {
      EarlyAnswered(c, e);
    } else {
      LateAnswered(c, e);
    }
  }

  lemma EarlyAnswered(c: Conn, e: Event)
    requires e.ToSrvInit? && c.cstate == Created && (!VersionsFit(e) || !(1 <= |e.name| <= 20) || e.taken)
    ensures InitStep(c, e).log == c.log + [InitAnswer(e)]
  {
    hide NameChars;
  }

  lemma LateAnswered(c: Conn, e: Event)
    requires e.ToSrvInit? && c.cstate == Created && VersionsFit(e) && 1 <= |e.name| <= 20 && !e.taken
    ensures InitStep(c, e).log == c.log + [InitAnswer(e)]
  {
    hide NameChars;
  }

  lemma InitClosed(c: Conn, e: Event)
    requires e.ToSrvInit?
    ensures InitStep(c, e).closed <==> c.closed || (c.cstate == Created && KickedBy(InitAnswer(e)))
  {
    hide NameChars;
  }

  lemma FirstSRPAnswered(c: Conn, e: Event)
    requires e.ToSrvFirstSRP?
    ensures FirstSRPStep(c, e).log == c.log + Answer(c, e)
    ensures FirstSRPStep(c, e).closed <==>
      c.closed || (Answer(c, e) != [] && Answer(c, e)[|Answer(c, e)| - 1].SendKick?)
    ensures FirstSRPStep(c, e).cstate == if c.cstate == Sudo then Active else c.cstate
  {
  }

  lemma BytesAAnswered(c: Conn, e: Event)
    requires e.ToSrvSRPBytesA?
    ensures BytesAStep(c, e).log == c.log + Answer(c, e)
    ensures BytesAStep(c, e).closed <==> c.closed || (Answer(c, e) != [] && Answer(c, e)[0].SendKick?)
    ensures Answer(c, e) == [SendSaltB] ==> BytesAStep(c, e) == c.(auth := SRP, log := c.log + [SendSaltB])
  {
  }

  lemma BytesMAnswered(c: Conn, e: Event)
    requires e.ToSrvSRPBytesM?
    ensures BytesMStep(c, e).log == c.log + Answer(c, e)
    ensures BytesMStep(c, e).closed <==>
      c.closed || (Answer(c, e) != [] && Answer(c, e)[|Answer(c, e)| - 1].SendKick?)
    ensures BytesMStep(c, e).cstate == if Answer(c, e) == [SendAcceptSudo] then Sudo else c.cstate
  {
  }

  lemma Answered(c: Conn, e: Event)
    requires !c.closed && !c.panicked
    ensures Step(c, e).log == c.log + Answer(c, e)
    ensures Step(c, e).closed <==>
      e.Disconnect? || (Answer(c, e) != [] && KickedBy(Answer(c, e)[|Answer(c, e)| - 1]))
  {
    hide InitStep, FirstSRPStep, BytesAStep, BytesMStep, InitAnswer;
    match e {
      case ToSrvInit(_, _, _, _, _, _, _, _) =>
        InitAnswered(c, e);
        InitClosed(c, e);
      case ToSrvFirstSRP(_, _, _) => FirstSRPAnswered(c, e);
      case ToSrvSRPBytesA(_, _, _) => BytesAAnswered(c, e);
      case ToSrvSRPBytesM(_) => BytesMAnswered(c, e);
      case _ =>
    }
  }

  /** Every kick but a ban closes the connection at once. */
  predicate KickedBy(a: Action) {
    a.SendKick? && a.reason != Banned
  }

  predicate VersionsFit(e: Event)
    requires e.ToSrvInit?
  {
    e.serializeVer == 29 && e.maxProtoVer == 51 && e.minProtoVer <= 51
  }

  /** A login is accepted exactly on the credential that the greeting has asked for, and the client stays. */
  lemma AcceptedExactly(c: Conn, e: Event)
    requires !c.closed && !c.panicked && Safe(c) && SendAcceptAuth !in c.log
    ensures SendAcceptAuth in Step(c, e).log <==>
      c.cstate == Init && c.auth != NoMethod && Credential(c.auth == SRP, e)
    ensures SendAcceptAuth in Step(c, e).log ==> !Step(c, e).closed && !Step(c, e).panicked
  {
    if SendAcceptAuth in Step(c, e).log {
      AcceptStep(c, e);
    }
    hide InitStep, BytesAStep;
    if e.ToSrvInit? || e.ToSrvSRPBytesA? {
      OtherNoAccept(c, e);
    }
  }

  /** The start of a proof is answered exactly when one may be given and all of it is in order. */
  lemma SaltSentExactly(c: Conn, e: Event)
    requires !c.closed && !c.panicked
    ensures Step(c, e).log == c.log + [SendSaltB] <==>
      && e.ToSrvSRPBytesA? && e.noSHA1 && e.passwdOk && e.handshakeOk
      && (c.cstate == Active || (c.cstate == Init && c.auth == SRP))
    ensures Step(c, e).log == c.log + [SendSaltB] ==>
      Step(c, e) == c.(auth := SRP, log := c.log + [SendSaltB])
  {
    Answered(c, e);
    if e.ToSrvSRPBytesA? {
      BytesAAnswered(c, e);
    }
    hide InitStep, FirstSRPStep, BytesAStep, BytesMStep, InitAnswer;
    SameEnd(c.log, Answer(c, e), [SendSaltB]);
  }

  lemma SameEnd(log: seq<Action>, a: seq<Action>, b: seq<Action>)
    ensures log + a == log + b <==> a == b
  {
    if log + a == log + b {
      assert (log + a)[|log|..] == a && (log + b)[|log|..] == b;
    }
  }

  /** Sudo: the right proof gives it, and a password change uses it up. */
  lemma SudoExactly(c: Conn, e: Event)
    requires !c.closed && !c.panicked
    ensures SendAcceptSudo in Answer(c, e) <==>
      c.cstate == Active && c.auth == SRP && e.ToSrvSRPBytesM? && e.proofOk
    ensures SendAcceptSudo in Answer(c, e) ==> Step(c, e).cstate == Sudo && !Step(c, e).closed
    ensures SetPasswd(true) in Answer(c, e) <==> c.cstate == Sudo && e.ToSrvFirstSRP?
    ensures SetPasswd(true) in Answer(c, e) ==>
      Step(c, e).cstate == Active && !Step(c, e).closed && Answer(c, e) == [SetPasswd(true), SendChat(e.setOk)]
    ensures SendDenySudo in Answer(c, e) <==>
      c.cstate == Active && e.ToSrvSRPBytesM? && !(c.auth == SRP && e.proofOk)
    ensures Step(c, e).log == c.log + Answer(c, e)
  {
    Answered(c, e);
    if e.ToSrvSRPBytesM? {
      BytesMAnswered(c, e);
    } else if e.ToSrvFirstSRP? {
      FirstSRPAnswered(c, e);
    }
    hide InitStep, FirstSRPStep, BytesAStep, BytesMStep, InitAnswer;
    if e.ToSrvInit? {
      assert !InitAnswer(e).SetPasswd? by { InitAnswerKinds(e); }
      InitAnswerKinds(e);
    }
  }

  lemma InitAnswerKinds(e: Event)
    requires e.ToSrvInit?
    ensures InitAnswer(e).SendKick? || InitAnswer(e).SendHello?
    ensures InitAnswer(e).SendKick? ==>
      InitAnswer(e).reason in {UnsupportedVer, BadName, AlreadyConnected, BadNameChars, TooManyClts, Banned}
  {
    hide NameChars;
  }

  /** The first password is set exactly when the greeting has asked for one, and an empty one is allowed. */
  lemma FirstPasswordExactly(c: Conn, e: Event)
    requires !c.closed && !c.panicked
    ensures SetPasswd(false) in Answer(c, e) <==>
      c.cstate == Init && c.auth == FirstSRP && e.ToSrvFirstSRP? && !(e.emptyPasswd && e.requirePasswd)
    ensures SendKick(EmptyPasswd) in Answer(c, e) <==>
      c.cstate == Init && c.auth == FirstSRP && e.ToSrvFirstSRP? && e.emptyPasswd && e.requirePasswd
    ensures Step(c, e).log == c.log + Answer(c, e)
  {
    Answered(c, e);
    hide Step, InitAnswer;
    if e.ToSrvInit? {
      InitAnswerKinds(e);
    }
  }

  /** A client counts as new exactly from its first password's acceptance on. */
  lemma NewExactly(c: Conn, e: Event)
    requires !c.closed && !c.panicked
    ensures Step(c, e).isNew <==>
      c.isNew || (c.cstate == Init && c.auth == FirstSRP && Credential(false, e))
  {
    hide NameChars;
  }

  /** A wrong proof is recorded, and ends a login but not a session in use. */
  lemma WrongProofExactly(c: Conn, e: Event, sudo: bool)
    requires !c.closed && !c.panicked
    ensures RecordFail(sudo) in Answer(c, e) <==>
      e.ToSrvSRPBytesM? && !e.proofOk && c.auth == SRP && c.cstate == if sudo then Active else Init
    ensures SendKick(WrongPasswd) in Answer(c, e) <==>
      e.ToSrvSRPBytesM? && !e.proofOk && c.auth == SRP && c.cstate == Init
    ensures Step(c, e).log == c.log + Answer(c, e)
  {
    Answered(c, e);
    hide Step, InitAnswer;
    if e.ToSrvInit? {
      InitAnswerKinds(e);
    }
  }

  /** Packets that do not fit the method, and failures of the backend. */
  lemma OtherKicksExactly(c: Conn, e: Event)
    requires !c.closed && !c.panicked
    ensures SendKick(UnexpectedData) in Answer(c, e) <==>
      || (c.cstate == Init && e.ToSrvFirstSRP? && c.auth != FirstSRP)
      || (c.cstate == Init && (e.ToSrvSRPBytesA? || e.ToSrvSRPBytesM?) && c.auth != SRP)
      || (e.ToSrvSRPBytesA? && (c.cstate == Active || c.cstate == Init) && e.noSHA1 && e.passwdOk && !e.handshakeOk)
    ensures SendKick(SrvErr) in Answer(c, e) <==>
      || (e.ToSrvFirstSRP? && c.cstate == Init && c.auth == FirstSRP && !(e.emptyPasswd && e.requirePasswd) && !e.setOk)
      || (e.ToSrvSRPBytesA? && (c.cstate == Active || (c.cstate == Init && c.auth == SRP)) && e.noSHA1 && !e.passwdOk)
    ensures Step(c, e).log == c.log + Answer(c, e)
  {
    Answered(c, e);
    hide Step, InitAnswer;
    if e.ToSrvInit? {
      InitAnswerKinds(e);
    }
  }

  /** A connection is closed exactly by leaving and by kicks other than a ban, which closes it later. */
  lemma ClosedExactly(c: Conn, e: Event)
    requires !c.closed && !c.panicked
    ensures Step(c, e).closed <==> e.Disconnect? || exists r :: r != Banned && SendKick(r) in Answer(c, e)
  {
    Answered(c, e);
    hide Step, InitAnswer;
    var a := Answer(c, e);
    if a != [] && KickedBy(a[|a| - 1]) {
      assert SendKick(a[|a| - 1].reason) in a;
    }
    if r :| r != Banned && SendKick(r) in a {
      assert a[|a| - 1] == SendKick(r);
    }
  }

  predicate NamePermitted(name: string) {
    && (forall c :: c in name ==> 'a' <= c <= 'z' || 'A' <= c <= 'Z' || '0' <= c <= '9' || c == '-' || c == '_')
    && name != "singleplayer"
  }

  /** Each reason for turning a new client away, with its numbers. */
  lemma InitReasonsExactly(c: Conn, e: Event)
    requires !c.closed && !c.panicked && c.cstate == Created && e.ToSrvInit?
    ensures |Step(c, e).log| == |c.log| + 1 && c.log <= Step(c, e).log && Step(c, e).cstate == Init
    ensures var a := Step(c, e).log[|c.log|];
      var fits := VersionsFit(e) && 1 <= |e.name| <= 20;
      var free := fits && !e.taken;
      && (a == SendKick(UnsupportedVer) <==> !VersionsFit(e))
      && (a == SendKick(BadName) <==>
           (VersionsFit(e) && !(1 <= |e.name| <= 20)) || (free && e.name == "singleplayer"))
      && (a == SendKick(AlreadyConnected) <==> fits && e.taken)
      && (a == SendKick(BadNameChars) <==> free && !NamePermitted(e.name) && e.name != "singleplayer")
      && (a == SendKick(TooManyClts) <==> free && NamePermitted(e.name) && e.limitReached)
      && (a == SendKick(Banned) <==> free && NamePermitted(e.name) && !e.limitReached && e.banned)
      && (a == SendHello(if e.known then SRP else FirstSRP) <==>
           free && NamePermitted(e.name) && !e.limitReached && !e.banned)
  {
    SingleplayerChars();
    assert NameChars(e.name) && e.name != "singleplayer" <==> NamePermitted(e.name);
    InitAnswered(c, e);
    hide NameChars, NamePermitted, InitStep;
  }

  lemma SingleplayerChars()
    ensures NameChars("singleplayer")
  {
  }

  /** A client that passes every check and sends what the greeting asks for is accepted and can play. */
  lemma HonestLogin(init: Event, start: Event, credential: Event)
    requires Admitted(init)
    requires start.ToSrvSRPBytesA? && start.noSHA1 && start.passwdOk && start.handshakeOk
    requires Credential(init.known, credential)
    ensures InUse(if init.known then [init, start, credential] else [init, credential], init.name)
  {
    assert init.ToSrvInit?;
    hide Admitted, Credential, InUse, Asked, Run, Step, Answer;
    HonestGreeting(init);
    if init.known {
      HonestStart([init], start, init.name);
      assert [init] + [start] == [init, start];
      HonestEnd([init, start], credential, true, init.name);
      assert [init, start] + [credential] == [init, start, credential];
    } else {
      HonestEnd([init], credential, false, init.name);
      assert [init] + [credential] == [init, credential];
    }
  }

  /** The packets lead to an accepted login, behind which the client becomes active. */
  ghost predicate InUse(packets: seq<Event>, name: string) {
    var c, d := Run(FRESH, packets), Run(FRESH, packets + [ToSrvCltReady]);
    && Accepts(c) == 1 && !c.closed && c.name == name
    && d.cstate == Active && !d.closed && !d.panicked && Accepts(d) == 1 && d.name == name
  }

  /** Asked for a credential, and not accepted yet. */
  ghost predicate Asked(c: Conn, known: bool, name: string) {
    && !c.closed && !c.panicked && !c.initDone && c.cstate == Init && c.name == name
    && c.auth == (if known then SRP else FirstSRP) && Accepts(c) == 0
  }

  lemma HonestGreeting(init: Event)
    requires Admitted(init)
    ensures Asked(Run(FRESH, [init]), init.known, init.name)
  {
    HelloExactly(FRESH, init);
    CountZero(Step(FRESH, init).log, SendAcceptAuth);
    hide Step, Count, Admitted, Run;
    FreshRun();
    RunSnoc([], init);
    assert [] + [init] == [init];
  }

  lemma HonestStart(packets: seq<Event>, start: Event, name: string)
    requires Asked(Run(FRESH, packets), true, name)
    requires start.ToSrvSRPBytesA? && start.noSHA1 && start.passwdOk && start.handshakeOk
    ensures Asked(Run(FRESH, packets + [start]), true, name)
  {
    hide Run;
    var c := Run(FRESH, packets);
    RunSnoc(packets, start);
    SaltSentExactly(c, start);
    CountSnoc(c.log, SendSaltB, SendAcceptAuth);
    Answered(c, start);
    hide Step, Count;
  }

  lemma FreshRun()
    ensures Run(FRESH, []) == FRESH
  {
  }

  lemma RunSnoc(events: seq<Event>, e: Event)
    ensures Run(FRESH, events + [e]) == Step(Run(FRESH, events), e)
  {
    assert (events + [e])[..|events|] == events;
  }

  lemma HonestEnd(packets: seq<Event>, credential: Event, known: bool, name: string)
    requires Asked(Run(FRESH, packets), known, name) && Credential(known, credential)
    ensures InUse(packets + [credential], name)
  {
    hide Run;
    var c := Run(FRESH, packets);
    RunSnoc(packets, credential);
    RunSnoc(packets + [credential], ToSrvCltReady);
    CredentialTaken(c, credential, known, name);
    hide Step, Count;
    var d := Step(c, credential);
    ReadyIs(d);
    SameCounts(d, Step(d, ToSrvCltReady));
  }

  lemma ReadyIs(c: Conn)
    requires !c.closed && !c.panicked
    ensures Step(c, ToSrvCltReady) == c.(cstate := Active, initDone := true, panicked := c.initDone)
  {
  }

  lemma CredentialTaken(c: Conn, e: Event, known: bool, name: string)
    requires Asked(c, known, name) && Credential(known, e)
    ensures var d := Step(c, e);
      Accepts(d) == 1 && !d.closed && !d.panicked && !d.initDone && d.name == name
  {
    hide InitStep, BytesAStep, Count;
    forall x: Conn, a: Action ensures Accepts(x.Did(a)) == Accepts(x) + if a == SendAcceptAuth then 1 else 0 {
      CountsSnoc(x, a);
    }
  }

  /** A client in use that proves its password may then change it, once. */
  lemma HonestSudo(c: Conn, start: Event, proof: Event, change: Event)
    requires !c.closed && !c.panicked && c.cstate == Active
    requires start.ToSrvSRPBytesA? && start.noSHA1 && start.passwdOk && start.handshakeOk
    requires proof.ToSrvSRPBytesM? && proof.proofOk && change.ToSrvFirstSRP?
    ensures var d := Step(Step(Step(c, start), proof), change);
      && d.log == c.log + [SendSaltB, SendAcceptSudo, SetPasswd(true), SendChat(change.setOk)]
      && d.cstate == Active && !d.closed && d.auth == NoMethod
  {
  }

  /**
   `csActive` does not mean authenticated: ToSrvCltReady is taken in any state, and no login
   is accepted behind it.
   */
  lemma {:induction false} NoAcceptBehindReady(c: Conn, events: seq<Event>)
    requires Safe(c) && c.initDone
    ensures Accepts(Run(c, events)) == Accepts(c) && Safe(Run(c, events)) && Run(c, events).initDone
  {
    if events == [] {
    } else {
      var d := Run(c, events[..|events| - 1]);
      NoAcceptBehindReady(c, events[..|events| - 1]);
      StepSafe(d, events[|events| - 1]);
      NoAcceptStep(d, events[|events| - 1]);
    }
  }

  lemma NoAcceptStep(c: Conn, e: Event)
    requires Safe(c) && c.initDone
    ensures Accepts(Step(c, e)) == Accepts(c) && Step(c, e).initDone
  {
    hide Count;
    forall d: Conn, a: Action
      ensures Accepts(d.Did(a)) == Accepts(d) + if a == SendAcceptAuth then 1 else 0
    {
      CountsSnoc(d, a);
    }
  }

  /** A client is in use without an accepted login exactly if it was not accepted when it became ready. */
  lemma UnauthenticatedExactly(before: seq<Event>, after: seq<Event>)
    requires var c := Run(FRESH, before); !c.closed && !c.panicked && !c.initDone
    ensures var c := Run(Step(Run(FRESH, before), ToSrvCltReady), after);
      && c.initDone
      && (Accepts(c) == 0 <==> Accepts(Run(FRESH, before)) == 0)
  {
    RunSafe(before);
    var c := Run(FRESH, before);
    StepSafe(c, ToSrvCltReady);
    NoAcceptBehindReady(Step(c, ToSrvCltReady), after);
  }

  /** The packet at `j` is a ToSrvCltReady that is processed although one was before. */
  ghost predicate ReadyAgain(events: seq<Event>, j: nat) {
    && j < |events| && events[j].ToSrvCltReady?
    && var c := Run(FRESH, events[..j]); !c.closed && !c.panicked && c.initDone
  }

  /** Over all packet sequences, the proxy panics exactly if a second ToSrvCltReady is processed. */
  lemma {:induction false} PanicsExactly(events: seq<Event>)
    ensures Run(FRESH, events).panicked <==> exists j :: ReadyAgain(events, j)
  {
    if events == [] {
    } else {
      hide InitStep, FirstSRPStep, BytesAStep, BytesMStep;
      var init, n := events[..|events| - 1], |events| - 1;
      PanicsExactly(init);
      PanicStep(Run(FRESH, init), events[n]);
      forall j: nat | j < n ensures ReadyAgain(init, j) <==> ReadyAgain(events, j) {
        assert init[..j] == events[..j];
      }
      if ReadyAgain(events, n) || Run(FRESH, events).panicked {
        assert events[..n] == init;
      }
    }
  }

  lemma PanicStep(c: Conn, e: Event)
    ensures Step(c, e).panicked <==> c.panicked || (e.ToSrvCltReady? && !c.closed && c.initDone)
  {
    hide NameChars;
  }

  class ClientConn {
    var cstate: ClientState
    var auth: AuthMethod
    var name: string
    var isNew: bool
    var initDone: bool
    var closed: bool
    var panicked: bool
    var log: seq<Action>

    function State(): Conn
      reads this
    {
      Conn(cstate, auth, name, isNew, initDone, closed, panicked, log)
    }

    constructor ()
      ensures State() == FRESH
    {
      cstate, auth, name, isNew := Created, NoMethod, "", false;
      initDone, closed, panicked, log := false, false, false, [];
    }

    method Do(a: Action)
      modifies this`log
      ensures log == old(log) + [a]
    {
      log := log + [a];
    }

    method KickAndClose(reason: KickReason)
      modifies this`log, this`closed
      ensures log == old(log) + [SendKick(reason)] && closed
    {
      Do(SendKick(reason));
      closed := true;
    }

    /** One packet; a session that starts fresh therefore stays safe. */
    method Process(e: Event)
      requires Safe(State()) && !closed && !panicked
      modifies this
      ensures State() == Step(old(State()), e) && Safe(State())
    {
      StepSafe(State(), e);
      hide Safe;
      match e {
        case ToSrvInit(_, _, _, _, _, _, _, _) => ProcessInit(e);
        case ToSrvFirstSRP(_, _, _) => ProcessFirstSRP(e);
        case ToSrvSRPBytesA(_, _, _) => ProcessBytesA(e);
        case ToSrvSRPBytesM(_) => ProcessBytesM(e);
        case ToSrvCltReady =>
          cstate := Active;
          panicked := initDone;
          initDone := true;
        case Disconnect => closed := true;
      }
    }

    method ProcessInit(e: Event)
      requires e.ToSrvInit? && !closed
      modifies this
      ensures State() == InitStep(old(State()), e)
    {
      if cstate != Created {
        return;
      }
      cstate := Init;
      if e.serializeVer != SERIALIZE_VER {
        KickAndClose(UnsupportedVer);
        return;
      }
      if e.maxProtoVer != PROTO_VER || e.minProtoVer > PROTO_VER {
        KickAndClose(UnsupportedVer);
        return;
      }
      if |e.name| == 0 || |e.name| > MAX_PLAYER_NAME_LEN {
        KickAndClose(BadName);
        return;
      }
      if e.taken {
        KickAndClose(AlreadyConnected);
        return;
      }
      name := e.name;
      if !NameChars(e.name) {
        KickAndClose(BadNameChars);
        return;
      }
      if e.name == "singleplayer" {
        KickAndClose(BadName);
        return;
      }
      if e.limitReached {
        KickAndClose(TooManyClts);
        return;
      }
      if e.banned {
        Do(SendKick(Banned));
        return;
      }
      auth := if e.known then SRP else FirstSRP;
      Do(SendHello(auth));
    }

    method ProcessFirstSRP(e: Event)
      requires e.ToSrvFirstSRP? && !closed
      modifies this
      ensures State() == FirstSRPStep(old(State()), e)
    {
      if cstate == Init {
        if auth != FirstSRP {
          KickAndClose(UnexpectedData);
          return;
        }
        auth := NoMethod;
        if e.emptyPasswd && e.requirePasswd {
          KickAndClose(EmptyPasswd);
          return;
        }
        Do(SetPasswd(false));
        if !e.setOk {
          KickAndClose(SrvErr);
          return;
        }
        Do(SendAcceptAuth);
        isNew := true;
      } else {
        if cstate != Sudo {
          return;
        }
        cstate := Active;
        Do(SetPasswd(true));
        Do(SendChat(e.setOk));
      }
    }

    method ProcessBytesA(e: Event)
      requires e.ToSrvSRPBytesA? && !closed
      modifies this
      ensures State() == BytesAStep(old(State()), e)
    {
      var wantSudo := cstate == Active;
      if cstate != Init && cstate != Active {
        return;
      }
      if !wantSudo && auth != SRP {
        KickAndClose(UnexpectedData);
        return;
      }
      if !e.noSHA1 {
        return;
      }
      auth := SRP;
      if !e.passwdOk {
        KickAndClose(SrvErr);
        return;
      }
      if !e.handshakeOk {
        KickAndClose(UnexpectedData);
        return;
      }
      Do(SendSaltB);
    }

    method ProcessBytesM(e: Event)
      requires e.ToSrvSRPBytesM? && !closed
      modifies this
      ensures State() == BytesMStep(old(State()), e)
    {
      var wantSudo := cstate == Active;
      if cstate != Init && cstate != Active {
        return;
      }
      if auth != SRP {
        if wantSudo {
          Do(SendDenySudo);
        } else {
          KickAndClose(UnexpectedData);
        }
        return;
      }
      if e.proofOk {
        auth := NoMethod;
        if wantSudo {
          cstate := Sudo;
          Do(SendAcceptSudo);
        } else {
          Do(SendAcceptAuth);
        }
      } else {
        Do(RecordFail(wantSudo));
        if wantSudo {
          Do(SendDenySudo);
        } else {
          KickAndClose(WrongPasswd);
        }
      }
    }
  }
}
