/**
 What a client holds and what the proxy believes it holds (process.go: ServerConn.process;
 hop.go: HopRaw; activeobject.go: swapAOID). The client is modelled by its own set of
 resources, which the commands sent to it change.
 */
module Session {
  type AOID = id: int | 0 <= id < 0x1_0000
  type Id = nat

  datatype ListKind = InitPlayers | AddPlayers | RemovePlayers | OtherKind

  /** An object as it is added: its id and the player name in its initial data. */
  datatype AO = AO(id: AOID, name: string)

  /** The commands that concern resources, in both hops of their way to the client. */
  datatype Cmd =
    | AORmAdd(remove: seq<AOID>, add: seq<AO>)
    | AOMsgs(ids: seq<AOID>)
    | DetachedInv(name: string, keep: bool)
    | AddParticleSpawner(id: Id)
    | DelParticleSpawner(id: Id)
    | PlaySound(id: Id, loop: bool)
    | FadeSound(id: Id, silent: bool)   // silent: the gain it fades to is zero
    | StopSound(id: Id)
    | AddHUD(id: Id, hudType: nat)
    | ChangeHUD(id: Id)
    | RmHUD(id: Id)
    | UpdatePlayerList(kind: ListKind, players: seq<string>)

  function Elems<T>(s: seq<T>): set<T> {
    set x | x in s
  }

  function AddedIds(add: seq<AO>): set<AOID> {
    set ao | ao in add :: ao.id
  }

  // -------------------------------------------------------------------------
  // The client

  datatype View = View(objs: set<AOID>, detached: set<string>, spawners: set<Id>, sounds: set<Id>,
                       huds: map<Id, nat>, players: set<string>)

  const NOTHING := View({}, {}, {}, {}, map[], {})

  /** `initClears`: whether the client forgets its player list when it gets an initial one. */
  function Apply(v: View, cmd: Cmd, initClears: bool): View {
    match cmd
    case AORmAdd(remove, add) => v.(objs := v.objs - Elems(remove) + AddedIds(add))
    case AOMsgs(_) => v
    case DetachedInv(name, keep) => v.(detached := if keep then v.detached + {name} else v.detached - {name})
    case AddParticleSpawner(id) => v.(spawners := v.spawners + {id})
    case DelParticleSpawner(id) => v.(spawners := v.spawners - {id})
    case PlaySound(id, loop) => if loop then v.(sounds := v.sounds + {id}) else v
    case FadeSound(id, silent) => if silent then v.(sounds := v.sounds - {id}) else v
    case StopSound(id) => v.(sounds := v.sounds - {id})
    case AddHUD(id, hudType) => v.(huds := v.huds[id := hudType])
    case ChangeHUD(_) => v
    case RmHUD(id) => v.(huds := v.huds - {id})
    case UpdatePlayerList(kind, players) =>
      match kind
      case InitPlayers => v.(players := (if initClears then {} else v.players) + Elems(players))
      case AddPlayers => v.(players := v.players + Elems(players))
      case RemovePlayers => v.(players := v.players - Elems(players))
      case OtherKind => v
  }

  function Replay(v: View, cmds: seq<Cmd>, initClears: bool): View {
    if cmds == [] then v else Apply(Replay(v, cmds[..|cmds| - 1], initClears), cmds[|cmds| - 1], initClears)
  }

  // -------------------------------------------------------------------------
  // The proxy

  /** What a server connection tracks. */
  datatype Tracking = Tracking(aos: set<AOID>, detached: seq<string>, spawners: set<Id>, sounds: set<Id>,
                               huds: map<Id, nat>, players: set<string>)

  const UNTRACKED := Tracking({}, [], {}, {}, map[], {})

  /** What the proxy remembers about the client across hops. */
  datatype Clt = Clt(name: string, playerCAO: AOID, currentCAO: AOID, playerListInit: bool)

  function Swapped(clt: Clt, id: AOID): AOID {
    if id == clt.playerCAO then clt.currentCAO
    else if id == clt.currentCAO then clt.playerCAO
    else id
  }

  function AllSwapped(clt: Clt, ids: seq<AOID>): (r: seq<AOID>)
    ensures |r| == |ids|
    ensures forall k :: 0 <= k < |ids| ==> r[k] == Swapped(clt, ids[k])
  {
    seq(|ids|, k requires 0 <= k < |ids| => Swapped(clt, ids[k]))
  }

  /** The state while the added objects are gone through. */
  datatype Adding = Adding(clt: Clt, aos: set<AOID>, sent: seq<AO>, msgs: seq<Cmd>)

  function AddOne(a: Adding, ao: AO): Adding {
    if ao.name == a.clt.name then
      var clt := a.clt.(currentCAO := ao.id);
      if clt.playerCAO == 0 then a.(clt := clt.(playerCAO := ao.id), sent := a.sent + [ao])
      else a.(clt := clt, msgs := a.msgs + [AOMsgs([ao.id])])
    else
      var id := Swapped(a.clt, ao.id);
      a.(aos := a.aos + {id}, sent := a.sent + [ao.(id := id)])
  }

  function AddAll(a: Adding, add: seq<AO>): Adding {
    if add == [] then a else AddOne(AddAll(a, add[..|add| - 1]), add[|add| - 1])
  }

  function WithoutFirst(names: seq<string>, name: string): seq<string> {
    if names == [] then []
    else if names[0] == name then names[1..]
    else [names[0]] + WithoutFirst(names[1..], name)
  }

  /** The list kind that is passed on: only the very first list may be an initial one. */
  function PassedKind(clt: Clt, kind: ListKind): ListKind {
    if clt.playerListInit && kind == InitPlayers then AddPlayers else kind
  }

  datatype Forwarded = Forwarded(clt: Clt, trk: Tracking, out: seq<Cmd>)

  /** One upstream command: the new state and what is sent to the client. */
  function Forward(clt: Clt, trk: Tracking, cmd: Cmd): Forwarded {
    match cmd
    case AORmAdd(remove, add) =>
      var a := AddAll(Adding(clt, trk.aos - Elems(remove), [], []), add);
      Forwarded(a.clt, trk.(aos := a.aos), a.msgs + [AORmAdd(remove, a.sent)])
    case AOMsgs(ids) =>
      Forwarded(clt, trk, [AOMsgs(AllSwapped(clt, ids))])
    case DetachedInv(name, keep) =>
      Forwarded(clt, trk.(detached := if keep then trk.detached + [name] else WithoutFirst(trk.detached, name)), [cmd])
    case AddParticleSpawner(id) => Forwarded(clt, trk.(spawners := trk.spawners + {id}), [cmd])
    case DelParticleSpawner(id) => Forwarded(clt, trk.(spawners := trk.spawners - {id}), [cmd])
    case PlaySound(id, loop) =>
      Forwarded(clt, if loop then trk.(sounds := trk.sounds + {id}) else trk, [cmd])
    case FadeSound(id, _) => Forwarded(clt, trk.(sounds := trk.sounds - {id}), [cmd])
    case StopSound(id) => Forwarded(clt, trk.(sounds := trk.sounds - {id}), [cmd])
    case AddHUD(id, hudType) => Forwarded(clt, trk.(huds := trk.huds[id := hudType]), [cmd])
    case ChangeHUD(_) => Forwarded(clt, trk, [cmd])
    case RmHUD(id) => Forwarded(clt, trk.(huds := trk.huds - {id}), [cmd])
    case UpdatePlayerList(kind, players) =>
      var kind' := PassedKind(clt, kind);
      var trk' := match kind'
        case InitPlayers => trk.(players := trk.players + Elems(players))
        case AddPlayers => trk.(players := trk.players + Elems(players))
        case RemovePlayers => trk.(players := trk.players - Elems(players))
        case OtherKind => trk;
      Forwarded(clt.(playerListInit := true), trk', [UpdatePlayerList(kind', players)])
  }

  // -------------------------------------------------------------------------
  // A session: the proxy, the client and, as history, the sounds that were faded to another gain

  datatype State = State(clt: Clt, trk: Tracking, view: View, faded: set<Id>)

  datatype Event = Upstream(cmd: Cmd) | Hop

  function Fresh(name: string): State {
    State(Clt(name, 0, 0, false), UNTRACKED, NOTHING, {})
  }

  function FadedNext(s: State, cmd: Cmd): set<Id> {
    match cmd
    case FadeSound(id, silent) =>
      if silent then s.faded - {id} else if id in s.view.sounds then s.faded + {id} else s.faded
    case StopSound(id) => s.faded - {id}
    case PlaySound(id, loop) => if loop then s.faded - {id} else s.faded
    case _ => s.faded
  }

  function Process(s: State, cmd: Cmd, initClears: bool): State {
    var o := Forward(s.clt, s.trk, cmd);
    State(o.clt, o.trk, Replay(s.view, o.out, initClears), FadedNext(s, cmd))
  }

  /** The effect of the reset commands, which are sent in any order. */
  function Reset(v: View, trk: Tracking): View {
    View(v.objs - trk.aos, v.detached - Elems(trk.detached), v.spawners - trk.spawners, v.sounds - trk.sounds,
         v.huds - trk.huds.Keys, v.players - trk.players)
  }

  /** A completed hop: the client is reset only if its player object is known. */
  function AfterHop(s: State): State {
    s.(trk := UNTRACKED, view := if s.clt.playerCAO != 0 then Reset(s.view, s.trk) else s.view)
  }

  function Step(s: State, e: Event, initClears: bool): State {
    match e
    case Upstream(cmd) => Process(s, cmd, initClears)
    case Hop => AfterHop(s)
  }

  function Run(name: string, events: seq<Event>, initClears: bool): State {
    if events == [] then Fresh(name)
    else Step(Run(name, events[..|events| - 1], initClears), events[|events| - 1], initClears)
  }

  // -------------------------------------------------------------------------
  // The shadow

  /** Ids that the comparison of objects leaves out: none, and the player's own. */
  function Apart(clt: Clt): set<AOID> {
    {0, clt.playerCAO}
  }

  ghost predicate Shadow(s: State) {
    && s.view.huds == s.trk.huds
    && s.view.spawners == s.trk.spawners
    && s.view.players == s.trk.players
    && (!s.clt.playerListInit ==> s.trk.players == {})
    && s.view.objs - Apart(s.clt) == s.trk.aos - Apart(s.clt)
    && s.view.detached <= Elems(s.trk.detached)
    && s.view.sounds == s.trk.sounds + s.faded && s.trk.sounds !! s.faded
  }

  lemma ReplayOne(v: View, cmd: Cmd, initClears: bool)
    ensures Replay(v, [cmd], initClears) == Apply(v, cmd, initClears)
  {
    assert [cmd][..0] == [];
  }

  lemma ReplaySnoc(v: View, cmds: seq<Cmd>, cmd: Cmd, initClears: bool)
    ensures Replay(v, cmds + [cmd], initClears) == Apply(Replay(v, cmds, initClears), cmd, initClears)
  {
    assert (cmds + [cmd])[..|cmds|] == cmds;
  }

  lemma {:induction false} ReplayConcat(v: View, a: seq<Cmd>, b: seq<Cmd>, initClears: bool)
    ensures Replay(v, a + b, initClears) == Replay(Replay(v, a, initClears), b, initClears)
  {
    if b == [] {
      assert a + b == a;
    } else {
      ReplayConcat(v, a, b[..|b| - 1], initClears);
      assert (a + b)[..|a + b| - 1] == a + b[..|b| - 1];
    }
  }

  lemma {:induction false} MessagesOnly(v: View, cmds: seq<Cmd>, initClears: bool)
    requires forall c :: c in cmds ==> c.AOMsgs?
    ensures Replay(v, cmds, initClears) == v
  {
    if cmds == [] {
    } else {
      MessagesOnly(v, cmds[..|cmds| - 1], initClears);
      assert cmds[|cmds| - 1].AOMsgs?;
    }
  }

  lemma AddedSnoc(sent: seq<AO>, ao: AO)
    ensures AddedIds(sent + [ao]) == AddedIds(sent) + {ao.id}
  {
  }

  /** While objects are added, what is about to be sent and what is tracked agree outside the own id. */
  lemma {:induction false} AddAllAgrees(a: Adding, base: set<AOID>, add: seq<AO>)
    requires (base + AddedIds(a.sent)) - Apart(a.clt) == a.aos - Apart(a.clt)
    ensures var r := AddAll(a, add);
      && (base + AddedIds(r.sent)) - Apart(r.clt) == r.aos - Apart(r.clt)
      && r.clt.playerListInit == a.clt.playerListInit && r.clt.name == a.clt.name
  {
    if add == [] {
    } else {
      var init, ao := add[..|add| - 1], add[|add| - 1];
      AddAllAgrees(a, base, init);
      var r := AddAll(a, init);
      var t := AddOne(r, ao);
      AddedSnoc(r.sent, ao);
      AddedSnoc(r.sent, ao.(id := Swapped(r.clt, ao.id)));
      forall id ensures id in (base + AddedIds(t.sent)) - Apart(t.clt) <==> id in t.aos - Apart(t.clt) {
        assert id in (base + AddedIds(r.sent)) - Apart(r.clt) <==> id in r.aos - Apart(r.clt);
      }
    }
  }

  lemma {:induction false} AddAllMessages(a: Adding, add: seq<AO>)
    requires forall c :: c in a.msgs ==> c.AOMsgs?
    ensures forall c :: c in AddAll(a, add).msgs ==> c.AOMsgs?
  {
    if add == [] {
    } else {
      AddAllMessages(a, add[..|add| - 1]);
    }
  }

  /** The state after a packet of removals and additions. */
  lemma PacketView(s: State, remove: seq<AOID>, add: seq<AO>, initClears: bool)
    ensures var a := AddAll(Adding(s.clt, s.trk.aos - Elems(remove), [], []), add);
      Process(s, AORmAdd(remove, add), initClears) ==
      State(a.clt, s.trk.(aos := a.aos), s.view.(objs := s.view.objs - Elems(remove) + AddedIds(a.sent)), s.faded)
  {
    hide Replay, AddAll;
    var a := AddAll(Adding(s.clt, s.trk.aos - Elems(remove), [], []), add);
    AddAllMessages(Adding(s.clt, s.trk.aos - Elems(remove), [], []), add);
    ReplaySnoc(s.view, a.msgs, AORmAdd(remove, a.sent), initClears);
    MessagesOnly(s.view, a.msgs, initClears);
  }

  lemma ObjectsShadow(s: State, remove: seq<AOID>, add: seq<AO>, initClears: bool)
    requires Shadow(s)
    ensures Shadow(Process(s, AORmAdd(remove, add), initClears))
  {
    hide Replay, AddAll;
    var start := Adding(s.clt, s.trk.aos - Elems(remove), [], []);
    var base := s.view.objs - Elems(remove);
    assert AddedIds([]) == {};
    forall id ensures id in (base + {}) - Apart(s.clt) <==> id in start.aos - Apart(s.clt) {
      assert id in s.view.objs - Apart(s.clt) <==> id in s.trk.aos - Apart(s.clt);
    }
    AddAllAgrees(start, base, add);
    PacketView(s, remove, add, initClears);
  }

  lemma {:induction false} WithoutFirstElems(names: seq<string>, name: string)
    ensures Elems(names) - {name} <= Elems(WithoutFirst(names, name)) <= Elems(names)
  {
    if names != [] && names[0] != name {
      WithoutFirstElems(names[1..], name);
      assert Elems(names) == {names[0]} + Elems(names[1..]);
      assert Elems(WithoutFirst(names, name)) == {names[0]} + Elems(WithoutFirst(names[1..], name));
    }
  }

  lemma DetachedShadow(s: State, name: string, keep: bool, initClears: bool)
    requires Shadow(s)
    ensures Shadow(Process(s, DetachedInv(name, keep), initClears))
  {
    hide Replay;
    ReplayOne(s.view, DetachedInv(name, keep), initClears);
    WithoutFirstElems(s.trk.detached, name);
  }

  lemma PlayersShadow(s: State, kind: ListKind, players: seq<string>, initClears: bool)
    requires Shadow(s)
    ensures Shadow(Process(s, UpdatePlayerList(kind, players), initClears))
  {
    hide Replay;
    ReplayOne(s.view, UpdatePlayerList(PassedKind(s.clt, kind), players), initClears);
  }

  lemma ProcessShadow(s: State, cmd: Cmd, initClears: bool)
    requires Shadow(s)
    ensures Shadow(Process(s, cmd, initClears))
  {
    hide Replay, AddAll, WithoutFirst;
    match cmd {
      case AORmAdd(remove, add) => ObjectsShadow(s, remove, add, initClears);
      case DetachedInv(name, keep) => DetachedShadow(s, name, keep, initClears);
      case UpdatePlayerList(kind, players) => PlayersShadow(s, kind, players, initClears);
      case AOMsgs(ids) => ReplayOne(s.view, Forward(s.clt, s.trk, cmd).out[0], initClears);
      case _ => ReplayOne(s.view, cmd, initClears);
    }
  }

  lemma RunSnoc(name: string, init: seq<Event>, last: Event, initClears: bool)
    ensures Run(name, init + [last], initClears) == Step(Run(name, init, initClears), last, initClears)
  {
    assert (init + [last])[..|init|] == init;
  }

  lemma FreshRun(name: string, initClears: bool)
    ensures Run(name, [], initClears) == Fresh(name)
  {
  }

  /** The client holds none of the tracked kinds of resources. */
  ghost predicate HoldsNothing(s: State) {
    && s.view.huds == map[] && s.view.spawners == {} && s.view.players == {} && s.view.detached == {}
    && s.view.objs <= Apart(s.clt) && s.view.sounds == s.faded
  }

  /**
   A hop leaves the client matching the new connection's empty sets exactly if it resets the
   client, which it does once the player object is known, or if there is nothing to reset.
   */
  lemma HopShadowExactly(s: State)
    requires Shadow(s)
    ensures Shadow(AfterHop(s)) <==> s.clt.playerCAO != 0 || HoldsNothing(s)
    ensures s.clt.playerCAO != 0 ==> HoldsNothing(AfterHop(s))
  {
    var t := AfterHop(s);
    assert Elems(UNTRACKED.detached) == {};
    if s.clt.playerCAO != 0 {
      assert s.view.huds - s.trk.huds.Keys == map[];
      assert t.view.objs <= Apart(s.clt) by {
        forall id | id in t.view.objs ensures id in Apart(s.clt) {
          assert id !in Apart(s.clt) ==> id in s.view.objs - Apart(s.clt);
        }
      }
      assert HoldsNothing(t);
    } else if Shadow(t) {
      forall id | id in s.view.objs ensures id in Apart(s.clt) {
        assert id !in Apart(s.clt) ==> id in t.view.objs - Apart(s.clt);
      }
    }
  }

  /** Every hop of the run happens once the player object is known, or before anything is held. */
  ghost predicate HopsInTime(name: string, events: seq<Event>, initClears: bool) {
    forall k :: 0 <= k < |events| && events[k] == Hop ==>
      var s := Run(name, events[..k], initClears); s.clt.playerCAO != 0 || HoldsNothing(s)
  }

  lemma HopsInTimeSnoc(name: string, init: seq<Event>, last: Event, initClears: bool)
    requires HopsInTime(name, init + [last], initClears)
    ensures HopsInTime(name, init, initClears)
  {
    var events := init + [last];
    assert forall k :: 0 <= k < |init| ==> init[k] == events[k] && init[..k] == events[..k];
  }

  /** Over every run of upstream commands and hops the tracked sets are the client's. */
  lemma {:induction false} RunShadow(name: string, events: seq<Event>, initClears: bool)
    requires HopsInTime(name, events, initClears)
    ensures Shadow(Run(name, events, initClears))
  {
    if events == [] {
    } else {
      var init, last := events[..|events| - 1], events[|events| - 1];
      assert forall k :: 0 <= k < |init| ==> init[k] == events[k] && init[..k] == events[..k];
      RunShadow(name, init, initClears);
      var s := Run(name, init, initClears);
      match last {
        case Upstream(cmd) => ProcessShadow(s, cmd, initClears);
        case Hop => HopShadowExactly(s);
      }
    }
  }

  ghost predicate ShadowThroughout(name: string, events: seq<Event>, initClears: bool) {
    forall k :: 0 <= k <= |events| ==> Shadow(Run(name, events[..k], initClears))
  }

  /** They are so throughout exactly if every hop comes in time. */
  lemma RunShadowExactly(name: string, events: seq<Event>, initClears: bool)
    ensures ShadowThroughout(name, events, initClears) <==> HopsInTime(name, events, initClears)
  {
    hide Run, Shadow, HoldsNothing;
    if HopsInTime(name, events, initClears) {
      forall k | 0 <= k <= |events| ensures Shadow(Run(name, events[..k], initClears)) {
        HopsInTimePrefix(name, events, k, initClears);
        RunShadow(name, events[..k], initClears);
      }
    }
    if ShadowThroughout(name, events, initClears) {
      forall k | 0 <= k < |events| && events[k] == Hop
        ensures var s := Run(name, events[..k], initClears); s.clt.playerCAO != 0 || HoldsNothing(s)
      {
        assert events[..k + 1] == events[..k] + [Hop];
        RunSnoc(name, events[..k], Hop, initClears);
        HopShadowExactly(Run(name, events[..k], initClears));
      }
    }
  }

  lemma HopsInTimePrefix(name: string, events: seq<Event>, n: nat, initClears: bool)
    requires HopsInTime(name, events, initClears) && n <= |events|
    ensures HopsInTime(name, events[..n], initClears)
  {
    hide Run, HoldsNothing;
    assert forall k :: 0 <= k < n ==> events[..n][k] == events[k] && events[..n][..k] == events[..k];
  }

  /** A run whose hop comes too early: the client keeps its HUD, which nobody tracks. */
  lemma HopTooEarly(name: string, id: Id, hudType: nat, initClears: bool)
    ensures var s := Run(name, [Upstream(AddHUD(id, hudType)), Hop], initClears);
      s.view.huds == map[id := hudType] && s.trk == UNTRACKED
  {
    hide Replay, Run;
    var e := Upstream(AddHUD(id, hudType));
    assert [] + [e] == [e] && [e] + [Hop] == [e, Hop];
    FreshRun(name, initClears);
    RunSnoc(name, [], e, initClears);
    RunSnoc(name, [e], Hop, initClears);
    ReplayOne(NOTHING, e.cmd, initClears);
  }

  /**
   After a reset the client has nothing left but sounds that fade away, its own object unless that
   is tracked as another one, and an object 0 of its own if there was one.
   */
  lemma ResetLeavesNothing(name: string, events: seq<Event>, initClears: bool)
    requires HopsInTime(name, events, initClears) && Run(name, events, initClears).clt.playerCAO != 0
    ensures var s := Run(name, events, initClears);
      var v := AfterHop(s).view;
      && v.objs == s.view.objs * {0, s.clt.playerCAO} - s.trk.aos
      && v.detached == {} && v.spawners == {} && v.huds == map[] && v.players == {} && v.sounds == s.faded
  {
    RunShadow(name, events, initClears);
    var s := Run(name, events, initClears);
    HopShadowExactly(s);
    forall id | id in s.view.objs - s.trk.aos ensures id in {0, s.clt.playerCAO} {
      assert id !in Apart(s.clt) ==> id in s.view.objs - Apart(s.clt);
    }
  }

  /** No object is announced under id 0, which Minetest does not give out. */
  ghost predicate NoZero(events: seq<Event>) {
    forall e, ao :: e in events && e.Upstream? && e.cmd.AORmAdd? && ao in e.cmd.add ==> ao.id != 0
  }

  ghost predicate ZeroFree(s: State) {
    0 !in s.view.objs && (s.clt.playerCAO == 0 <==> s.clt.currentCAO == 0)
  }

  lemma {:induction false} AddAllZeroFree(a: Adding, add: seq<AO>)
    requires (forall ao :: ao in add ==> ao.id != 0) && (forall ao :: ao in a.sent ==> ao.id != 0)
    requires a.clt.playerCAO == 0 <==> a.clt.currentCAO == 0
    ensures var r := AddAll(a, add);
      && (forall ao :: ao in r.sent ==> ao.id != 0)
      && (r.clt.playerCAO == 0 <==> r.clt.currentCAO == 0)
  {
    if add == [] {
    } else {
      AddAllZeroFree(a, add[..|add| - 1]);
      assert add[|add| - 1] in add;
    }
  }

  lemma {:induction false} NoZeroRun(name: string, events: seq<Event>, initClears: bool)
    requires NoZero(events)
    ensures ZeroFree(Run(name, events, initClears))
  {
    if events == [] {
    } else {
      var init, last := events[..|events| - 1], events[|events| - 1];
      NoZeroRun(name, init, initClears);
      assert last in events;
      var s := Run(name, init, initClears);
      match last {
        case Hop =>
        case Upstream(cmd) =>
          hide Process;
          if cmd.AORmAdd? {
            AddAllZeroFree(Adding(s.clt, s.trk.aos - Elems(cmd.remove), [], []), cmd.add);
            PacketView(s, cmd.remove, cmd.add, initClears);
          } else {
            OtherObjects(s, cmd, initClears);
          }
      }
    }
  }

  /** Commands that are not about adding or removing objects leave these alone. */
  lemma OtherObjects(s: State, cmd: Cmd, initClears: bool)
    requires !cmd.AORmAdd?
    ensures var t := Process(s, cmd, initClears);
      && t.view.objs == s.view.objs && t.trk.aos == s.trk.aos
      && t.clt == s.clt.(playerListInit := t.clt.playerListInit)
  {
    hide Replay, WithoutFirst;
    match cmd {
      case UpdatePlayerList(kind, players) =>
        ReplayOne(s.view, UpdatePlayerList(PassedKind(s.clt, kind), players), initClears);
      case AOMsgs(ids) => ReplayOne(s.view, AOMsgs(AllSwapped(s.clt, ids)), initClears);
      case _ => ReplayOne(s.view, cmd, initClears);
    }
  }

  /** If no object has id 0, nothing but the own object is left. */
  lemma ResetLeavesOwn(name: string, events: seq<Event>, initClears: bool)
    requires HopsInTime(name, events, initClears) && NoZero(events)
    requires Run(name, events, initClears).clt.playerCAO != 0
    ensures var s := Run(name, events, initClears);
      AfterHop(s).view.objs == if s.clt.playerCAO in s.view.objs - s.trk.aos then {s.clt.playerCAO} else {}
  {
    ResetLeavesNothing(name, events, initClears);
    NoZeroRun(name, events, initClears);
  }
}
