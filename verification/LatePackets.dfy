/**
 Packets whose processing has read its client before a hop and goes on behind the reset (process.go:
 ServerConn.process; hop.go; activeobject.go). They still reach the client and change what the proxy
 remembers about it, but what they are tracked in belongs to the old connection, and object ids are not
 swapped any more, since that connection has no client by then.
 */
module LatePackets {
  import opened Session

  datatype Passed = Passed(clt: Clt, out: seq<Cmd>)

  datatype LateAdding = LateAdding(clt: Clt, sent: seq<AO>, msgs: seq<Cmd>)

  function LateAddOne(a: LateAdding, ao: AO): LateAdding {
    if ao.name != a.clt.name then a.(sent := a.sent + [ao])
    else
      var clt := a.clt.(currentCAO := ao.id);
      if clt.playerCAO == 0 then a.(clt := clt.(playerCAO := ao.id), sent := a.sent + [ao])
      else a.(clt := clt, msgs := a.msgs + [AOMsgs([ao.id])])
  }

  function LateAddAll(a: LateAdding, add: seq<AO>): LateAdding {
    if add == [] then a else LateAddOne(LateAddAll(a, add[..|add| - 1]), add[|add| - 1])
  }

  function LateAdded(clt: Clt, add: seq<AO>): LateAdding {
    LateAddAll(LateAdding(clt, [], []), add)
  }

  /** What is sent to the client and remembered about it. */
  function LateForward(clt: Clt, cmd: Cmd): Passed {
    match cmd
    case AORmAdd(remove, add) =>
      var a := LateAdded(clt, add);
      Passed(a.clt, a.msgs + [AORmAdd(remove, a.sent)])
    case UpdatePlayerList(kind, players) =>
      Passed(clt.(playerListInit := true), [UpdatePlayerList(PassedKind(clt, kind), players)])
    case _ => Passed(clt, [cmd])
  }

  function Late(s: State, cmd: Cmd, initClears: bool): State {
    var o := LateForward(s.clt, cmd);
    var view := Replay(s.view, o.out, initClears);
    State(o.clt, s.trk, view, s.faded * view.sounds)
  }

  /** The packet brings the client nothing that the new connection does not track. */
  ghost predicate BringsTracked(s: State, cmd: Cmd) {
    match cmd
    case AORmAdd(remove, add) =>
      var a := LateAdded(s.clt, add);
      AddedIds(a.sent) <= s.trk.aos + Apart(a.clt)
    case DetachedInv(name, keep) => keep ==> name in s.trk.detached
    case AddParticleSpawner(id) => id in s.trk.spawners
    case PlaySound(id, loop) => loop ==> id in s.view.sounds
    case AddHUD(id, hudType) => id in s.trk.huds
    case UpdatePlayerList(kind, players) =>
      kind.InitPlayers? || kind.AddPlayers? ==> Elems(players) <= s.trk.players
    case _ => true
  }

  /** The packet takes nothing away that the new connection tracks. */
  ghost predicate LeavesTracked(s: State, cmd: Cmd) {
    match cmd
    case AORmAdd(remove, add) =>
      var a := LateAdded(s.clt, add);
      Elems(remove) * s.trk.aos <= AddedIds(a.sent) + Apart(a.clt)
    case DelParticleSpawner(id) => id !in s.trk.spawners
    case FadeSound(id, silent) => silent ==> id !in s.trk.sounds
    case StopSound(id) => id !in s.trk.sounds
    case AddHUD(id, hudType) => id in s.trk.huds ==> s.trk.huds[id] == hudType
    case RmHUD(id) => id !in s.trk.huds
    case UpdatePlayerList(kind, players) => kind.RemovePlayers? ==> Elems(players) !! s.trk.players
    case _ => true
  }

  lemma {:induction false} LateMessages(a: LateAdding, add: seq<AO>)
    requires forall c :: c in a.msgs ==> c.AOMsgs?
    ensures var r := LateAddAll(a, add);
      && (forall c :: c in r.msgs ==> c.AOMsgs?)
      && r.clt.name == a.clt.name && r.clt.playerListInit == a.clt.playerListInit
      && (a.clt.playerCAO != 0 ==> r.clt.playerCAO == a.clt.playerCAO)
  {
    if add == [] {
    } else {
      LateMessages(a, add[..|add| - 1]);
    }
  }

  lemma LateObjects(s: State, remove: seq<AOID>, add: seq<AO>, initClears: bool)
    ensures var a := LateAdded(s.clt, add);
      var t := Late(s, AORmAdd(remove, add), initClears);
      && t.clt == a.clt && t.trk == s.trk
      && t.view == s.view.(objs := s.view.objs - Elems(remove) + AddedIds(a.sent))
      && t.faded == s.faded * s.view.sounds
  {
    hide Replay, LateAddAll;
    var a := LateAdded(s.clt, add);
    LateMessages(LateAdding(s.clt, [], []), add);
    ReplaySnoc(s.view, a.msgs, AORmAdd(remove, a.sent), initClears);
    MessagesOnly(s.view, a.msgs, initClears);
  }

  /** Taking `remove` from and bringing `sent` to one of two sets that agree outside `apart`. */
  lemma AgreeExactly(view: set<AOID>, trk: set<AOID>, before: set<AOID>, apart: set<AOID>,
                     remove: set<AOID>, sent: set<AOID>)
    requires view - before == trk - before && before <= apart
    ensures view - remove + sent - apart == trk - apart <==>
      sent <= trk + apart && remove * trk <= sent + apart
  {
    forall id | id !in apart ensures id in view <==> id in trk {
      assert id in view - before <==> id in trk - before;
    }
    var after := view - remove + sent - apart;
    if after == trk - apart {
      forall id | id in sent && id !in apart ensures id in trk {
        assert id in after;
      }
      forall id | id in remove && id in trk && id !in apart ensures id in sent {
        assert id in trk - apart;
      }
    } else {
      var id :| (id in after) != (id in trk - apart);
      if id in sent {
        assert id !in trk + apart;
      } else {
        assert id in remove * trk && id !in sent + apart;
      }
    }
  }

  lemma LateObjectsExactly(s: State, remove: seq<AOID>, add: seq<AO>, initClears: bool)
    requires Shadow(s)
    ensures Shadow(Late(s, AORmAdd(remove, add), initClears)) <==>
      BringsTracked(s, AORmAdd(remove, add)) && LeavesTracked(s, AORmAdd(remove, add))
  {
    hide Late, LateAddAll;
    LateObjects(s, remove, add, initClears);
    LateMessages(LateAdding(s.clt, [], []), add);
    var a := LateAdded(s.clt, add);
    assert s.faded * s.view.sounds == s.faded;
    AgreeExactly(s.view.objs, s.trk.aos, Apart(s.clt), Apart(a.clt), Elems(remove), AddedIds(a.sent));
  }

  /** A late packet leaves the tracked sets right exactly if it brings and takes nothing else. */
  lemma LateExactly(s: State, cmd: Cmd, initClears: bool)
    requires Shadow(s)
    ensures Shadow(Late(s, cmd, initClears)) <==> BringsTracked(s, cmd) && LeavesTracked(s, cmd)
  {
    hide Replay;
    match cmd {
      case AORmAdd(remove, add) => LateObjectsExactly(s, remove, add, initClears);
      case UpdatePlayerList(kind, players) =>
        ReplayOne(s.view, UpdatePlayerList(PassedKind(s.clt, kind), players), initClears);
      case _ => ReplayOne(s.view, cmd, initClears);
    }
  }

  lemma MissedObjects(s: State, remove: seq<AOID>, add: seq<AO>, initClears: bool)
    requires Shadow(s) && s.clt.playerCAO != 0
    ensures HoldsNothing(AfterHop(Late(s, AORmAdd(remove, add), initClears))) <==>
      BringsTracked(s, AORmAdd(remove, add))
  {
    hide Late, LateAddAll;
    LateObjects(s, remove, add, initClears);
    LateMessages(LateAdding(s.clt, [], []), add);
    var a, apart := LateAdded(s.clt, add), Apart(s.clt);
    assert s.faded * s.view.sounds == s.faded;
    assert s.view.huds - s.trk.huds.Keys == map[];
    forall id | id !in apart ensures id in s.view.objs <==> id in s.trk.aos {
      assert id in s.view.objs - apart <==> id in s.trk.aos - apart;
    }
    var left := s.view.objs - Elems(remove) + AddedIds(a.sent) - s.trk.aos;
    if left <= apart {
      forall id | id in AddedIds(a.sent) && id !in s.trk.aos ensures id in apart {
        assert id in left;
      }
    }
  }

  /** What is left of a tracked set after something was brought to it. */
  lemma LeftExactly<T>(view: set<T>, brought: set<T>, trk: set<T>)
    requires view <= trk
    ensures view + brought - trk == {} <==> brought <= trk
    ensures brought - trk == {} <==> brought <= trk
  {
    if x :| x in brought && x !in trk {
      assert x in view + brought - trk && x in brought - trk;
    }
  }

  lemma MissedOther(s: State, cmd: Cmd, initClears: bool)
    requires Shadow(s) && s.clt.playerCAO != 0 && !cmd.AORmAdd?
    ensures HoldsNothing(AfterHop(Late(s, cmd, initClears))) <==> BringsTracked(s, cmd)
  {
    hide Replay, Apart;
    match cmd {
      case UpdatePlayerList(kind, players) =>
        ReplayOne(s.view, UpdatePlayerList(PassedKind(s.clt, kind), players), initClears);
      case _ => ReplayOne(s.view, cmd, initClears);
    }
    var t := Late(s, cmd, initClears);
    OwnLeft(s);
    assert t.view.objs == s.view.objs && Apart(t.clt) == Apart(s.clt) by {
      ApartKept(s.clt, t.clt);
    }
    if cmd.AddHUD? {
      assert cmd.id in t.view.huds;
      assert forall id :: id in t.view.huds - t.trk.huds.Keys ==> id == cmd.id && id !in s.trk.huds;
      assert cmd.id !in s.trk.huds ==> cmd.id in t.view.huds - t.trk.huds.Keys;
      assert cmd.id in s.trk.huds ==> t.view.huds - t.trk.huds.Keys == map[];
    } else {
      match cmd {
        case DetachedInv(name, _) => LeftExactly(s.view.detached, {name}, Elems(s.trk.detached));
        case AddParticleSpawner(id) => LeftExactly(s.view.spawners, {id}, s.trk.spawners);
        case UpdatePlayerList(_, players) => LeftExactly(s.view.players, Elems(players), s.trk.players);
        case PlaySound(id, loop) =>
          assert loop ==> (id in t.view.sounds - s.trk.sounds <==> id !in s.trk.sounds);
        case _ =>
      }
      assert t.view.huds.Keys <= s.trk.huds.Keys;
      assert t.view.huds - t.trk.huds.Keys == map[];
    }
  }

  lemma OwnLeft(s: State)
    requires Shadow(s)
    ensures s.view.objs - s.trk.aos <= Apart(s.clt)
  {
    forall id | id in s.view.objs - s.trk.aos ensures id in Apart(s.clt) {
      assert id !in Apart(s.clt) ==> id in s.view.objs - Apart(s.clt);
    }
  }

  lemma ApartKept(clt: Clt, clt': Clt)
    requires clt.playerCAO == clt'.playerCAO
    ensures Apart(clt) == Apart(clt')
  {
  }

  /**
   The next reset misses something exactly if the late packet brought the client something that the new
   connection did not track.
   */
  lemma LateMissedExactly(s: State, cmd: Cmd, initClears: bool)
    requires Shadow(s) && s.clt.playerCAO != 0
    ensures HoldsNothing(AfterHop(Late(s, cmd, initClears))) <==> BringsTracked(s, cmd)
  {
    hide Shadow, Late, BringsTracked;
    if cmd.AORmAdd? {
      MissedObjects(s, cmd.remove, cmd.add, initClears);
    } else {
      MissedOther(s, cmd, initClears);
    }
  }

  // -------------------------------------------------------------------------
  // Runs with late packets

  datatype LateEvent = On(e: Event) | Behind(cmd: Cmd)

  function LateStep(s: State, e: LateEvent, initClears: bool): State {
    match e case On(e) => Step(s, e, initClears) case Behind(cmd) => Late(s, cmd, initClears)
  }

  function LateRun(name: string, events: seq<LateEvent>, initClears: bool): State {
    if events == [] then Fresh(name)
    else LateStep(LateRun(name, events[..|events| - 1], initClears), events[|events| - 1], initClears)
  }

  /** A hop in time, or a late packet that brings and takes nothing untracked. */
  ghost predicate Harmless(s: State, e: LateEvent) {
    match e
    case On(e) => e.Hop? ==> s.clt.playerCAO != 0 || HoldsNothing(s)
    case Behind(cmd) => BringsTracked(s, cmd) && LeavesTracked(s, cmd)
  }

  lemma HarmlessExactly(s: State, e: LateEvent, initClears: bool)
    requires Shadow(s)
    ensures Shadow(LateStep(s, e, initClears)) <==> Harmless(s, e)
  {
    hide Shadow, Process, AfterHop, Late, BringsTracked, LeavesTracked, HoldsNothing;
    match e {
      case On(e) =>
        match e {
          case Upstream(cmd) => ProcessShadow(s, cmd, initClears);
          case Hop => HopShadowExactly(s);
        }
      case Behind(cmd) => LateExactly(s, cmd, initClears);
    }
  }

  ghost predicate ShadowAll(name: string, events: seq<LateEvent>, initClears: bool) {
    forall k :: 0 <= k <= |events| ==> Shadow(LateRun(name, events[..k], initClears))
  }

  ghost predicate HarmlessAll(name: string, events: seq<LateEvent>, initClears: bool) {
    forall k :: 0 <= k < |events| ==> Harmless(LateRun(name, events[..k], initClears), events[k])
  }

  lemma AllSnoc(name: string, init: seq<LateEvent>, last: LateEvent, initClears: bool)
    ensures ShadowAll(name, init + [last], initClears) <==>
      ShadowAll(name, init, initClears) && Shadow(LateRun(name, init + [last], initClears))
    ensures HarmlessAll(name, init + [last], initClears) <==>
      HarmlessAll(name, init, initClears) && Harmless(LateRun(name, init, initClears), last)
    ensures ShadowAll(name, init, initClears) ==> Shadow(LateRun(name, init, initClears))
  {
    hide LateRun, Shadow, Harmless;
    var events := init + [last];
    assert forall k :: 0 <= k <= |init| ==> events[..k] == init[..k];
    assert forall k :: 0 <= k < |init| ==> events[k] == init[k];
    assert init[..|init|] == init && events[..|events|] == events && events[|init|] == last;
  }

  lemma LateRunSnoc(name: string, init: seq<LateEvent>, last: LateEvent, initClears: bool)
    ensures LateRun(name, init + [last], initClears) == LateStep(LateRun(name, init, initClears), last, initClears)
  {
    assert (init + [last])[..|init|] == init;
  }

  lemma NothingHarmless(name: string, initClears: bool)
    ensures ShadowAll(name, [], initClears) && HarmlessAll(name, [], initClears)
  {
    RunShadow(name, [], initClears);
  }

  /**
   Over every run of commands, hops and late packets, the tracked sets are right throughout exactly if
   every hop is in time and every late packet brings and takes nothing untracked.
   */
  lemma {:induction false} LateRunExactly(name: string, events: seq<LateEvent>, initClears: bool)
    ensures ShadowAll(name, events, initClears) <==> HarmlessAll(name, events, initClears)
  {
    if events == [] {
      NothingHarmless(name, initClears);
    } else {
      hide ShadowAll, HarmlessAll, LateRun, Shadow, Harmless, LateStep;
      var init, last := events[..|events| - 1], events[|events| - 1];
      assert events == init + [last];
      LateRunExactly(name, init, initClears);
      AllSnoc(name, init, last, initClears);
      LateRunSnoc(name, init, last, initClears);
      if Shadow(LateRun(name, init, initClears)) {
        HarmlessExactly(LateRun(name, init, initClears), last, initClears);
      }
    }
  }
}
