/** The connection objects that carry a session (client_conn.go, server_conn.go, connect.go, hop.go). */
module SessionConn {
  import opened Session

  /** Why a server kicks; the reasons that are not told apart are one. */
  datatype KickReason = Shutdown | Crash | SrvErr | TooManyClts | UnsupportedVer | OtherReason

  datatype HopError = NoError | ErrNoServerConn | ErrNoSuchServer | ErrNewMediaPool | ErrDial

  class ClientConn {
    const name: string
    /** Whether the client forgets its player list when it gets an initial one. */
    const initClears: bool
    var srv: ServerConn?
    var open: bool
    var playerCAO: AOID
    var currentCAO: AOID
    var playerListInit: bool
    /** The resource commands sent so far. */
    var sent: seq<Cmd>

    constructor (name: string, initClears: bool)
      ensures this.name == name && this.initClears == initClears
      ensures State() == Clt(name, 0, 0, false) && View() == NOTHING && srv == null && open
    {
      this.name, this.initClears := name, initClears;
      srv, open := null, true;
      playerCAO, currentCAO, playerListInit, sent := 0, 0, false, [];
    }

    function State(): Clt
      reads this
    {
      Clt(name, playerCAO, currentCAO, playerListInit)
    }

    /** What the client holds after all that was sent. */
    function View(): View
      reads this
    {
      Replay(NOTHING, sent, initClears)
    }

    method SendCmd(cmd: Cmd)
      modifies this`sent
      ensures sent == old(sent) + [cmd]
      ensures View() == Apply(old(View()), cmd, initClears)
    {
      ReplaySnoc(NOTHING, sent, cmd, initClears);
      sent := sent + [cmd];
    }

    method ResetDetached(names: seq<string>)
      modifies this`sent
      ensures View() == old(View()).(detached := old(View()).detached - Elems(names))
    {
      for i := 0 to |names|
        invariant View() == old(View()).(detached := old(View()).detached - Elems(names[..i]))
      {
        SendCmd(DetachedInv(names[i], false));
        assert Elems(names[..i + 1]) == Elems(names[..i]) + {names[i]};
      }
      assert names[..|names|] == names;
    }

    /** Map keys are collected in any order. */
    method ResetObjects(aos: set<AOID>)
      modifies this`sent
      ensures View() == old(View()).(objs := old(View()).objs - aos)
    {
      var aoRm: seq<AOID> := [];
      var left := aos;
      while left != {}
        invariant left <= aos && Elems(aoRm) == aos - left
        decreases left
      {
        var ao :| ao in left;
        assert Elems(aoRm + [ao]) == Elems(aoRm) + {ao};
        aoRm := aoRm + [ao];
        left := left - {ao};
      }
      assert AddedIds([]) == {};
      SendCmd(AORmAdd(aoRm, []));
    }

    method ResetSpawners(spawners: set<Id>)
      modifies this`sent
      ensures View() == old(View()).(spawners := old(View()).spawners - spawners)
    {
      var left := spawners;
      while left != {}
        invariant left <= spawners
        invariant View() == old(View()).(spawners := old(View()).spawners - (spawners - left))
        decreases left
      {
        var id :| id in left;
        SendCmd(DelParticleSpawner(id));
        left := left - {id};
      }
    }

    method ResetSounds(sounds: set<Id>)
      modifies this`sent
      ensures View() == old(View()).(sounds := old(View()).sounds - sounds)
    {
      var left := sounds;
      while left != {}
        invariant left <= sounds
        invariant View() == old(View()).(sounds := old(View()).sounds - (sounds - left))
        decreases left
      {
        var id :| id in left;
        SendCmd(StopSound(id));
        left := left - {id};
      }
    }

    method ResetHUDs(huds: set<Id>)
      modifies this`sent
      ensures View() == old(View()).(huds := old(View()).huds - huds)
    {
      var left := huds;
      while left != {}
        invariant left <= huds
        invariant View() == old(View()).(huds := old(View()).huds - (huds - left))
        decreases left
      {
        var id :| id in left;
        SendCmd(RmHUD(id));
        left := left - {id};
      }
    }

    method ResetPlayers(playerList: set<string>)
      modifies this`sent
      ensures View() == old(View()).(players := old(View()).players - playerList)
    {
      var players: seq<string> := [];
      var left := playerList;
      while left != {}
        invariant left <= playerList && Elems(players) == playerList - left
        decreases left
      {
        var player :| player in left;
        assert Elems(players + [player]) == Elems(players) + {player};
        players := players + [player];
        left := left - {player};
      }
      SendCmd(UpdatePlayerList(RemovePlayers, players));
    }

    /** Resets the client to its initial state. */
    method ResetClient(sc: ServerConn)
      modifies this`sent
      ensures View() == Reset(old(View()), sc.Tracked())
    {
      hide Replay, Elems;
      ResetDetached(sc.detachedInvs);
      ResetObjects(sc.aos);
      ResetSpawners(sc.particleSpawners);
      ResetSounds(sc.sounds);
      ResetHUDs(sc.huds.Keys);
      ResetPlayers(sc.playerList);
    }

    /** `connect`: a new server connection that points back, unless there is one already. */
    method Connect(serverName: string) returns (sc: ServerConn?)
      modifies this`srv
      ensures old(srv) != null ==> sc == null && srv == old(srv)
      ensures old(srv) == null ==>
        sc != null && fresh(sc) && srv == sc && sc.clt == this && sc.open && sc.name == serverName
        && sc.Tracked() == UNTRACKED
    {
      if srv != null {
        return null;
      }
      sc := new ServerConn(this, serverName);
      srv := sc;
    }

    /**
     `HopRaw`. The configuration lookups and dialling are given by their results. A hop that is
     refused changes nothing; one that goes through resets a client whose player object is known
     and leaves the old connection without a client, even if the new one cannot be dialled.
     */
    method HopRaw(serverName: string, known: bool, newPool: bool, dialOk: bool) returns (err: HopError)
      modifies this, srv
      ensures err == if old(srv) == null then ErrNoServerConn else if !known then ErrNoSuchServer
                     else if newPool then ErrNewMediaPool else if !dialOk then ErrDial else NoError
      ensures State() == old(State()) && open == old(open)
      ensures err in {ErrNoServerConn, ErrNoSuchServer, ErrNewMediaPool} ==>
        srv == old(srv) && sent == old(sent) && (srv != null ==> srv.clt == old(srv.clt) && srv.open == old(srv.open))
      ensures err in {NoError, ErrDial} ==>
        && old(srv).clt == null && !old(srv).open
        && View() == if playerCAO != 0 then Reset(old(View()), old(srv.Tracked())) else old(View())
      ensures err == ErrDial ==> srv == null
      ensures err == NoError ==>
        srv != null && fresh(srv) && srv.clt == this && srv.open && srv.Tracked() == UNTRACKED
        && srv.name == serverName
    {
      if srv == null {
        return ErrNoServerConn;
      }
      if !known {
        return ErrNoSuchServer;
      }
      if newPool {
        return ErrNewMediaPool;
      }
      // before closing, so that the loss of the connection is not taken for a failure
      srv.clt := null;
      srv.open := false;
      if playerCAO != 0 {
        ResetClient(srv);
      }
      srv := null;
      if !dialOk {
        return ErrDial;
      }
      var sc := Connect(serverName);
      err := NoError;
    }

    /** The end of `handleClt`, behind the closing of the connection. */
    method Teardown()
      modifies this`srv, srv
      ensures srv == null
      ensures old(srv) != null ==> old(srv).clt == null && !old(srv).open
      ensures old(srv) != null ==> old(srv).Tracked() == old(srv.Tracked())
    {
      if srv != null {
        srv.clt := null;
        srv.open := false;
        srv := null;
      }
    }

    /** Unlinks the connection that the client has now, if any. */
    method UnlinkCurrent()
      modifies srv
      ensures srv != null ==> srv.clt == null && srv.open == old(srv.open) && srv.Tracked() == old(srv.Tracked())
    {
      if srv != null {
        srv.clt := null;
      }
    }

    /**
     A fallback that ends with a kick. The pointer is cleared before the connection to unlink is looked
     up, so the connection that the client had keeps pointing at it.
     */
    method KickAfterFallback()
      modifies this`open, this`srv
      ensures !open && srv == null
      ensures old(srv) != null ==> old(srv).clt == old(srv.clt) && old(srv).open == old(srv.open)
    {
      open := false;
      srv := null;
      UnlinkCurrent();
    }

    /** `fallback`: hops to the fallback server if there is one, and kicks if that fails. */
    method Fallback(fallback: string, known: bool, newPool: bool, dialOk: bool)
      modifies this, srv
      ensures fallback == "" || old(srv) == null || !known || newPool || !dialOk ==> !open && srv == null
      ensures fallback == "" || !known || newPool ==>
        sent == old(sent) && (old(srv) != null ==> old(srv).clt == old(srv.clt) && old(srv).open == old(srv.open))
      ensures fallback != "" && old(srv) != null && known && !newPool ==> old(srv).clt == null && !old(srv).open
      ensures fallback != "" && old(srv) != null && known && !newPool && dialOk ==>
        && open == old(open) && srv != null && fresh(srv) && srv.clt == this && srv.Tracked() == UNTRACKED
        && srv.name == fallback
        && View() == if playerCAO != 0 then Reset(old(View()), old(srv.Tracked())) else old(View())
      ensures State() == old(State())
    {
      if fallback == "" {
        KickAfterFallback();
      } else {
        var err := HopRaw(fallback, known, newPool, dialOk);
        if err != NoError {
          KickAfterFallback();
        }
      }
    }
  }

  class ServerConn {
    const name: string
    var clt: ClientConn?
    var open: bool
    var aos: set<AOID>
    var detachedInvs: seq<string>
    var particleSpawners: set<Id>
    var sounds: set<Id>
    var huds: map<Id, nat>
    var playerList: set<string>

    constructor (cc: ClientConn, name: string)
      ensures clt == cc && this.name == name && open && Tracked() == UNTRACKED
    {
      clt, this.name, open := cc, name, true;
      aos, detachedInvs, particleSpawners, sounds, huds, playerList := {}, [], {}, {}, map[], {};
    }

    function Tracked(): Tracking
      reads this
    {
      Tracking(aos, detachedInvs, particleSpawners, sounds, huds, playerList)
    }

    method SwapAOID(ao: AOID) returns (ao': AOID)
      ensures ao' == if clt != null then Swapped(clt.State(), ao) else ao
    {
      ao' := ao;
      if clt != null {
        if ao == clt.playerCAO {
          ao' := clt.currentCAO;
        } else if ao == clt.currentCAO {
          ao' := clt.playerCAO;
        }
      }
    }

    method SwapAll(cc: ClientConn, ids: seq<AOID>) returns (swapped: seq<AOID>)
      requires clt == cc
      ensures swapped == AllSwapped(cc.State(), ids)
    {
      swapped := [];
      for k := 0 to |ids|
        invariant |swapped| == k && forall j :: 0 <= j < k ==> swapped[j] == Swapped(cc.State(), ids[j])
      {
        var id := SwapAOID(ids[k]);
        swapped := swapped + [id];
      }
    }

    /** Removals and additions of objects. */
    method ProcessObjects(cc: ClientConn, remove: seq<AOID>, add: seq<AO>)
      requires clt == cc
      modifies this`aos, cc
      ensures var o := Forward(old(cc.State()), old(Tracked()), AORmAdd(remove, add));
        cc.State() == o.clt && Tracked() == o.trk && cc.sent == old(cc.sent) + o.out
      ensures cc.srv == old(cc.srv) && cc.open == old(cc.open)
    {
      hide Replay, Swapped, Apply;
      for i := 0 to |remove|
        invariant aos == old(aos) - Elems(remove[..i])
        invariant cc.State() == old(cc.State()) && cc.sent == old(cc.sent)
        invariant cc.srv == old(cc.srv) && cc.open == old(cc.open)
      {
        aos := aos - {remove[i]};
        assert Elems(remove[..i + 1]) == Elems(remove[..i]) + {remove[i]};
      }
      assert remove[..|remove|] == remove;
      ghost var start := Adding(cc.State(), aos, [], []);
      var added: seq<AO> := [];
      ghost var msgs: seq<Cmd> := [];
      for i := 0 to |add|
        invariant Adding(cc.State(), aos, added, msgs) == AddAll(start, add[..i])
        invariant cc.sent == old(cc.sent) + msgs
        invariant cc.srv == old(cc.srv) && cc.open == old(cc.open)
      {
        assert add[..i + 1][..i] == add[..i];
        var ao := add[i];
        if ao.name == cc.name {
          cc.currentCAO := ao.id;
          if cc.playerCAO == 0 {
            cc.playerCAO := ao.id;
            added := added + [ao];
          } else {
            cc.SendCmd(AOMsgs([ao.id]));
            msgs := msgs + [AOMsgs([ao.id])];
          }
        } else {
          var id := SwapAOID(ao.id);
          added := added + [ao.(id := id)];
          aos := aos + {id};
        }
      }
      assert add[..|add|] == add;
      cc.SendCmd(AORmAdd(remove, added));
    }

    method DropDetached(name: string)
      modifies this`detachedInvs
      ensures detachedInvs == WithoutFirst(old(detachedInvs), name)
    {
      for i := 0 to |detachedInvs|
        invariant detachedInvs == old(detachedInvs)
        invariant WithoutFirst(detachedInvs, name) == detachedInvs[..i] + WithoutFirst(detachedInvs[i..], name)
      {
        if detachedInvs[i] == name {
          detachedInvs := detachedInvs[..i] + detachedInvs[i + 1..];
          return;
        }
        assert detachedInvs[i..][1..] == detachedInvs[i + 1..];
      }
    }

    /** Tracks an upstream command and passes it on; without a client it is discarded. */
    method Process(cmd: Cmd)
      modifies this, clt
      ensures clt == old(clt) && open == old(open)
      ensures clt == null ==> Tracked() == old(Tracked())
      ensures clt != null ==>
        var o := Forward(old(clt.State()), old(Tracked()), cmd);
        && clt.State() == o.clt && Tracked() == o.trk && clt.sent == old(clt.sent) + o.out
        && clt.srv == old(clt.srv) && clt.open == old(clt.open)
    {
      hide AddAll, WithoutFirst, Elems, Swapped, AllSwapped, Replay, Apply;
      var cc := clt;
      if cc == null {
        return;
      }
      match cmd {
        case AORmAdd(remove, add) =>
          ProcessObjects(cc, remove, add);
        case AOMsgs(ids) =>
          var swapped := SwapAll(cc, ids);
          cc.SendCmd(AOMsgs(swapped));
        case DetachedInv(name, keep) =>
          if keep {
            detachedInvs := detachedInvs + [name];
          } else {
            DropDetached(name);
          }
          cc.SendCmd(cmd);
        case AddParticleSpawner(id) =>
          particleSpawners := particleSpawners + {id};
          cc.SendCmd(cmd);
        case DelParticleSpawner(id) =>
          particleSpawners := particleSpawners - {id};
          cc.SendCmd(cmd);
        case PlaySound(id, loop) =>
          if loop {
            sounds := sounds + {id};
          }
          cc.SendCmd(cmd);
        case FadeSound(id, _) =>
          sounds := sounds - {id};
          cc.SendCmd(cmd);
        case StopSound(id) =>
          sounds := sounds - {id};
          cc.SendCmd(cmd);
        case AddHUD(id, hudType) =>
          huds := huds[id := hudType];
          cc.SendCmd(cmd);
        case ChangeHUD(_) =>
          cc.SendCmd(cmd);
        case RmHUD(id) =>
          huds := huds - {id};
          cc.SendCmd(cmd);
        case UpdatePlayerList(kind, players) =>
          ProcessPlayers(cc, kind, players);
      }
    }

    method TrackPlayers(players: seq<string>)
      modifies this`playerList
      ensures playerList == old(playerList) + Elems(players)
    {
      for i := 0 to |players|
        invariant playerList == old(playerList) + Elems(players[..i])
      {
        playerList := playerList + {players[i]};
        assert Elems(players[..i + 1]) == Elems(players[..i]) + {players[i]};
      }
      assert players[..|players|] == players;
    }

    method UntrackPlayers(players: seq<string>)
      modifies this`playerList
      ensures playerList == old(playerList) - Elems(players)
    {
      for i := 0 to |players|
        invariant playerList == old(playerList) - Elems(players[..i])
      {
        playerList := playerList - {players[i]};
        assert Elems(players[..i + 1]) == Elems(players[..i]) + {players[i]};
      }
      assert players[..|players|] == players;
    }

    method ProcessPlayers(cc: ClientConn, kind: ListKind, players: seq<string>)
      requires clt == cc
      modifies this`playerList, cc
      ensures var o := Forward(old(cc.State()), old(Tracked()), UpdatePlayerList(kind, players));
        cc.State() == o.clt && Tracked() == o.trk && cc.sent == old(cc.sent) + o.out
      ensures cc.srv == old(cc.srv) && cc.open == old(cc.open)
    {
      var kind' := kind;
      if !cc.playerListInit {
        cc.playerListInit := true;
      } else if kind == InitPlayers {
        kind' := AddPlayers;
      }
      if kind' == InitPlayers || kind' == AddPlayers {
        TrackPlayers(players);
      } else if kind' == RemovePlayers {
        UntrackPlayers(players);
      }
      cc.SendCmd(UpdatePlayerList(kind', players));
    }

    /** A kick that is the server's own trouble leads to the fallback server, any other is passed on. */
    method ProcessKick(reason: KickReason, fallback: string, known: bool, newPool: bool, dialOk: bool)
      modifies this, clt, if clt != null then {clt.srv} else {}
      ensures old(clt) != null && reason == OtherReason ==>
        && clt == null && !old(clt).open && old(clt).srv == old(clt.srv) && old(clt).sent == old(clt.sent)
      ensures old(clt) != null && old(clt.srv) == this && reason != OtherReason ==>
        if fallback != "" && known && !newPool && dialOk then
          && clt == null && !open && old(clt).open == old(clt.open)
          && old(clt).srv != null && old(clt).srv.name == fallback && old(clt).srv.clt == old(clt)
          && old(clt).View() ==
             if old(clt.playerCAO) != 0 then Reset(old(clt.View()), old(Tracked())) else old(clt.View())
        else
          !old(clt).open && old(clt).srv == null
    {
      var cc := clt;
      if cc == null {
        return;
      }
      if reason == Shutdown || reason == Crash || reason == SrvErr || reason == TooManyClts
         || reason == UnsupportedVer {
        cc.Fallback(fallback, known, newPool, dialOk);
      } else {
        PassKick();
      }
    }

    /** An upstream kick that is passed on to the client. */
    method PassKick()
      modifies this`clt, clt
      ensures clt == null && open == old(open) && Tracked() == old(Tracked())
      ensures old(clt) != null ==>
        !old(clt).open && old(clt).srv == old(clt.srv) && old(clt).State() == old(clt.State())
        && old(clt).sent == old(clt.sent)
    {
      if clt != null {
        clt.open := false;
        clt := null;
      }
    }
  }

  /** The state of a session whose client is connected. */
  ghost function Snapshot(cc: ClientConn, sc: ServerConn, faded: set<Id>): Session.State
    reads cc, sc
  {
    Session.State(cc.State(), sc.Tracked(), cc.View(), faded)
  }

  /** One upstream command, as the state machine has it. */
  method Deliver(cc: ClientConn, sc: ServerConn, cmd: Cmd, ghost faded: set<Id>) returns (ghost faded': set<Id>)
    requires sc.clt == cc
    modifies cc, sc
    ensures Snapshot(cc, sc, faded') == Session.Process(old(Snapshot(cc, sc, faded)), cmd, cc.initClears)
    ensures sc.clt == cc && cc.srv == old(cc.srv)
  {
    hide Forward, Replay, Apply, FadedNext;
    faded' := FadedNext(Snapshot(cc, sc, faded), cmd);
    ghost var out := Forward(cc.State(), sc.Tracked(), cmd).out;
    ReplayConcat(NOTHING, cc.sent, out, cc.initClears);
    sc.Process(cmd);
  }

  /** The server named for the last hop of the run, or for the start if there was none. */
  function LastTarget(events: seq<Event>, serverNames: seq<string>): string
    requires |serverNames| == |events| + 1
  {
    if events == [] then serverNames[0]
    else if events[|events| - 1] == Hop then serverNames[|events|]
    else LastTarget(events[..|events| - 1], serverNames[..|events|])
  }

  lemma LastTargetSnoc(events: seq<Event>, serverNames: seq<string>, n: nat)
    requires n < |events| && |serverNames| == |events| + 1
    ensures LastTarget(events[..n + 1], serverNames[..n + 2]) ==
      if events[n] == Hop then serverNames[n + 1] else LastTarget(events[..n], serverNames[..n + 1])
  {
    assert events[..n + 1][..n] == events[..n] && serverNames[..n + 2][..n + 1] == serverNames[..n + 1];
  }

  /**
   The objects go through any run of upstream commands and hops as the state machine does, and the client
   is connected to the server that it was last sent to.
   */
  method Serve(name: string, initClears: bool, events: seq<Event>, serverNames: seq<string>)
    returns (cc: ClientConn, sc: ServerConn, ghost faded: set<Id>)
    requires |serverNames| == |events| + 1
    ensures fresh(cc) && fresh(sc) && cc.srv == sc && sc.clt == cc
    ensures Snapshot(cc, sc, faded) == Run(name, events, initClears)
    ensures sc.name == LastTarget(events, serverNames)
  {
    cc := new ClientConn(name, initClears);
    var made := cc.Connect(serverNames[0]);
    sc, faded := made, {};
    for i := 0 to |events|
      invariant fresh(cc) && fresh(sc) && cc.srv == sc && sc.clt == cc && cc.initClears == initClears
      invariant Snapshot(cc, sc, faded) == Run(name, events[..i], initClears)
      invariant sc.name == LastTarget(events[..i], serverNames[..i + 1])
    {
      hide Session.Process, Reset, LastTarget;
      LastTargetSnoc(events, serverNames, i);
      assert events[..i + 1][..i] == events[..i];
      match events[i] {
        case Upstream(cmd) => faded := Deliver(cc, sc, cmd, faded);
        case Hop =>
          var err := cc.HopRaw(serverNames[i + 1], true, false, true);
          sc := cc.srv;
      }
    }
    assert events[..|events|] == events && serverNames[..|events| + 1] == serverNames;
  }
}
