/**
 What the client gets is what the server sent (process.go: ServerConn.process, which ends with passing the
 packet on). Objects, whose ids are translated, are the subject of `ObjectIds`.
 */
module Transparency {
  import opened Session

  /** The views agree on everything but objects. */
  ghost predicate SameBut(a: View, b: View) {
    && a.huds == b.huds && a.spawners == b.spawners && a.sounds == b.sounds
    && a.detached == b.detached && a.players == b.players
  }

  /** An initial player list that is not the very first one is passed on as an addition. */
  function Relisted(cmd: Cmd, listed: bool): Cmd {
    if cmd.UpdatePlayerList? && cmd.kind == InitPlayers && listed then UpdatePlayerList(AddPlayers, cmd.players)
    else cmd
  }

  /** Commands that are not about objects or the player list are passed on unchanged, and nothing else is sent. */
  lemma SentUnchanged(clt: Clt, trk: Tracking, cmd: Cmd)
    requires !cmd.AORmAdd? && !cmd.AOMsgs?
    ensures Forward(clt, trk, cmd).out == [Relisted(cmd, clt.playerListInit)]
    ensures Forward(clt, trk, cmd).clt == clt.(playerListInit := clt.playerListInit || cmd.UpdatePlayerList?)
  {
  }

  /** The server's removals are passed on as they are, and each object is sent once, in order, or messaged. */
  lemma {:induction false} ObjectsSent(clt: Clt, aos: set<AOID>, add: seq<AO>)
    ensures var a := AddAll(Adding(clt, aos, [], []), add);
      && |a.sent| + |a.msgs| == |add|
      && (forall c :: c in a.msgs ==> c.AOMsgs?)
      && Names(a.sent) == Shown(clt, add)
  {
    if add == [] {
    } else {
      var init, ao := add[..|add| - 1], add[|add| - 1];
      ObjectsSent(clt, aos, init);
      KnownAfter(clt, aos, init);
    }
  }

  function Names(aos: seq<AO>): (names: seq<string>)
    ensures |names| == |aos|
    ensures forall k :: 0 <= k < |aos| ==> names[k] == aos[k].name
  {
    seq(|aos|, k requires 0 <= k < |aos| => aos[k].name)
  }

  /** The names of the objects that the client is shown: all but the player's own once that is known. */
  function Shown(clt: Clt, add: seq<AO>): seq<string> {
    if add == [] then []
    else
      var init, ao := add[..|add| - 1], add[|add| - 1];
      Shown(clt, init) + if ao.name == clt.name && OwnKnown(clt, init) then [] else [ao.name]
  }

  predicate OwnKnown(clt: Clt, add: seq<AO>) {
    clt.playerCAO != 0 || exists k :: 0 <= k < |add| && add[k].name == clt.name && add[k].id != 0
  }

  lemma {:induction false} KnownAfter(clt: Clt, aos: set<AOID>, add: seq<AO>)
    ensures var a := AddAll(Adding(clt, aos, [], []), add);
      a.clt.name == clt.name && (a.clt.playerCAO != 0 <==> OwnKnown(clt, add))
  {
    if add == [] {
    } else {
      var init, ao := add[..|add| - 1], add[|add| - 1];
      KnownAfter(clt, aos, init);
      assert OwnKnown(clt, add) <==> OwnKnown(clt, init) || (ao.name == clt.name && ao.id != 0) by {
        if k :| 0 <= k < |add| && add[k].name == clt.name && add[k].id != 0 {
          assert k < |init| ==> init[k] == add[k];
        }
        if k :| 0 <= k < |init| && init[k].name == clt.name && init[k].id != 0 {
          assert add[k] == init[k];
        }
      }
    }
  }

  /** The packet that changes the objects comes last; before it, only messages are sent. */
  lemma ObjectsPacket(clt: Clt, trk: Tracking, remove: seq<AOID>, add: seq<AO>)
    ensures var out := Forward(clt, trk, AORmAdd(remove, add)).out;
      && out != [] && out[|out| - 1].AORmAdd? && out[|out| - 1].remove == remove
      && Names(out[|out| - 1].add) == Shown(clt, add)
      && (forall k :: 0 <= k < |out| - 1 ==> out[k].AOMsgs?)
      && |out| - 1 + |Shown(clt, add)| == |add|
  {
    hide AddAll;
    ObjectsSent(clt, trk.aos - Elems(remove), add);
  }

  /** One command changes the client as if the server had talked to it directly, objects apart. */
  lemma ProcessTransparent(s: State, cmd: Cmd, initClears: bool)
    ensures SameBut(Process(s, cmd, initClears).view,
                    Apply(s.view, Relisted(cmd, s.clt.playerListInit), initClears))
    ensures Process(s, cmd, initClears).clt.playerListInit == (s.clt.playerListInit || cmd.UpdatePlayerList?)
  {
    hide Replay, AddAll;
    match cmd {
      case AORmAdd(remove, add) =>
        PacketView(s, remove, add, initClears);
        ListKept(Adding(s.clt, s.trk.aos - Elems(remove), [], []), add);
      case AOMsgs(ids) => ReplayOne(s.view, AOMsgs(AllSwapped(s.clt, ids)), initClears);
      case _ =>
        SentUnchanged(s.clt, s.trk, cmd);
        ReplayOne(s.view, Relisted(cmd, s.clt.playerListInit), initClears);
    }
  }

  lemma {:induction false} ListKept(a: Adding, add: seq<AO>)
    ensures AddAll(a, add).clt.playerListInit == a.clt.playerListInit
  {
    if add == [] {
    } else {
      ListKept(a, add[..|add| - 1]);
    }
  }

  // -------------------------------------------------------------------------
  // Between hops

  function ProcessAll(s: State, cmds: seq<Cmd>, initClears: bool): State {
    if cmds == [] then s
    else Process(ProcessAll(s, cmds[..|cmds| - 1], initClears), cmds[|cmds| - 1], initClears)
  }

  predicate HasList(cmds: seq<Cmd>) {
    exists k :: 0 <= k < |cmds| && cmds[k].UpdatePlayerList?
  }

  /** The server's own commands, with initial player lists as additions but for the very first list. */
  function AllRelisted(cmds: seq<Cmd>, listed: bool): (r: seq<Cmd>)
    ensures |r| == |cmds|
    ensures forall k :: 0 <= k < |cmds| ==> r[k] == Relisted(cmds[k], listed || HasList(cmds[..k]))
  {
    seq(|cmds|, k requires 0 <= k < |cmds| => Relisted(cmds[k], listed || HasList(cmds[..k])))
  }

  lemma AllRelistedSnoc(cmds: seq<Cmd>, cmd: Cmd, listed: bool)
    ensures AllRelisted(cmds + [cmd], listed) == AllRelisted(cmds, listed) + [Relisted(cmd, listed || HasList(cmds))]
    ensures HasList(cmds + [cmd]) <==> HasList(cmds) || cmd.UpdatePlayerList?
  {
    hide Relisted, HasList;
    var all := cmds + [cmd];
    assert forall k :: 0 <= k <= |cmds| ==> all[..k] == cmds[..k];
    assert cmds[..|cmds|] == cmds;
    HasListSnoc(cmds, cmd);
  }

  lemma HasListSnoc(cmds: seq<Cmd>, cmd: Cmd)
    ensures HasList(cmds + [cmd]) <==> HasList(cmds) || cmd.UpdatePlayerList?
  {
    var all := cmds + [cmd];
    if k :| 0 <= k < |cmds| && cmds[k].UpdatePlayerList? {
      assert all[k] == cmds[k];
    }
    assert all[|cmds|] == cmd;
  }

  lemma SameApplied(a: View, b: View, cmd: Cmd, initClears: bool)
    requires SameBut(a, b)
    ensures SameBut(Apply(a, cmd, initClears), Apply(b, cmd, initClears))
  {
  }

  /**
   Over any sequence of commands between hops, the client holds, objects apart, what replaying the
   server's own commands to it gives.
   */
  lemma {:induction false} BetweenHops(s: State, cmds: seq<Cmd>, initClears: bool)
    ensures SameBut(ProcessAll(s, cmds, initClears).view,
                    Replay(s.view, AllRelisted(cmds, s.clt.playerListInit), initClears))
    ensures ProcessAll(s, cmds, initClears).clt.playerListInit == (s.clt.playerListInit || HasList(cmds))
  {
    if cmds == [] {
    } else {
      hide Process, Apply, Replay, ProcessAll, HasList, Relisted, SameBut;
      var init, cmd := cmds[..|cmds| - 1], cmds[|cmds| - 1];
      assert cmds == init + [cmd];
      var listed := s.clt.playerListInit;
      BetweenHops(s, init, initClears);
      ProcessAllDef(s, cmds, initClears);
      var t := ProcessAll(s, init, initClears);
      ProcessTransparent(t, cmd, initClears);
      AllRelistedSnoc(init, cmd, listed);
      var last := Relisted(cmd, listed || HasList(init));
      ReplaySnoc(s.view, AllRelisted(init, listed), last, initClears);
      SameApplied(t.view, Replay(s.view, AllRelisted(init, listed), initClears), last, initClears);
      SameTrans(ProcessAll(s, cmds, initClears).view, Apply(t.view, last, initClears),
                Apply(Replay(s.view, AllRelisted(init, listed), initClears), last, initClears));
    }
  }

  lemma ProcessAllDef(s: State, cmds: seq<Cmd>, initClears: bool)
    requires cmds != []
    ensures ProcessAll(s, cmds, initClears) ==
      Process(ProcessAll(s, cmds[..|cmds| - 1], initClears), cmds[|cmds| - 1], initClears)
  {
  }

  lemma SameTrans(a: View, b: View, c: View)
    requires SameBut(a, b) && SameBut(b, c)
    ensures SameBut(a, c)
  {
  }

  /**
   A whole run: what the client holds after the last hop and the commands behind it is, objects apart,
   what these commands make of a client that holds nothing but fading sounds.
   */
  lemma SinceLastHop(name: string, before: seq<Event>, cmds: seq<Cmd>, initClears: bool)
    requires HopsInTime(name, before, initClears) && Run(name, before, initClears).clt.playerCAO != 0
    ensures var s := Run(name, before, initClears);
      SameBut(ProcessAll(AfterHop(s), cmds, initClears).view,
              Replay(NOTHING.(sounds := s.faded), AllRelisted(cmds, s.clt.playerListInit), initClears))
  {
    hide Run, ProcessAll, AllRelisted, Replay, HopsInTime;
    var s := Run(name, before, initClears);
    RunShadow(name, before, initClears);
    HopShadowExactly(s);
    var list := AllRelisted(cmds, s.clt.playerListInit);
    BetweenHops(AfterHop(s), cmds, initClears);
    SameReplayed(AfterHop(s).view, NOTHING.(sounds := s.faded), list, initClears);
    SameTrans(ProcessAll(AfterHop(s), cmds, initClears).view, Replay(AfterHop(s).view, list, initClears),
              Replay(NOTHING.(sounds := s.faded), list, initClears));
  }

  lemma {:induction false} SameReplayed(a: View, b: View, cmds: seq<Cmd>, initClears: bool)
    requires SameBut(a, b)
    ensures SameBut(Replay(a, cmds, initClears), Replay(b, cmds, initClears))
  {
    if cmds == [] {
    } else {
      hide Apply, SameBut;
      var init := cmds[..|cmds| - 1];
      SameReplayed(a, b, init, initClears);
      SameApplied(Replay(a, init, initClears), Replay(b, init, initClears), cmds[|cmds| - 1], initClears);
    }
  }

  /** The state machine's runs consist of such sequences. */
  lemma {:induction false} RunProcessAll(name: string, before: seq<Event>, cmds: seq<Cmd>, initClears: bool)
    ensures Run(name, before + Commands(cmds), initClears) ==
      ProcessAll(Run(name, before, initClears), cmds, initClears)
  {
    if cmds == [] {
      assert before + Commands([]) == before;
    } else {
      hide Process, Run, Step, Commands;
      ProcessAllDef(Run(name, before, initClears), cmds, initClears);
      hide ProcessAll;
      var init, cmd := cmds[..|cmds| - 1], cmds[|cmds| - 1];
      RunProcessAll(name, before, init, initClears);
      CommandsDef(before, cmds);
      RunSnoc(name, before + Commands(init), Upstream(cmd), initClears);
    }
  }

  lemma CommandsDef(before: seq<Event>, cmds: seq<Cmd>)
    requires cmds != []
    ensures before + Commands(cmds) == before + Commands(cmds[..|cmds| - 1]) + [Upstream(cmds[|cmds| - 1])]
  {
  }

  function Commands(cmds: seq<Cmd>): (events: seq<Event>)
    ensures |events| == |cmds|
    ensures forall k :: 0 <= k < |cmds| ==> events[k] == Upstream(cmds[k])
  {
    seq(|cmds|, k requires 0 <= k < |cmds| => Upstream(cmds[k]))
  }
}
