/**
 When the client's objects are the server's, under the ids that the proxy swaps (process.go:
 ToCltAORmAdd, ToCltAOMsgs; activeobject.go; hop.go).
 */
module ObjectIds {
  import opened Session

  function Image(clt: Clt, world: set<AOID>): set<AOID> {
    set id | id in world :: Swapped(clt, id)
  }

  /**
   The client sees its own object under the id it has had from the start, and the server's other
   objects, `world`, under swapped ids; the latter are tracked.
   */
  ghost predicate Renamed(s: State, world: set<AOID>) {
    && s.clt.playerCAO != 0
    && s.clt.currentCAO !in world
    && s.view.objs == {s.clt.playerCAO} + Image(s.clt, world)
    && s.trk.aos == Image(s.clt, world)
  }

  /** Before the own object is known, the client sees the server's objects as they are. */
  ghost predicate Agrees(s: State, world: set<AOID>) {
    if s.clt.playerCAO == 0 then s.clt.currentCAO == 0 && s.view.objs == s.trk.aos == world
    else Renamed(s, world)
  }

  lemma SwapIsInvolution(clt: Clt, id: AOID)
    ensures Swapped(clt, Swapped(clt, id)) == id
  {
  }

  lemma InImage(clt: Clt, world: set<AOID>, id: AOID)
    ensures id in Image(clt, world) <==> Swapped(clt, id) in world
  {
    SwapIsInvolution(clt, id);
    if Swapped(clt, id) in world {
      assert Swapped(clt, Swapped(clt, id)) in Image(clt, world);
    }
    if id in Image(clt, world) {
      var x :| x in world && Swapped(clt, x) == id;
      SwapIsInvolution(clt, x);
    }
  }

  // -------------------------------------------------------------------------
  // Single removals and additions

  lemma RemovalView(s: State, remove: seq<AOID>, initClears: bool)
    ensures Process(s, AORmAdd(remove, []), initClears) ==
      s.(trk := s.trk.(aos := s.trk.aos - Elems(remove)), view := s.view.(objs := s.view.objs - Elems(remove)))
  {
    PacketView(s, remove, [], initClears);
    assert AddedIds([]) == {};
  }

  /**
   Removed ids are passed on untranslated. That is right exactly if the packet removes neither the
   id of the client's own object nor, while another object is known to the client under the server's
   id of the player, that id.
   */
  ghost predicate RemovalOk(clt: Clt, world: set<AOID>, remove: seq<AOID>) {
    clt.playerCAO == 0 || (clt.playerCAO !in remove && (clt.currentCAO in remove ==> clt.playerCAO !in world))
  }

  lemma RemovalRenamedExactly(s: State, world: set<AOID>, remove: seq<AOID>, initClears: bool)
    requires Renamed(s, world)
    ensures Renamed(Process(s, AORmAdd(remove, []), initClears), world - Elems(remove)) <==>
      RemovalOk(s.clt, world, remove)
  {
    hide Process, Image;
    RemovalView(s, remove, initClears);
    var p, c := s.clt.playerCAO, s.clt.currentCAO;
    var t := Process(s, AORmAdd(remove, []), initClears);
    var rest := world - Elems(remove);
    forall id ensures id in Image(s.clt, world) <==> Swapped(s.clt, id) in world {
      InImage(s.clt, world, id);
    }
    forall id ensures id in Image(s.clt, rest) <==> Swapped(s.clt, id) in rest {
      InImage(s.clt, rest, id);
    }
    if p !in remove && (c in remove ==> p !in world) {
      assert t.trk.aos == Image(s.clt, rest);
      assert t.view.objs == {p} + Image(s.clt, rest);
    } else if p in remove {
      assert p !in t.view.objs;
    } else {
      assert c in Image(s.clt, rest) && c !in t.view.objs;
    }
  }

  lemma AdditionView(s: State, ao: AO, initClears: bool)
    ensures var a := AddOne(Adding(s.clt, s.trk.aos, [], []), ao);
      Process(s, AORmAdd([], [ao]), initClears) ==
      State(a.clt, s.trk.(aos := a.aos), s.view.(objs := s.view.objs + AddedIds(a.sent)), s.faded)
  {
    assert [ao][..0] == [] && Elems<AOID>([]) == {};
    var start := Adding(s.clt, s.trk.aos - Elems([]), [], []);
    assert start.aos == s.trk.aos;
    assert AddAll(start, [ao]) == AddOne(start, ao);
    PacketView(s, [], [ao], initClears);
  }

  /**
   Another object joins the client's view under its swapped id, which is right exactly if the server
   does not give it the id that the proxy still takes for the player's.
   */
  lemma AdditionRenamedExactly(s: State, world: set<AOID>, ao: AO, initClears: bool)
    requires Renamed(s, world) && ao.name != s.clt.name
    ensures Renamed(Process(s, AORmAdd([], [ao]), initClears), world + {ao.id}) <==> ao.id != s.clt.currentCAO
  {
    hide Process;
    AdditionView(s, ao, initClears);
    var id := Swapped(s.clt, ao.id);
    assert AddedIds([] + [ao.(id := id)]) == {id};
    assert Image(s.clt, world + {ao.id}) == Image(s.clt, world) + {id};
  }

  /**
   When the player's own object appears on the current server, ids are swapped differently from
   then on. The objects already shown keep their meaning exactly if the id is the one known before
   or if no shown object has either of the ids that are swapped now.
   */
  lemma OwnObjectRenamedExactly(s: State, world: set<AOID>, ao: AO, initClears: bool)
    requires Renamed(s, world) && ao.name == s.clt.name
    ensures Renamed(Process(s, AORmAdd([], [ao]), initClears), world) <==>
      ao.id == s.clt.currentCAO || (s.clt.playerCAO !in world && ao.id !in world)
  {
    hide Process, Image;
    AdditionView(s, ao, initClears);
    assert AddedIds([]) == {};
    var clt, clt' := s.clt, s.clt.(currentCAO := ao.id);
    forall id ensures id in Image(clt, world) <==> Swapped(clt, id) in world {
      InImage(clt, world, id);
    }
    forall id ensures id in Image(clt', world) <==> Swapped(clt', id) in world {
      InImage(clt', world, id);
    }
    var p, c := clt.playerCAO, clt.currentCAO;
    if ao.id != c && p in world {
      assert c in Image(clt, world) && c != p;
      assert c !in Image(clt', world);
    } else if ao.id !in world && p !in world {
      assert Image(clt, world) == Image(clt', world);
    }
  }

  /** The condition under which an addition keeps the client's objects right. */
  ghost predicate AdditionOk(clt: Clt, world: set<AOID>, ao: AO) {
    if ao.name != clt.name then clt.playerCAO == 0 || ao.id != clt.currentCAO
    else if clt.playerCAO == 0 then ao.id in world <==> ao.id == 0
    else ao.id == clt.currentCAO || (clt.playerCAO !in world && ao.id !in world)
  }

  /** The first own object fixes the id under which the client knows it. */
  lemma FirstAdditionExactly(s: State, world: set<AOID>, ao: AO, initClears: bool)
    requires Agrees(s, world) && s.clt.playerCAO == 0
    ensures Agrees(Process(s, AORmAdd([], [ao]), initClears), WithAdded(s.clt.name, world, ao)) <==>
      AdditionOk(s.clt, world, ao)
  {
    hide Process;
    AdditionView(s, ao, initClears);
    AddedSnoc([], ao);
    assert AddedIds([]) == {} && [] + [ao] == [ao] && ao.(id := ao.id) == ao;
    if ao.name == s.clt.name {
      var clt := s.clt.(playerCAO := ao.id, currentCAO := ao.id);
      assert Image(clt, world) == world;
    }
  }

  /** The server's other objects after an addition. */
  function WithAdded(name: string, world: set<AOID>, ao: AO): set<AOID> {
    if ao.name == name then world else world + {ao.id}
  }

  lemma AdditionAgreesExactly(s: State, world: set<AOID>, ao: AO, initClears: bool)
    requires Agrees(s, world)
    ensures Agrees(Process(s, AORmAdd([], [ao]), initClears), WithAdded(s.clt.name, world, ao)) <==>
      AdditionOk(s.clt, world, ao)
  {
    if s.clt.playerCAO == 0 {
      FirstAdditionExactly(s, world, ao, initClears);
    } else {
      AdditionView(s, ao, initClears);
      hide Process, Renamed;
      if ao.name == s.clt.name {
        OwnObjectRenamedExactly(s, world, ao, initClears);
      } else {
        AdditionRenamedExactly(s, world, ao, initClears);
      }
    }
  }

  lemma RemovalAgreesExactly(s: State, world: set<AOID>, remove: seq<AOID>, initClears: bool)
    requires Agrees(s, world)
    ensures Agrees(Process(s, AORmAdd(remove, []), initClears), world - Elems(remove)) <==>
      RemovalOk(s.clt, world, remove)
  {
    hide Process;
    RemovalView(s, remove, initClears);
    if s.clt.playerCAO != 0 {
      RemovalRenamedExactly(s, world, remove, initClears);
    }
  }

  /** A hop starts over with no other objects; the reset has removed exactly those. */
  lemma HopAgreesExactly(s: State, world: set<AOID>)
    requires Agrees(s, world)
    ensures Agrees(AfterHop(s), {}) <==> s.clt.playerCAO != 0 || world == {}
  {
    if s.clt.playerCAO != 0 {
      InImage(s.clt, world, s.clt.playerCAO);
      assert Image(s.clt, {}) == {};
      assert s.view.objs - s.trk.aos == {s.clt.playerCAO};
    }
  }

  // -------------------------------------------------------------------------
  // Packets are their removals and additions, one after the other

  function Unpacked(cmd: Cmd): seq<Event> {
    match cmd
    case AORmAdd(remove, add) => [Upstream(AORmAdd(remove, []))] + Additions(add)
    case _ => [Upstream(cmd)]
  }

  function Additions(add: seq<AO>): seq<Event> {
    if add == [] then [] else Additions(add[..|add| - 1]) + [Upstream(AORmAdd([], [add[|add| - 1]]))]
  }

  function Unpack(events: seq<Event>): seq<Event> {
    if events == [] then []
    else
      var last := match events[|events| - 1] case Hop => [Hop] case Upstream(cmd) => Unpacked(cmd);
      Unpack(events[..|events| - 1]) + last
  }

  /** The server's other objects, from what its packets announce. */
  function OthersAfter(world: set<AOID>, name: string, cmd: Cmd): set<AOID> {
    match cmd
    case AORmAdd(remove, add) => world - Elems(remove) + set ao | ao in add && ao.name != name :: ao.id
    case _ => world
  }

  function OthersStep(world: set<AOID>, name: string, e: Event): set<AOID> {
    match e case Hop => {} case Upstream(cmd) => OthersAfter(world, name, cmd)
  }

  function Others(name: string, events: seq<Event>): set<AOID> {
    if events == [] then {} else OthersStep(Others(name, events[..|events| - 1]), name, events[|events| - 1])
  }

  lemma OthersSnoc(name: string, init: seq<Event>, last: Event)
    ensures Others(name, init + [last]) == OthersStep(Others(name, init), name, last)
  {
    assert (init + [last])[..|init|] == init;
  }

  /** A removal alone, an addition alone, or something else. */
  ghost predicate Single(e: Event) {
    e.Upstream? && e.cmd.AORmAdd? ==> e.cmd.add == [] || (e.cmd.remove == [] && |e.cmd.add| == 1)
  }

  lemma {:induction false} AdditionsSingle(add: seq<AO>)
    ensures forall e :: e in Additions(add) ==> Single(e)
  {
    if add == [] {
    } else {
      AdditionsSingle(add[..|add| - 1]);
    }
  }

  lemma {:induction false} UnpackSingle(events: seq<Event>)
    ensures forall e :: e in Unpack(events) ==> Single(e)
  {
    if events == [] {
    } else {
      UnpackSingle(events[..|events| - 1]);
      var last := events[|events| - 1];
      if last.Upstream? && last.cmd.AORmAdd? {
        AdditionsSingle(last.cmd.add);
      }
    }
  }

  /** What is sent for an object does not depend on what was sent before. */
  lemma AddOneAppends(a: Adding, ao: AO)
    ensures var r, alone := AddOne(a, ao), AddOne(Adding(a.clt, a.aos, [], []), ao);
      r.clt == alone.clt && r.aos == alone.aos && AddedIds(r.sent) == AddedIds(a.sent) + AddedIds(alone.sent)
  {
    assert AddedIds([]) == {} && [] + [ao] == [ao];
    AddedSnoc(a.sent, ao);
    AddedSnoc([], ao);
    var other := ao.(id := Swapped(a.clt, ao.id));
    AddedSnoc(a.sent, other);
    AddedSnoc([], other);
  }

  /** The last addition can be processed on its own. */
  lemma PacketSnoc(s: State, remove: seq<AOID>, add: seq<AO>, ao: AO, initClears: bool)
    ensures Process(s, AORmAdd(remove, add + [ao]), initClears) ==
      Process(Process(s, AORmAdd(remove, add), initClears), AORmAdd([], [ao]), initClears)
  {
    hide Process, AddOne;
    var start := Adding(s.clt, s.trk.aos - Elems(remove), [], []);
    var t := Process(s, AORmAdd(remove, add), initClears);
    PacketView(s, remove, add, initClears);
    PacketView(s, remove, add + [ao], initClears);
    AdditionView(t, ao, initClears);
    assert (add + [ao])[..|add|] == add;
    AddOneAppends(AddAll(start, add), ao);
    var base := s.view.objs - Elems(remove);
    var a, b := AddedIds(AddAll(start, add).sent), AddedIds(AddOne(Adding(t.clt, t.trk.aos, [], []), ao).sent);
    assert base + (a + b) == base + a + b;
  }

  lemma {:induction false} RunAdditions(name: string, before: seq<Event>, remove: seq<AOID>, add: seq<AO>,
                                        initClears: bool)
    ensures Run(name, before + Unpacked(AORmAdd(remove, add)), initClears) ==
      Process(Run(name, before, initClears), AORmAdd(remove, add), initClears)
    ensures Others(name, before + Unpacked(AORmAdd(remove, add))) ==
      OthersAfter(Others(name, before), name, AORmAdd(remove, add))
  {
    hide Run, Process, Others;
    var removal := Upstream(AORmAdd(remove, []));
    if add == [] {
      assert Unpacked(AORmAdd(remove, add)) == [removal];
      RunSnoc(name, before, removal, initClears);
      OthersSnoc(name, before, removal);
    } else {
      var init, ao := add[..|add| - 1], add[|add| - 1];
      assert add == init + [ao];
      var e := Upstream(AORmAdd([], [ao]));
      var all := before + Unpacked(AORmAdd(remove, init));
      assert before + Unpacked(AORmAdd(remove, add)) == all + [e];
      RunAdditions(name, before, remove, init, initClears);
      RunSnoc(name, all, e, initClears);
      OthersSnoc(name, all, e);
      PacketSnoc(Run(name, before, initClears), remove, init, ao, initClears);
      OthersOneMore(Others(name, before), name, remove, init, ao);
    }
  }

  lemma OthersOneMore(world: set<AOID>, name: string, remove: seq<AOID>, add: seq<AO>, ao: AO)
    ensures OthersAfter(world, name, AORmAdd(remove, add + [ao])) ==
      OthersAfter(OthersAfter(world, name, AORmAdd(remove, add)), name, AORmAdd([], [ao]))
  {
    assert Elems<AOID>([]) == {};
    forall o ensures o in add + [ao] <==> o in add || o == ao {
    }
  }

  /** A run and its unpacked form lead to the same state and the same objects of the server. */
  lemma {:induction false} RunUnpacked(name: string, events: seq<Event>, initClears: bool)
    ensures Run(name, Unpack(events), initClears) == Run(name, events, initClears)
    ensures Others(name, Unpack(events)) == Others(name, events)
  {
    if events == [] {
    } else {
      hide Process;
      var init, last := events[..|events| - 1], events[|events| - 1];
      var done := Unpack(init);
      RunUnpacked(name, init, initClears);
      match last {
        case Upstream(cmd) =>
          match cmd {
            case AORmAdd(remove, add) => RunAdditions(name, done, remove, add, initClears);
            case _ =>
              RunSnoc(name, done, last, initClears);
              OthersSnoc(name, done, last);
          }
        case Hop =>
          RunSnoc(name, done, last, initClears);
          OthersSnoc(name, done, last);
      }
    }
  }

  // -------------------------------------------------------------------------
  // Objects over whole runs

  /** The condition under which one event keeps the client's objects right. */
  ghost predicate ObjectsOk(clt: Clt, world: set<AOID>, e: Event) {
    match e
    case Hop => clt.playerCAO != 0 || world == {}
    case Upstream(cmd) =>
      cmd.AORmAdd? ==>
        if |cmd.add| != 1 then RemovalOk(clt, world, cmd.remove) else AdditionOk(clt, world, cmd.add[0])
  }

  lemma StepAgreesExactly(s: State, world: set<AOID>, e: Event, initClears: bool)
    requires Agrees(s, world) && Single(e)
    ensures Agrees(Step(s, e, initClears), OthersStep(world, s.clt.name, e)) <==> ObjectsOk(s.clt, world, e)
  {
    hide Process, AfterHop, Agrees, RemovalOk, AdditionOk;
    match e {
      case Hop =>
        HopAgreesExactly(s, world);
      case Upstream(cmd) =>
        match cmd {
          case AORmAdd(remove, add) =>
            if add == [] {
              assert OthersAfter(world, s.clt.name, cmd) == world - Elems(remove);
              RemovalAgreesExactly(s, world, remove, initClears);
            } else {
              assert add == [add[0]] && Elems<AOID>([]) == {};
              assert OthersAfter(world, s.clt.name, cmd) == WithAdded(s.clt.name, world, add[0]);
              AdditionAgreesExactly(s, world, add[0], initClears);
            }
          case _ => OthersAgree(s, world, cmd, initClears);
        }
    }
  }

  lemma OthersAgree(s: State, world: set<AOID>, cmd: Cmd, initClears: bool)
    requires Agrees(s, world) && !cmd.AORmAdd?
    ensures Agrees(Process(s, cmd, initClears), world)
  {
    hide Process;
    OtherObjects(s, cmd, initClears);
    var clt, clt' := s.clt, Process(s, cmd, initClears).clt;
    assert forall id :: Swapped(clt, id) == Swapped(clt', id);
    assert Image(clt, world) == Image(clt', world);
  }

  lemma {:induction false} AddAllName(a: Adding, add: seq<AO>)
    ensures AddAll(a, add).clt.name == a.clt.name
  {
    if add == [] {
    } else {
      AddAllName(a, add[..|add| - 1]);
    }
  }

  lemma {:induction false} RunName(name: string, events: seq<Event>, initClears: bool)
    ensures Run(name, events, initClears).clt.name == name
  {
    if events == [] {
    } else {
      var init, last := events[..|events| - 1], events[|events| - 1];
      RunName(name, init, initClears);
      var s := Run(name, init, initClears);
      match last {
        case Hop =>
        case Upstream(cmd) =>
          hide Process;
          if cmd.AORmAdd? {
            PacketView(s, cmd.remove, cmd.add, initClears);
            AddAllName(Adding(s.clt, s.trk.aos - Elems(cmd.remove), [], []), cmd.add);
          } else {
            OtherObjects(s, cmd, initClears);
          }
      }
    }
  }

  ghost predicate AgreesAfter(name: string, events: seq<Event>, initClears: bool) {
    Agrees(Run(name, events, initClears), Others(name, events))
  }

  ghost predicate AgreesThroughout(name: string, events: seq<Event>, initClears: bool) {
    forall k :: 0 <= k <= |events| ==> AgreesAfter(name, events[..k], initClears)
  }

  ghost predicate OkAfter(name: string, events: seq<Event>, e: Event, initClears: bool) {
    ObjectsOk(Run(name, events, initClears).clt, Others(name, events), e)
  }

  ghost predicate OkThroughout(name: string, events: seq<Event>, initClears: bool) {
    forall k :: 0 <= k < |events| ==> OkAfter(name, events[..k], events[k], initClears)
  }

  lemma ObjectsSnoc(name: string, init: seq<Event>, last: Event, initClears: bool)
    ensures AgreesThroughout(name, init + [last], initClears) <==>
      AgreesThroughout(name, init, initClears) && AgreesAfter(name, init + [last], initClears)
    ensures OkThroughout(name, init + [last], initClears) <==>
      OkThroughout(name, init, initClears) && OkAfter(name, init, last, initClears)
    ensures AgreesThroughout(name, init, initClears) ==> AgreesAfter(name, init, initClears)
  {
    hide AgreesAfter, OkAfter;
    var events := init + [last];
    assert forall k :: 0 <= k <= |init| ==> events[..k] == init[..k];
    assert forall k :: 0 <= k < |init| ==> events[k] == init[k];
    assert init[..|init|] == init && events[..|events|] == events && events[|init|] == last;
  }

  lemma NothingAgrees(name: string, initClears: bool)
    ensures AgreesThroughout(name, [], initClears) && OkThroughout(name, [], initClears)
  {
  }

  lemma {:induction false} SinglesAgreeExactly(name: string, events: seq<Event>, initClears: bool)
    requires forall e :: e in events ==> Single(e)
    ensures AgreesThroughout(name, events, initClears) <==> OkThroughout(name, events, initClears)
  {
    if events == [] {
      NothingAgrees(name, initClears);
    } else {
      hide AgreesThroughout, OkThroughout, Agrees, ObjectsOk, Run, Others, Step, Single;
      var init, last := events[..|events| - 1], events[|events| - 1];
      assert events == init + [last] && last in events;
      SinglesAgreeExactly(name, init, initClears);
      ObjectsSnoc(name, init, last, initClears);
      RunSnoc(name, init, last, initClears);
      OthersSnoc(name, init, last);
      RunName(name, init, initClears);
      if AgreesAfter(name, init, initClears) {
        StepAgreesExactly(Run(name, init, initClears), Others(name, init), last, initClears);
      }
    }
  }

  /**
   Over every run, the client's objects are the server's throughout exactly if each removal, addition
   and hop meets its condition when it comes. Packets count as what they unpack to, which leads to
   the same state.
   */
  lemma ObjectsRunExactly(name: string, events: seq<Event>, initClears: bool)
    ensures var singles := Unpack(events);
      && (AgreesThroughout(name, singles, initClears) <==> OkThroughout(name, singles, initClears))
      && (AgreesThroughout(name, singles, initClears) ==> AgreesAfter(name, events, initClears))
  {
    var singles := Unpack(events);
    UnpackSingle(events);
    SinglesAgreeExactly(name, singles, initClears);
    RunUnpacked(name, events, initClears);
    assert singles[..|singles|] == singles;
  }

  // -------------------------------------------------------------------------
  // The player's own object

  /** A reset takes the client's own object away exactly if it is tracked as another one. */
  lemma OwnSurvivesExactly(s: State)
    requires s.clt.playerCAO != 0
    ensures var p := s.clt.playerCAO;
      p in AfterHop(s).view.objs <==> p in s.view.objs && p !in s.trk.aos
  {
  }

  /**
   It gets tracked that way when another object comes under the id that the proxy takes for the
   player's, and in no other way while the client's objects are right.
   */
  lemma OwnTrackedExactly(s: State, world: set<AOID>, ao: AO, initClears: bool)
    requires Renamed(s, world)
    ensures s.clt.playerCAO in Process(s, AORmAdd([], [ao]), initClears).trk.aos <==>
      ao.name != s.clt.name && ao.id == s.clt.currentCAO
  {
    hide Process;
    AdditionView(s, ao, initClears);
    InImage(s.clt, world, s.clt.playerCAO);
  }

  /** Once it is lost, only another object can take its place: later own objects are not sent. */
  lemma OwnReturnsExactly(s: State, ao: AO, initClears: bool)
    requires s.clt.playerCAO != 0 && s.clt.playerCAO !in s.view.objs
    ensures s.clt.playerCAO in Process(s, AORmAdd([], [ao]), initClears).view.objs <==>
      ao.name != s.clt.name && ao.id == s.clt.currentCAO
  {
    hide Process;
    AdditionView(s, ao, initClears);
    assert AddedIds([]) == {};
    AddedSnoc([], ao.(id := Swapped(s.clt, ao.id)));
  }

  /**
   A run in which it is lost: on the second server another object comes first, under the id that the
   player has had on the first server, and then there is another hop.
   */
  lemma OwnLost(name: string, other: string, id: AOID, initClears: bool)
    requires id != 0 && other != name
    ensures var s := Run(name, [Upstream(AORmAdd([], [AO(id, name)])), Hop,
                                Upstream(AORmAdd([], [AO(id, other)])), Hop], initClears);
      s.clt.playerCAO == id && s.view.objs == {}
  {
    hide Run, Process;
    var e1, e3 := Upstream(AORmAdd([], [AO(id, name)])), Upstream(AORmAdd([], [AO(id, other)]));
    RunSnoc(name, [], e1, initClears);
    RunSnoc(name, [e1], Hop, initClears);
    RunSnoc(name, [e1, Hop], e3, initClears);
    RunSnoc(name, [e1, Hop, e3], Hop, initClears);
    assert [] + [e1] == [e1] && [e1] + [Hop] == [e1, Hop] && [e1, Hop] + [e3] == [e1, Hop, e3];
    assert [e1, Hop, e3] + [Hop] == [e1, Hop, e3, Hop];
    FreshRun(name, initClears);
    AdditionView(Fresh(name), AO(id, name), initClears);
    AddedSnoc([], AO(id, name));
    assert AddedIds([]) == {};
    var s2 := Run(name, [e1, Hop], initClears);
    assert s2.view.objs == {id} && s2.trk.aos == {} && s2.clt.playerCAO == s2.clt.currentCAO == id;
    AdditionView(s2, AO(id, other), initClears);
    AddedSnoc([], AO(id, other));
  }

  /**
   A run that goes wrong by a removal: on the second server the player has another id, and an object
   that has the player's former id there is removed. The client loses its own object instead.
   */
  lemma RemovalLost(name: string, other: string, p: AOID, c: AOID, initClears: bool)
    requires p != 0 && p != c && other != name
    ensures var s := Run(name, [Upstream(AORmAdd([], [AO(p, name)])), Hop, Upstream(AORmAdd([], [AO(c, name)])),
                                Upstream(AORmAdd([], [AO(p, other)])), Upstream(AORmAdd([p], []))], initClears);
      s.clt.playerCAO == p && s.view.objs == {c}
  {
    hide Run, Process;
    var e1, e3 := Upstream(AORmAdd([], [AO(p, name)])), Upstream(AORmAdd([], [AO(c, name)]));
    var e4, e5 := Upstream(AORmAdd([], [AO(p, other)])), Upstream(AORmAdd([p], []));
    assert [] + [e1] == [e1] && [e1] + [Hop] == [e1, Hop] && [e1, Hop] + [e3] == [e1, Hop, e3];
    assert [e1, Hop, e3] + [e4] == [e1, Hop, e3, e4] && [e1, Hop, e3, e4] + [e5] == [e1, Hop, e3, e4, e5];
    RunSnoc(name, [], e1, initClears);
    RunSnoc(name, [e1], Hop, initClears);
    RunSnoc(name, [e1, Hop], e3, initClears);
    RunSnoc(name, [e1, Hop, e3], e4, initClears);
    RunSnoc(name, [e1, Hop, e3, e4], e5, initClears);
    FreshRun(name, initClears);
    AdditionView(Fresh(name), AO(p, name), initClears);
    AddedSnoc([], AO(p, name));
    assert AddedIds([]) == {};
    var s2 := Run(name, [e1, Hop], initClears);
    assert s2.view.objs == {p} && s2.clt.playerCAO == s2.clt.currentCAO == p;
    AdditionView(s2, AO(c, name), initClears);
    var s3 := Run(name, [e1, Hop, e3], initClears);
    assert s3.view.objs == {p} && s3.clt.playerCAO == p && s3.clt.currentCAO == c;
    AdditionView(s3, AO(p, other), initClears);
    AddedSnoc([], AO(c, other));
    var s4 := Run(name, [e1, Hop, e3, e4], initClears);
    assert s4.view.objs == {p, c};
    RemovalView(s4, [p], initClears);
  }

  // -------------------------------------------------------------------------
  // Messages about objects

  /** The id under which the client gets a message belongs to the object the server means. */
  lemma MessagesReachExactly(s: State, world: set<AOID>, ids: seq<AOID>)
    requires Renamed(s, world)
    ensures var out := Forward(s.clt, s.trk, AOMsgs(ids)).out;
      && |out| == 1 && out[0].AOMsgs? && |out[0].ids| == |ids|
      && forall k :: 0 <= k < |ids| ==>
           && Swapped(s.clt, out[0].ids[k]) == ids[k]
           && (out[0].ids[k] in s.view.objs <==> ids[k] in world || ids[k] == s.clt.currentCAO)
  {
    var out := Forward(s.clt, s.trk, AOMsgs(ids)).out;
    forall k | 0 <= k < |ids|
      ensures Swapped(s.clt, out[0].ids[k]) == ids[k]
      ensures out[0].ids[k] in s.view.objs <==> ids[k] in world || ids[k] == s.clt.currentCAO
    {
      SwapIsInvolution(s.clt, ids[k]);
      InImage(s.clt, world, Swapped(s.clt, ids[k]));
    }
  }

  /**
   The initial messages of the player's object on a later server go out under that server's id. They
   reach the player exactly if the client knows it by the same id, else another object exactly if one
   is shown under that id, else nobody.
   */
  lemma InitialMessagesReachExactly(s: State, world: set<AOID>, ao: AO, initClears: bool)
    requires Renamed(s, world) && ao.name == s.clt.name
    ensures var out := Forward(s.clt, s.trk, AORmAdd([], [ao])).out;
      var t := Process(s, AORmAdd([], [ao]), initClears);
      && |out| == 2 && out[0].AOMsgs? && |out[0].ids| == 1
      && var sent := out[0].ids[0];
         && (sent == s.clt.playerCAO <==> ao.id == s.clt.playerCAO)
         && (sent in t.view.objs <==> ao.id == s.clt.playerCAO || Swapped(s.clt, ao.id) in world)
  {
    hide Process;
    AdditionView(s, ao, initClears);
    assert [ao][..0] == [] && AddedIds([]) == {};
    var start := Adding(s.clt, s.trk.aos - Elems([]), [], []);
    assert AddAll(start, [ao]) == AddOne(start, ao);
    InImage(s.clt, world, ao.id);
  }

  /** Over every run in which the client's objects are right, messages reach the objects they are meant for. */
  lemma RunMessagesReach(name: string, events: seq<Event>, ids: seq<AOID>, initClears: bool)
    requires OkThroughout(name, Unpack(events), initClears) && Run(name, events, initClears).clt.playerCAO != 0
    ensures var s := Run(name, events, initClears);
      var out := Forward(s.clt, s.trk, AOMsgs(ids)).out;
      && |out| == 1 && out[0].AOMsgs? && |out[0].ids| == |ids|
      && forall k :: 0 <= k < |ids| ==>
           && Swapped(s.clt, out[0].ids[k]) == ids[k]
           && (out[0].ids[k] in s.view.objs <==> ids[k] in Others(name, events) || ids[k] == s.clt.currentCAO)
  {
    hide OkThroughout, AgreesThroughout, Forward, Run, Others;
    ObjectsRunExactly(name, events, initClears);
    MessagesReachExactly(Run(name, events, initClears), Others(name, events), ids);
  }
}
