/**
 The global set of player names and the user limit under any interleaving of logins and
 teardowns (process.go: ToSrvInit; client_conn.go: handleClt). A client's own pieces run in
 the order of the source; pieces of different clients interleave freely.
 */
module Registry {

  type ClientId = nat

  /** How far a client has got. */
  datatype Phase =
    | Connected   // accepted, not initialised
    | Named       // cc.name is set, the lock on the player set is not yet taken
    | Rejected    // the name was taken: cc.name is empty again, the connection is closed
    | Registered  // in the player set, the limit not yet checked
    | Refused     // over the limit or otherwise kicked, the connection is closed
    | Passed      // the limit check is behind it; ToCltHello follows
    | Gone        // torn down

  datatype Client = Client(phase: Phase, name: string)

  datatype World = World(players: set<string>, clients: map<ClientId, Client>)

  /** The atomic pieces. */
  datatype Piece =
    | Accept(id: ClientId)
    | SetName(id: ClientId, name: string)
    | Register(id: ClientId)
    | Kick(id: ClientId)
    | CheckLimit(id: ClientId)
    | Teardown(id: ClientId)

  const START := World({}, map[])

  predicate At(w: World, id: ClientId, phase: Phase) {
    id in w.clients && w.clients[id].phase == phase
  }

  /** A piece that a client is not ready for has no effect. */
  function Step(w: World, limit: int, p: Piece): World {
    match p
    case Accept(id) =>
      if id in w.clients then w else w.(clients := w.clients[id := Client(Connected, "")])
    case SetName(id, name) =>
      if !At(w, id, Connected) || name == "" then w
      else w.(clients := w.clients[id := Client(Named, name)])
    case Register(id) =>
      if !At(w, id, Named) then w
      else
        var name := w.clients[id].name;
        if name in w.players then w.(clients := w.clients[id := Client(Rejected, "")])
        else World(w.players + {name}, w.clients[id := Client(Registered, name)])
    case Kick(id) =>
      if !At(w, id, Registered) then w
      else w.(clients := w.clients[id := w.clients[id].(phase := Refused)])
    case CheckLimit(id) =>
      if !At(w, id, Registered) then w
      else
        var phase := if |w.players| > limit then Refused else Passed;
        w.(clients := w.clients[id := w.clients[id].(phase := phase)])
    case Teardown(id) =>
      // runs on the client's own goroutine, so never between SetName and Register
      if id !in w.clients || w.clients[id].phase == Named || w.clients[id].phase == Gone then w
      else
        var name := w.clients[id].name;
        World(if name != "" then w.players - {name} else w.players, w.clients[id := Client(Gone, name)])
  }

  function Run(limit: int, pieces: seq<Piece>): World {
    if pieces == [] then START
    else Step(Run(limit, pieces[..|pieces| - 1]), limit, pieces[|pieces| - 1])
  }

  /** In the player set and not torn down. */
  predicate Holds(w: World, id: ClientId) {
    id in w.clients && w.clients[id].phase in {Registered, Refused, Passed}
  }

  function Holders(w: World): set<ClientId> {
    set id | id in w.clients && Holds(w, id)
  }

  function PassedClients(w: World): set<ClientId> {
    set id | id in w.clients && At(w, id, Passed)
  }

  ghost predicate Held(w: World, name: string) {
    exists id :: Holds(w, id) && w.clients[id].name == name
  }

  ghost predicate Consistent(w: World) {
    && (forall name :: name in w.players <==> Held(w, name))
    && (forall a, b :: Holds(w, a) && Holds(w, b) && w.clients[a].name == w.clients[b].name ==> a == b)
    && (forall id :: Holds(w, id) ==> w.clients[id].name != "")
    && (forall id :: At(w, id, Connected) || At(w, id, Rejected) ==> w.clients[id].name == "")
    && (forall id :: At(w, id, Named) ==> w.clients[id].name != "")
  }

  /** The player set as an image. */
  lemma PlayersAreNames(w: World)
    requires Consistent(w)
    ensures w.players == set id | id in Holders(w) :: w.clients[id].name
  {
    forall name ensures name in w.players <==> exists id :: id in Holders(w) && w.clients[id].name == name {
      if Held(w, name) {
        var id :| Holds(w, id) && w.clients[id].name == name;
        assert id in Holders(w);
      }
      if id :| id in Holders(w) && w.clients[id].name == name {
        assert Held(w, name);
      }
    }
  }

  /** Pieces that change who holds a name in no way. */
  lemma SameHolders(w: World, v: World)
    requires Consistent(w) && v.players == w.players
    requires forall id :: Holds(w, id) <==> Holds(v, id)
    requires forall id :: Holds(w, id) && Holds(v, id) ==> v.clients[id].name == w.clients[id].name
    requires forall id :: At(v, id, Connected) || At(v, id, Rejected) ==> v.clients[id].name == ""
    requires forall id :: At(v, id, Named) ==> v.clients[id].name != ""
    ensures Consistent(v)
  {
    forall name ensures Held(w, name) <==> Held(v, name) {
      if Held(w, name) {
        var id :| Holds(w, id) && w.clients[id].name == name;
        assert Holds(v, id);
      }
      if Held(v, name) {
        var id :| Holds(v, id) && v.clients[id].name == name;
        assert Holds(w, id);
      }
    }
  }

  lemma RegisterConsistent(w: World, limit: int, id: ClientId)
    requires Consistent(w) && At(w, id, Named) && w.clients[id].name !in w.players
    ensures Consistent(Step(w, limit, Register(id)))
  {
    var v := Step(w, limit, Register(id));
    forall name ensures name in v.players <==> Held(v, name) {
      assert Holds(v, id);
      if Held(w, name) {
        var h :| Holds(w, h) && w.clients[h].name == name;
        assert Holds(v, h);
      }
      if Held(v, name) {
        var h :| Holds(v, h) && v.clients[h].name == name;
        if h != id {
          assert Holds(w, h);
        }
      }
    }
    assert forall h :: Holds(w, h) ==> Held(w, w.clients[h].name);
  }

  lemma TeardownConsistent(w: World, limit: int, id: ClientId)
    requires Consistent(w) && Holds(w, id)
    ensures Consistent(Step(w, limit, Teardown(id)))
  {
    var v := Step(w, limit, Teardown(id));
    forall name ensures name in v.players <==> Held(v, name) {
      if name != w.clients[id].name && Held(w, name) {
        var h :| Holds(w, h) && w.clients[h].name == name;
        assert Holds(v, h);
      }
      if Held(v, name) {
        var h :| Holds(v, h) && v.clients[h].name == name;
        assert Holds(w, h) && Held(w, name);
      }
    }
  }

  lemma StepConsistent(w: World, limit: int, p: Piece)
    requires Consistent(w)
    ensures Consistent(Step(w, limit, p))
  {
    var v := Step(w, limit, p);
    if p.Register? && At(w, p.id, Named) && w.clients[p.id].name !in w.players {
      RegisterConsistent(w, limit, p.id);
    } else if p.Teardown? && Holds(w, p.id) {
      TeardownConsistent(w, limit, p.id);
    } else {
      SameHolders(w, v);
    }
  }

  /** Two finite sets related by distinct names have equal size. */
  lemma {:induction false} NamesCount(ids: set<ClientId>, w: World)
    requires forall id :: id in ids ==> id in w.clients
    requires forall a, b :: a in ids && b in ids && w.clients[a].name == w.clients[b].name ==> a == b
    ensures |set id | id in ids :: w.clients[id].name| == |ids|
    decreases ids
  {
    var names := set id | id in ids :: w.clients[id].name;
    if ids == {} {
      assert names == {};
    } else {
      var x :| x in ids;
      var rest := ids - {x};
      NamesCount(rest, w);
      var restNames := set id | id in rest :: w.clients[id].name;
      assert w.clients[x].name !in restNames;
      assert names == restNames + {w.clients[x].name};
    }
  }

  lemma {:induction false} SubsetSize<T>(a: set<T>, b: set<T>)
    requires a <= b
    ensures |a| <= |b|
    decreases a
  {
    if a == {} {
    } else {
      var x :| x in a;
      SubsetSize(a - {x}, b - {x});
    }
  }

  lemma StepWithinLimit(w: World, limit: int, p: Piece)
    requires Consistent(w) && |PassedClients(w)| <= limit
    ensures |PassedClients(Step(w, limit, p))| <= limit
  {
    var v := Step(w, limit, p);
    if p.CheckLimit? && At(w, p.id, Registered) && |w.players| <= limit {
      StepConsistent(w, limit, p);
      PassedFewerThanPlayers(v);
    } else {
      hide Consistent;
      PassedKept(w, limit, p);
      SubsetSize(PassedClients(v), PassedClients(w));
    }
  }

  /** A client gets its name exactly if no other client holds it, and is turned away without one otherwise. */
  lemma RegisteredExactly(limit: nat, pieces: seq<Piece>, id: ClientId)
    requires At(Run(limit, pieces), id, Named)
    ensures var w := Run(limit, pieces);
      var v := Step(w, limit, Register(id));
      && (At(v, id, Registered) <==> !exists other :: Holds(w, other) && w.clients[other].name == w.clients[id].name)
      && (At(v, id, Registered) ==> v.clients[id].name == w.clients[id].name)
      && (At(v, id, Registered) ==> v.players == w.players + {w.clients[id].name})
      && (!At(v, id, Registered) ==> At(v, id, Rejected) && v.players == w.players)
  {
    RegistrySafety(limit, pieces);
    var w := Run(limit, pieces);
    hide Run;
    assert w.clients[id].name in w.players <==> Held(w, w.clients[id].name);
  }

  /** When a client that held a name is torn down, the name is free. */
  lemma TornDownFrees(limit: nat, pieces: seq<Piece>, id: ClientId)
    requires Holds(Run(limit, pieces), id)
    ensures var w := Run(limit, pieces);
      var v := Step(w, limit, Teardown(id));
      && w.clients[id].name in w.players && v.players == w.players - {w.clients[id].name}
      && At(v, id, Gone)
  {
    RegistrySafety(limit, pieces);
    var w := Run(limit, pieces);
    hide Run;
    assert Held(w, w.clients[id].name);
  }

  /** Only the check lets clients pass. */
  lemma PassedKept(w: World, limit: int, p: Piece)
    requires !(p.CheckLimit? && At(w, p.id, Registered) && |w.players| <= limit)
    ensures PassedClients(Step(w, limit, p)) <= PassedClients(w)
  {
  }

  /** The number of names is the number of clients that hold one. */
  lemma PlayersCount(w: World)
    requires Consistent(w)
    ensures |w.players| == |Holders(w)|
  {
    PlayersAreNames(w);
    NamesCount(Holders(w), w);
  }

  lemma PassedFewerThanPlayers(w: World)
    requires Consistent(w)
    ensures |PassedClients(w)| <= |w.players|
  {
    PlayersCount(w);
    SubsetSize(PassedClients(w), Holders(w));
  }

  /**
   Whatever the interleaving: the player set is the set of names of the clients registered and
   not torn down, these names are distinct, and no more clients than the limit have passed the
   check, although it reads the set outside the lock.
   */
  lemma {:induction false} RegistrySafety(limit: nat, pieces: seq<Piece>)
    ensures Consistent(Run(limit, pieces))
    ensures |PassedClients(Run(limit, pieces))| <= limit
  {
    if pieces == [] {
      assert Holders(START) == {} && PassedClients(START) == {};
    } else {
      var init, last := pieces[..|pieces| - 1], pieces[|pieces| - 1];
      RegistrySafety(limit, init);
      StepConsistent(Run(limit, init), limit, last);
      StepWithinLimit(Run(limit, init), limit, last);
    }
  }

  /** A client whose name was taken never removes the holder's entry. */
  lemma RejectedIsHarmless(limit: nat, pieces: seq<Piece>, id: ClientId)
    ensures var w := Run(limit, pieces);
      At(w, id, Rejected) ==> Step(w, limit, Teardown(id)).players == w.players
  {
    RegistrySafety(limit, pieces);
  }

  /** The check counts everybody who holds a name, also those that are refused or not yet checked. */
  lemma RefusedExactly(limit: nat, pieces: seq<Piece>, id: ClientId)
    requires At(Run(limit, pieces), id, Registered)
    ensures var w := Run(limit, pieces);
      var v := Step(w, limit, CheckLimit(id));
      && (At(v, id, Refused) <==> |Holders(w)| > limit)
      && (At(v, id, Passed) <==> |Holders(w)| <= limit)
  {
    RegistrySafety(limit, pieces);
    PlayersCount(Run(limit, pieces));
  }

  /** Clients that hold a name without having passed the check. */
  function Pending(w: World): set<ClientId> {
    Holders(w) - PassedClients(w)
  }

  /**
   While there is room, a client is let in exactly if the room also suffices for all other
   clients that hold a name without having passed: the refused ones that are not yet torn down and
   the ones that are about to be checked.
   */
  lemma RoomSufficesExactly(limit: nat, pieces: seq<Piece>, id: ClientId)
    requires At(Run(limit, pieces), id, Registered) && |PassedClients(Run(limit, pieces))| < limit
    ensures var w := Run(limit, pieces);
      At(Step(w, limit, CheckLimit(id)), id, Passed) <==>
      |PassedClients(w)| + |Pending(w) - {id}| < limit
  {
    var w := Run(limit, pieces);
    RefusedExactly(limit, pieces, id);
    assert id in Pending(w);
    assert Holders(w) == PassedClients(w) + Pending(w) && PassedClients(w) !! Pending(w);
    assert |Pending(w)| == |Pending(w) - {id}| + 1;
  }

  lemma TwoNamed(a: string, b: string)
    requires a != "" && b != ""
    ensures Run(1, [Accept(0), Accept(1), SetName(0, a), SetName(1, b)])
         == World({}, map[0 := Client(Named, a), 1 := Client(Named, b)])
  {
    hide Run;
    NothingRun(1);
    RunSnoc(1, [], Accept(0));
    var p1 := [] + [Accept(0)];
    RunSnoc(1, p1, Accept(1));
    var p2 := p1 + [Accept(1)];
    RunSnoc(1, p2, SetName(0, a));
    RunSnoc(1, p2 + [SetName(0, a)], SetName(1, b));
    assert p2 + [SetName(0, a)] + [SetName(1, b)] == [Accept(0), Accept(1), SetName(0, a), SetName(1, b)];
  }

  lemma TwoRegistered(a: string, b: string)
    requires a != b && a != "" && b != ""
    ensures Run(1, [Accept(0), Accept(1), SetName(0, a), SetName(1, b), Register(0), Register(1)])
         == World({a, b}, map[0 := Client(Registered, a), 1 := Client(Registered, b)])
  {
    hide Run;
    TwoNamed(a, b);
    var p4 := [Accept(0), Accept(1), SetName(0, a), SetName(1, b)];
    RunSnoc(1, p4, Register(0));
    RunSnoc(1, p4 + [Register(0)], Register(1));
    assert p4 + [Register(0)] + [Register(1)]
        == [Accept(0), Accept(1), SetName(0, a), SetName(1, b), Register(0), Register(1)];
  }

  /**
   The limit is safe but not exact: two clients that register before either checks are both
   refused at a limit of one, although each could be served alone.
   */
  lemma BothRefused(a: string, b: string)
    requires a != b && a != "" && b != ""
    ensures var w := Run(1, [Accept(0), Accept(1), SetName(0, a), SetName(1, b), Register(0), Register(1),
                             CheckLimit(0), CheckLimit(1)]);
      At(w, 0, Refused) && At(w, 1, Refused)
  {
    hide Run;
    TwoRegistered(a, b);
    var p6 := [Accept(0), Accept(1), SetName(0, a), SetName(1, b), Register(0), Register(1)];
    assert |{a, b}| == 2;
    RunSnoc(1, p6, CheckLimit(0));
    RunSnoc(1, p6 + [CheckLimit(0)], CheckLimit(1));
    assert p6 + [CheckLimit(0)] + [CheckLimit(1)] == [Accept(0), Accept(1), SetName(0, a), SetName(1, b),
      Register(0), Register(1), CheckLimit(0), CheckLimit(1)];
  }

  lemma NothingRun(limit: int)
    ensures Run(limit, []) == START
  {
  }

  lemma RunSnoc(limit: int, pieces: seq<Piece>, p: Piece)
    ensures Run(limit, pieces + [p]) == Step(Run(limit, pieces), limit, p)
  {
    assert (pieces + [p])[..|pieces|] == pieces;
  }

  class Players {
    var players: set<string>
    var clients: map<ClientId, Client>

    function State(): World
      reads this
    {
      World(players, clients)
    }

    constructor ()
      ensures State() == START
    {
      players, clients := {}, map[];
    }

    /** The section under `playersMu`; it ends with the connection closed if the name is taken. */
    method DoRegister(id: ClientId, ghost limit: int) returns (ok: bool)
      requires At(State(), id, Named) && Consistent(State())
      modifies this
      ensures State() == Step(old(State()), limit, Register(id)) && Consistent(State())
      ensures ok <==> old(clients)[id].name !in old(players)
    {
      StepConsistent(State(), limit, Register(id));
      var name := clients[id].name;
      if name in players {
        clients := clients[id := Client(Rejected, "")];
        return false;
      }
      players := players + {name};
      clients := clients[id := Client(Registered, name)];
      ok := true;
    }

    method DoCheckLimit(id: ClientId, limit: int) returns (ok: bool)
      requires At(State(), id, Registered) && Consistent(State()) && |PassedClients(State())| <= limit
      modifies this
      ensures State() == Step(old(State()), limit, CheckLimit(id)) && Consistent(State())
      ensures |PassedClients(State())| <= limit
      ensures ok <==> |old(players)| <= limit
    {
      StepConsistent(State(), limit, CheckLimit(id));
      StepWithinLimit(State(), limit, CheckLimit(id));
      ok := !(|players| > limit);
      clients := clients[id := clients[id].(phase := if ok then Passed else Refused)];
    }

    method DoTeardown(id: ClientId, ghost limit: int)
      requires id in clients && clients[id].phase != Named && clients[id].phase != Gone && Consistent(State())
      modifies this
      ensures State() == Step(old(State()), limit, Teardown(id)) && Consistent(State())
      ensures old(clients)[id].phase == Rejected ==> players == old(players)
    {
      StepConsistent(State(), limit, Teardown(id));
      var name := clients[id].name;
      if name != "" {
        players := players - {name};
      }
      clients := clients[id := Client(Gone, name)];
    }
  }
}
