/**
 Many clients that log in: the connections of `Login` with the player set and the limit of `Registry`
 (process.go: ToSrvInit; client_conn.go: handleClt). The greeting's outcome is what the set and the limit
 have decided before.
 */
module Admission {
  import L = Login
  import R = Registry

  datatype World = World(reg: R.World, conns: map<R.ClientId, L.Conn>)

  /** A piece of the registry, or the processing of a packet; for ToSrvInit, what follows its pieces. */
  datatype Piece = Reg(p: R.Piece) | Packet(id: R.ClientId, e: L.Event)

  const START := World(R.START, map[])

  /** What is checked before the name is looked at. */
  predicate EarlyOk(e: L.Event)
    requires e.ToSrvInit?
  {
    && e.serializeVer == L.SERIALIZE_VER && e.minProtoVer <= L.PROTO_VER == e.maxProtoVer
    && 1 <= |e.name| <= L.MAX_PLAYER_NAME_LEN
  }

  /** The packet's outcome is the one that the registry has come to. */
  predicate Decided(reg: R.World, id: R.ClientId, e: L.Event)
    requires e.ToSrvInit? && id in reg.clients
  {
    match reg.clients[id].phase
    case Connected => !EarlyOk(e)
    case Rejected => EarlyOk(e) && e.taken
    case Refused =>
      && EarlyOk(e) && !e.taken && e.name == reg.clients[id].name
      && (e.limitReached || !L.NameChars(e.name) || e.name == "singleplayer")
    case Passed =>
      && EarlyOk(e) && !e.taken && e.name == reg.clients[id].name && !e.limitReached
      && L.NameChars(e.name) && e.name != "singleplayer"
    case _ => false
  }

  /** A client's pieces precede the end of its ToSrvInit, and its teardown follows the closing. */
  predicate RegDue(w: World, p: R.Piece) {
    match p
    case Accept(id) => id !in w.conns
    case Teardown(id) => id in w.conns && w.conns[id].closed
    case SetName(id, _) => id in w.conns && w.conns[id].cstate == L.Created
    case Register(id) => id in w.conns && w.conns[id].cstate == L.Created
    case Kick(id) => id in w.conns && w.conns[id].cstate == L.Created
    case CheckLimit(id) => id in w.conns && w.conns[id].cstate == L.Created
  }

  predicate PacketDue(w: World, id: R.ClientId, e: L.Event) {
    && id in w.conns && id in w.reg.clients
    && (e.ToSrvInit? && w.conns[id].cstate == L.Created ==> Decided(w.reg, id, e))
  }

  function Step(w: World, limit: int, p: Piece): World {
    match p
    case Reg(p) =>
      if !RegDue(w, p) then w
      else
        var reg := R.Step(w.reg, limit, p);
        World(reg, if p.Accept? then w.conns[p.id := L.FRESH] else w.conns)
    case Packet(id, e) =>
      if !PacketDue(w, id, e) then w else w.(conns := w.conns[id := L.Step(w.conns[id], e)])
  }

  function Run(limit: int, pieces: seq<Piece>): World {
    if pieces == [] then START else Step(Run(limit, pieces[..|pieces| - 1]), limit, pieces[|pieces| - 1])
  }

  /** Accepted or about to be, and what the registry then knows of the client. */
  ghost predicate ConnSound(w: World, id: R.ClientId)
    requires id in w.conns && id in w.reg.clients
  {
    var conn, client := w.conns[id], w.reg.clients[id];
    && L.Safe(conn)
    && (client.phase == R.Gone ==> conn.closed)
    && (L.Granted(conn) ==> (client.phase == R.Passed || client.phase == R.Gone) && client.name == conn.name)
  }

  ghost predicate Sound(w: World) {
    && w.conns.Keys == w.reg.clients.Keys
    && forall id :: id in w.conns ==> ConnSound(w, id)
  }

  lemma FreshSafe()
    ensures L.Safe(L.FRESH) && !L.Granted(L.FRESH)
  {
    L.RunSafe([]);
  }

  lemma CreatedNotGranted(c: L.Conn)
    requires L.Safe(c) && c.cstate == L.Created
    ensures !L.Granted(c)
  {
    L.CountZero(c.log, L.SendAcceptAuth);
  }

  lemma RegSound(w: World, limit: int, p: R.Piece)
    requires Sound(w) && RegDue(w, p)
    ensures Sound(Step(w, limit, Reg(p)))
  {
    hide L.Safe, L.Granted;
    FreshSafe();
    var v := Step(w, limit, Reg(p));
    forall id | id in v.conns ensures id in v.reg.clients && ConnSound(v, id) {
      if id in w.conns {
        assert ConnSound(w, id);
        if w.conns[id].cstate == L.Created {
          CreatedNotGranted(w.conns[id]);
        }
      }
    }
  }

  lemma PacketSound(w: World, limit: int, id: R.ClientId, e: L.Event)
    requires Sound(w) && PacketDue(w, id, e)
    ensures Sound(Step(w, limit, Packet(id, e)))
  {
    hide L.Safe, L.Granted, L.Step, Decided;
    var v := Step(w, limit, Packet(id, e));
    assert ConnSound(w, id);
    L.StepSafe(w.conns[id], e);
    ClosedStays(w.conns[id], e);
    if L.Granted(v.conns[id]) {
      GrantedFrom(w, id, e);
    }
    forall other | other in v.conns ensures ConnSound(v, other) {
      assert ConnSound(w, other);
    }
  }

  lemma ClosedStays(c: L.Conn, e: L.Event)
    ensures c.closed ==> L.Step(c, e).closed
  {
  }

  lemma GrantedFrom(w: World, id: R.ClientId, e: L.Event)
    requires PacketDue(w, id, e) && ConnSound(w, id) && L.Granted(L.Step(w.conns[id], e))
    ensures w.reg.clients[id].phase == R.Passed || w.reg.clients[id].phase == R.Gone
    ensures w.reg.clients[id].name == L.Step(w.conns[id], e).name
  {
    hide L.Safe, L.Granted, L.Step, L.NameChars;
    var c := w.conns[id];
    L.GrantedStep(c, e);
    if L.Granted(c) && L.Step(c, e).name == c.name {
    } else {
      GrantedCreated(c, e);
    }
  }

  lemma GrantedCreated(c: L.Conn, e: L.Event)
    requires L.Safe(c) && L.Granted(L.Step(c, e)) && !(L.Granted(c) && L.Step(c, e).name == c.name)
    ensures c.cstate == L.Created && L.Admitted(e) && L.Step(c, e).name == e.name
  {
    hide L.NameChars;
    L.GrantedStep(c, e);
  }

  lemma {:induction false} RunSound(limit: nat, pieces: seq<Piece>)
    ensures var w := Run(limit, pieces);
      Sound(w) && R.Consistent(w.reg) && |R.PassedClients(w.reg)| <= limit
  {
    if pieces == [] {
      R.RegistrySafety(limit, []);
    } else {
      hide Sound, RegDue, PacketDue, R.Consistent, R.PassedClients, R.Step;
      var init, last := pieces[..|pieces| - 1], pieces[|pieces| - 1];
      var w := Run(limit, init);
      RunSound(limit, init);
      match last {
        case Reg(p) =>
          if RegDue(w, p) {
            RegSound(w, limit, p);
            R.StepConsistent(w.reg, limit, p);
            R.StepWithinLimit(w.reg, limit, p);
          }
        case Packet(id, e) => if PacketDue(w, id, e) { PacketSound(w, limit, id, e); }
      }
    }
  }

  /** The clients in use: accepted and not closed. */
  function Accepted(w: World): set<R.ClientId> {
    set id | id in w.conns && L.SendAcceptAuth in w.conns[id].log && !w.conns[id].closed
  }

  /**
   Over every interleaving, the clients in use have distinct names, which are in the player set, and
   there are no more of them than the limit.
   */
  lemma AcceptedWithinLimit(limit: nat, pieces: seq<Piece>)
    ensures var w := Run(limit, pieces);
      && |Accepted(w)| <= limit
      && (forall a :: a in Accepted(w) ==> w.conns[a].name in w.reg.players)
      && (forall a, b :: a in Accepted(w) && b in Accepted(w) && w.conns[a].name == w.conns[b].name ==> a == b)
  {
    RunSound(limit, pieces);
    var w := Run(limit, pieces);
    hide Run, L.Safe;
    forall a | a in Accepted(w)
      ensures R.At(w.reg, a, R.Passed) && w.reg.clients[a].name == w.conns[a].name
      ensures w.conns[a].name in w.reg.players
    {
      assert ConnSound(w, a);
      assert R.Holds(w.reg, a) && R.Held(w.reg, w.reg.clients[a].name);
    }
    assert Accepted(w) <= R.PassedClients(w.reg);
    R.SubsetSize(Accepted(w), R.PassedClients(w.reg));
    forall a, b | a in Accepted(w) && b in Accepted(w) && w.conns[a].name == w.conns[b].name ensures a == b {
      assert R.Holds(w.reg, a) && R.Holds(w.reg, b);
    }
  }
}
