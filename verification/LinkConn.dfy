/** The connection objects follow the pieces of `Links` (hop.go, fallback.go, client_conn.go, process.go). */
module LinkConn {
  import opened Wrappers
  import opened SessionConn
  import L = Links

  type Ids = map<ServerConn, L.ServerConnId>

  /** The client `c` of the net and its connections are these objects. */
  ghost predicate Represents(w: L.Net, c: L.ClientId, cc: ClientConn, ids: Ids)
    reads cc, ids.Keys
  {
    && w.Has(c) && w.clts[c].open == cc.open && w.clts[c].hop == L.Idle
    && (cc.srv == null ==> w.clts[c].srv == None)
    && (cc.srv != null ==> cc.srv in ids && w.clts[c].srv == Some(ids[cc.srv]))
    && (forall s, t :: s in ids && t in ids && ids[s] == ids[t] ==> s == t)
    && (forall s :: s in ids ==> Stands(w, c, cc, s, ids[s]))
  }

  ghost predicate Stands(w: L.Net, c: L.ClientId, cc: ClientConn, s: ServerConn, id: L.ServerConnId)
    reads s
  {
    id in w.srvs && w.srvs[id].owner == c && w.srvs[id].work == L.Waiting
    && (s.clt == cc || s.clt == null) && (w.srvs[id].linked <==> s.clt == cc)
  }

  /** What happens to one client, each up to its end. */
  datatype Act =
    | HopAct(serverName: string, known: bool, newPool: bool, dialOk: bool)
    | KickAct
    | FallbackAct(fallback: string, known: bool, newPool: bool, dialOk: bool)
    | CloseAct
    | TeardownAct

  function HopPieces(c: L.ClientId, known: bool, newPool: bool, dialOk: bool, n: L.ServerConnId): seq<L.Piece> {
    if !known || newPool then []
    else [L.HopBegin(c), L.HopClear(c), L.HopEnd(c, if dialOk then Some(n) else None)]
  }

  function KickPieces(s: L.ServerConnId): seq<L.Piece> {
    [L.Fetch(s), L.KickClose(s), L.KickUnlink(s)]
  }

  function DropPieces(c: L.ClientId): seq<L.Piece> {
    [L.Close(c), L.Drop(c), L.DropUnlink(c)]
  }

  lemma ThreeSteps(w: L.Net, a: L.Piece, b: L.Piece, c: L.Piece)
    ensures L.Steps(w, [a, b, c]) == L.Step(L.Step(L.Step(w, a), b), c)
  {
    hide L.Step;
    assert [a, b, c][..2] == [a, b] && [a, b][..1] == [a] && [a][..0] == [];
    assert L.Steps(w, [a]) == L.Step(w, a);
    assert L.Steps(w, [a, b]) == L.Step(L.Step(w, a), b);
  }

  lemma NoSteps(w: L.Net)
    ensures L.Steps(w, []) == w
  {
  }

  /** The three pieces of a hop, taken together. */
  lemma HopSteps(w: L.Net, c: L.ClientId, conn: Option<L.ServerConnId>)
    requires w.Has(c) && w.clts[c].hop == L.Idle
    requires w.clts[c].srv.Some? ==> w.clts[c].srv.value in w.srvs && w.srvs[w.clts[c].srv.value].owner == c
    requires conn.Some? ==> conn.value !in w.srvs
    ensures var v := L.Steps(w, [L.HopBegin(c), L.HopClear(c), L.HopEnd(c, conn)]);
      match w.clts[c].srv
      case None => v == w
      case Some(s) =>
        var cut := w.srvs[s := w.srvs[s].(linked := false)];
        && v.clts == w.clts[c := w.clts[c].(srv := conn)]
        && v.srvs == if conn.Some? then cut[conn.value := L.ServerConn(c, true, false, L.Waiting)] else cut
  {
    ThreeSteps(w, L.HopBegin(c), L.HopClear(c), L.HopEnd(c, conn));
    hide L.Steps;
    var w1 := L.Step(w, L.HopBegin(c));
    var w2 := L.Step(w1, L.HopClear(c));
    if w.clts[c].srv.Some? {
      assert w2.clts == w.clts[c := w.clts[c].(srv := None, hop := L.Cleared)];
      assert w2.srvs == w.srvs[w.clts[c].srv.value := w.srvs[w.clts[c].srv.value].(linked := false)];
    }
  }

  /** A hop, from its checks to the new connection. */
  method Hop(cc: ClientConn, serverName: string, known: bool, newPool: bool, dialOk: bool,
             ghost w: L.Net, ghost c: L.ClientId, ghost ids: Ids, ghost n: L.ServerConnId)
    returns (err: HopError, ghost ids': Ids)
    requires Represents(w, c, cc, ids) && n !in w.srvs
    modifies cc, cc.srv
    ensures Represents(L.Steps(w, HopPieces(c, known, newPool, dialOk, n)), c, cc, ids')
    ensures err == if old(cc.srv) == null then ErrNoServerConn else if !known then ErrNoSuchServer
                   else if newPool then ErrNewMediaPool else if !dialOk then ErrDial else NoError
    ensures err == NoError ==> cc.srv != null && cc.srv.name == serverName
    ensures forall s :: s in ids' ==> s in ids || fresh(s)
  {
    hide L.Steps;
    ids' := ids;
    ghost var before := cc.srv;
    if before != null {
      assert Stands(w, c, cc, before, ids[before]);
    }
    HopSteps(w, c, if dialOk then Some(n) else None);
    NoSteps(w);
    err := cc.HopRaw(serverName, known, newPool, dialOk);
    if err == NoError {
      ids' := ids[cc.srv := n];
    }
  }

  /** A fallback that ends with a kick. */
  method KickAfterFallback(cc: ClientConn, ghost w: L.Net, ghost c: L.ClientId, ghost ids: Ids)
    requires Represents(w, c, cc, ids)
    modifies cc
    ensures Represents(L.Steps(w, DropPieces(c)), c, cc, ids)
  {
    cc.KickAfterFallback();
    ThreeSteps(w, L.Close(c), L.Drop(c), L.DropUnlink(c));
  }

  /** A kick that the current connection passes on. */
  method PassKick(cc: ClientConn, sc: ServerConn, ghost w: L.Net, ghost c: L.ClientId, ghost ids: Ids)
    requires Represents(w, c, cc, ids) && sc in ids
    modifies sc, sc.clt
    ensures Represents(L.Steps(w, KickPieces(ids[sc])), c, cc, ids)
  {
    sc.PassKick();
    ThreeSteps(w, L.Fetch(ids[sc]), L.KickClose(ids[sc]), L.KickUnlink(ids[sc]));
  }

  /** The end of the client. */
  method Teardown(cc: ClientConn, ghost w: L.Net, ghost c: L.ClientId, ghost ids: Ids)
    requires Represents(w, c, cc, ids) && !cc.open && !w.clts[c].gone
    modifies cc, cc.srv
    ensures Represents(L.Step(w, L.Teardown(c)), c, cc, ids)
    ensures cc.open == old(cc.open)
  {
    cc.Teardown();
  }

  /** A fallback: a hop if there is a server to fall back to, and a kick if that fails. */
  method Fallback(cc: ClientConn, fallback: string, known: bool, newPool: bool, dialOk: bool,
                  ghost w: L.Net, ghost c: L.ClientId, ghost ids: Ids, ghost n: L.ServerConnId)
    returns (ghost ids': Ids)
    requires Represents(w, c, cc, ids) && n !in w.srvs
    modifies cc, cc.srv
    ensures Represents(L.Steps(w, FallbackPieces(w, c, fallback, known, newPool, dialOk, n)), c, cc, ids')
    ensures fallback != "" && old(cc.srv) != null && known && !newPool && dialOk ==>
      cc.srv != null && cc.srv.name == fallback
    ensures forall s :: s in ids' ==> s in ids || fresh(s)
  {
    hide L.Steps, Represents;
    ids' := ids;
    ghost var pieces := [];
    NoSteps(w);
    var err := NoError;
    if fallback != "" {
      pieces := HopPieces(c, known, newPool, dialOk, n);
      ServerKnown(w, c, cc, ids);
      err, ids' := Hop(cc, fallback, known, newPool, dialOk, w, c, ids, n);
    }
    if fallback == "" || err != NoError {
      KickAfterFallback(cc, L.Steps(w, pieces), c, ids');
      StepsConcat(w, pieces, DropPieces(c));
      assert [] + DropPieces(c) == DropPieces(c);
    }
  }

  lemma ServerKnown(w: L.Net, c: L.ClientId, cc: ClientConn, ids: Ids)
    requires Represents(w, c, cc, ids)
    ensures w.Has(c) && w.clts[c].open == cc.open && (w.clts[c].srv.None? <==> cc.srv == null)
    ensures cc.srv != null ==> cc.srv in ids && (cc.srv.clt == cc || cc.srv.clt == null)
  {
    if cc.srv != null {
      assert Stands(w, c, cc, cc.srv, ids[cc.srv]);
    }
  }

  function FallbackPieces(w: L.Net, c: L.ClientId, fallback: string, known: bool, newPool: bool, dialOk: bool,
                          n: L.ServerConnId): seq<L.Piece> {
    if fallback == "" then DropPieces(c)
    else
      var hop := HopPieces(c, known, newPool, dialOk, n);
      if w.Has(c) && w.clts[c].srv.Some? && known && !newPool && dialOk then hop else hop + DropPieces(c)
  }

  lemma {:induction false} StepsConcat(w: L.Net, a: seq<L.Piece>, b: seq<L.Piece>)
    ensures L.Steps(w, a + b) == L.Steps(L.Steps(w, a), b)
  {
    if b == [] {
      assert a + b == a;
    } else {
      StepsConcat(w, a, b[..|b| - 1]);
      assert (a + b)[..|a + b| - 1] == a + b[..|b| - 1];
    }
  }

  // -------------------------------------------------------------------------
  // Whole lives

  function PiecesOf(w: L.Net, act: Act, n: L.ServerConnId): seq<L.Piece> {
    match act
    case HopAct(_, known, newPool, dialOk) => HopPieces(0, known, newPool, dialOk, n)
    case FallbackAct(fallback, known, newPool, dialOk) => FallbackPieces(w, 0, fallback, known, newPool, dialOk, n)
    case KickAct => if w.Has(0) && w.clts[0].srv.Some? then KickPieces(w.clts[0].srv.value) else []
    case CloseAct => [L.Close(0)]
    case TeardownAct => [L.Teardown(0)]
  }

  /** A client that is accepted, connects and goes through the acts; each may make a new connection. */
  function AllPieces(acts: seq<Act>): seq<L.Piece> {
    if acts == [] then [L.Accept(0), L.Connect(0, 0)]
    else
      var before := AllPieces(acts[..|acts| - 1]);
      before + PiecesOf(L.Run(before), acts[|acts| - 1], |acts|)
  }

  /** No piece makes a connection other than `n`. */
  predicate MakesOnly(pieces: seq<L.Piece>, n: L.ServerConnId) {
    forall p :: p in pieces ==> !p.Connect? && (p.HopEnd? ==> p.conn == None || p.conn == Some(n))
  }

  lemma {:induction false} StepsGrow(w: L.Net, pieces: seq<L.Piece>, n: L.ServerConnId)
    requires MakesOnly(pieces, n)
    ensures L.Steps(w, pieces).srvs.Keys <= w.srvs.Keys + {n}
  {
    if pieces == [] {
    } else {
      StepsGrow(w, pieces[..|pieces| - 1], n);
      assert pieces[|pieces| - 1] in pieces;
      StepGrows(L.Steps(w, pieces[..|pieces| - 1]), pieces[|pieces| - 1], n);
    }
  }

  lemma StepGrows(w: L.Net, p: L.Piece, n: L.ServerConnId)
    requires !p.Connect? && (p.HopEnd? ==> p.conn == None || p.conn == Some(n))
    ensures L.Step(w, p).srvs.Keys <= w.srvs.Keys + {n}
  {
  }

  /** New connections have new numbers. */
  lemma {:induction false} NumbersBelow(acts: seq<Act>)
    ensures forall id :: id in L.Run(AllPieces(acts)).srvs ==> id <= |acts|
  {
    hide L.Steps, PiecesOf;
    if acts == [] {
      TwoSteps();
    } else {
      var init, n := acts[..|acts| - 1], |acts|;
      var before := AllPieces(init);
      NumbersBelow(init);
      var pieces := PiecesOf(L.Run(before), acts[n - 1], n);
      PiecesMakeOnly(L.Run(before), acts[n - 1], n);
      StepsConcat(L.START, before, pieces);
      StepsGrow(L.Run(before), pieces, n);
    }
  }

  lemma PiecesMakeOnly(w: L.Net, act: Act, n: L.ServerConnId)
    ensures MakesOnly(PiecesOf(w, act, n), n)
  {
  }

  lemma TwoSteps()
    ensures L.Run([L.Accept(0), L.Connect(0, 0)]) ==
      L.Net(map[0 := L.Client(true, Some(0), L.Idle, false, false)], map[0 := L.ServerConn(0, true, false, L.Waiting)])
  {
    var pieces := [L.Accept(0), L.Connect(0, 0)];
    assert pieces[..1] == [L.Accept(0)] && [L.Accept(0)][..0] == [];
    assert L.Steps(L.START, [L.Accept(0)]) == L.Step(L.START, L.Accept(0));
  }

  lemma OneStep(w: L.Net, p: L.Piece)
    ensures L.Steps(w, [p]) == L.Step(w, p)
  {
    assert [p][..0] == [];
  }

  lemma AllPiecesSnoc(init: seq<Act>, act: Act)
    ensures var w, pieces := L.Run(AllPieces(init)), PiecesOf(L.Run(AllPieces(init)), act, |init| + 1);
      L.Run(AllPieces(init + [act])) == L.Steps(w, pieces)
  {
    assert (init + [act])[..|init|] == init;
    StepsConcat(L.START, AllPieces(init), PiecesOf(L.Run(AllPieces(init)), act, |init| + 1));
  }

  lemma {:induction false} GoneKept(w: L.Net, pieces: seq<L.Piece>)
    requires w.Has(0) && forall p :: p in pieces ==> !p.Teardown?
    ensures L.Steps(w, pieces).Has(0) && L.Steps(w, pieces).clts[0].gone == w.clts[0].gone
  {
    if pieces == [] {
    } else {
      assert pieces[|pieces| - 1] in pieces;
      GoneKept(w, pieces[..|pieces| - 1]);
      GoneStep(L.Steps(w, pieces[..|pieces| - 1]), pieces[|pieces| - 1]);
    }
  }

  lemma GoneStep(w: L.Net, p: L.Piece)
    requires w.Has(0) && !p.Teardown?
    ensures L.Step(w, p).Has(0) && L.Step(w, p).clts[0].gone == w.clts[0].gone
  {
  }

  /** The teardown is what ends a closed client. */
  lemma GoneExactly(w: L.Net, act: Act, n: L.ServerConnId)
    requires w.Has(0) && (act.TeardownAct? ==> !w.clts[0].open)
    ensures L.Steps(w, PiecesOf(w, act, n)).Has(0)
    ensures L.Steps(w, PiecesOf(w, act, n)).clts[0].gone <==> w.clts[0].gone || act.TeardownAct?
  {
    hide L.Steps;
    if act.TeardownAct? {
      OneStep(w, L.Teardown(0));
    } else {
      hide L.Step;
      GoneKept(w, PiecesOf(w, act, n));
    }
  }

  /** One act of the objects is its pieces. */
  method Perform(cc: ClientConn, act: Act, ghost w: L.Net, ghost ids: Ids, ghost n: L.ServerConnId)
    returns (ghost ids': Ids)
    requires Represents(w, 0, cc, ids) && n !in w.srvs
    requires act.TeardownAct? ==> !cc.open && !w.clts[0].gone
    modifies cc, cc.srv, if cc.srv != null then {cc.srv.clt} else {}
    ensures act.HopAct? && old(cc.srv) != null && act.known && !act.newPool && act.dialOk ==>
      cc.srv != null && cc.srv.name == act.serverName
    ensures Represents(L.Steps(w, PiecesOf(w, act, n)), 0, cc, ids')
    ensures forall s :: s in ids' ==> s in ids || fresh(s)
  {
    ids' := ids;
    ServerKnown(w, 0, cc, ids);
    match act {
      case HopAct(serverName, known, newPool, dialOk) =>
        var err;
        err, ids' := Hop(cc, serverName, known, newPool, dialOk, w, 0, ids, n);
      case FallbackAct(fallback, known, newPool, dialOk) =>
        ids' := Fallback(cc, fallback, known, newPool, dialOk, w, 0, ids, n);
      case KickAct =>
        if cc.srv != null {
          PassKick(cc, cc.srv, w, 0, ids);
        } else {
          NoSteps(w);
        }
      case CloseAct =>
        cc.open := false;
        OneStep(w, L.Close(0));
      case TeardownAct =>
        Teardown(cc, w, 0, ids);
        OneStep(w, L.Teardown(0));
    }
  }

  /** The acts that take place: a teardown only when the client is closed and not yet torn down. */
  function Due(acts: seq<Act>): seq<Act> {
    if acts == [] then []
    else
      var before, act := Due(acts[..|acts| - 1]), acts[|acts| - 1];
      if act.TeardownAct? && !TeardownDue(L.Run(AllPieces(before))) then before else before + [act]
  }

  predicate TeardownDue(w: L.Net) {
    w.Has(0) && !w.clts[0].open && !w.clts[0].gone
  }

  lemma DueSnoc(init: seq<Act>, act: Act)
    ensures Due(init + [act]) ==
      if act.TeardownAct? && !TeardownDue(L.Run(AllPieces(Due(init)))) then Due(init) else Due(init) + [act]
  {
    assert (init + [act])[..|init|] == init;
  }

  ghost predicate Gone(w: L.Net) {
    w.Has(0) && w.clts[0].gone
  }

  /** One act if it is due. */
  method Advance(cc: ClientConn, act: Act, gone: bool, ghost done: seq<Act>, ghost ids: Ids)
    returns (due: bool, gone': bool, ghost ids': Ids)
    requires Represents(L.Run(AllPieces(done)), 0, cc, ids)
    requires gone <==> Gone(L.Run(AllPieces(done)))
    modifies cc, cc.srv, if cc.srv != null then {cc.srv.clt} else {}
    ensures due <==> !act.TeardownAct? || TeardownDue(L.Run(AllPieces(done)))
    ensures var done' := if due then done + [act] else done;
      Represents(L.Run(AllPieces(done')), 0, cc, ids') && (gone' <==> Gone(L.Run(AllPieces(done'))))
    ensures forall s :: s in ids' ==> s in ids || fresh(s)
  {
    hide L.Run, L.Steps, AllPieces, PiecesOf, Represents, Stands;
    ghost var w := L.Run(AllPieces(done));
    ids', gone' := ids, gone;
    ServerKnown(w, 0, cc, ids);
    due := !act.TeardownAct? || (!cc.open && !gone);
    if due {
      NumbersBelow(done);
      AllPiecesSnoc(done, act);
      GoneExactly(w, act, |done| + 1);
      ids' := Perform(cc, act, w, ids, |done| + 1);
      gone' := gone || act.TeardownAct?;
    }
  }

  /** A client that has connected. */
  method Begin(name: string) returns (cc: ClientConn, ghost ids: Ids)
    ensures fresh(cc) && forall s :: s in ids ==> fresh(s)
    ensures Represents(L.Run(AllPieces([])), 0, cc, ids) && !Gone(L.Run(AllPieces([])))
  {
    cc := new ClientConn(name, false);
    var sc := cc.Connect("");
    ids := map[sc := 0];
    TwoSteps();
  }

  lemma NothingDue()
    ensures Due([]) == []
  {
  }

  /**
   A client goes through the acts that are due, its teardown included. The objects end up as the
   pieces of these acts leave the net, so what holds of all interleavings holds of them.
   */
  method Live(name: string, acts: seq<Act>) returns (cc: ClientConn, done: seq<Act>, ghost ids: Ids)
    ensures fresh(cc) && Represents(L.Run(AllPieces(done)), 0, cc, ids)
    ensures done == Due(acts)
  {
    hide L.Run, AllPieces, Represents, Due, TeardownDue, Gone;
    cc, ids := Begin(name);
    done := [];
    var gone := false;
    NothingDue();
    for i := 0 to |acts|
      invariant fresh(cc) && forall s :: s in ids ==> fresh(s)
      invariant Represents(L.Run(AllPieces(done)), 0, cc, ids)
      invariant gone <==> Gone(L.Run(AllPieces(done)))
      invariant done == Due(acts[..i])
    {
      ServerKnown(L.Run(AllPieces(done)), 0, cc, ids);
      assert acts[..i + 1] == acts[..i] + [acts[i]];
      DueSnoc(acts[..i], acts[i]);
      var due;
      due, gone, ids := Advance(cc, acts[i], gone, done, ids);
      if due {
        done := done + [acts[i]];
      }
    }
    assert acts[..|acts|] == acts;
  }
}
