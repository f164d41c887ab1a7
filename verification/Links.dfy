/**
 The pointers `cc.srv` and `sc.clt` between clients and server connections, through hops,
 fallbacks, kicks and teardown (hop.go, fallback.go, connect.go, client_conn.go, process.go).
 A piece is a section under one lock: `cc.mu` for HopClear, Drop and Teardown, which takes `sc.mu` inside,
 and `sc.mu` for Fetch and KickUnlink. Two sections are taken as one piece where `cc.srv` is looked up and
 that connection's `clt` is cleared (HopBegin, DropUnlink), and where `connect` checks and then stores
 `cc.srv` (Connect, HopEnd). `hopMu` keeps two hops of one client apart. Otherwise pieces of different
 goroutines interleave freely.
 */
module Links {
  import opened Wrappers

  type ClientId = nat
  type ServerConnId = nat

  /** How far a running `HopRaw` has got. */
  datatype Hop = Idle | Unlinked | Cleared

  /** What the goroutine of a server connection does: a packet's processing keeps the client it has read. */
  datatype Work = Waiting | Processing | Kicking

  /** `fellBack`: a fallback has ended with a kick. */
  datatype Client = Client(open: bool, srv: Option<ServerConnId>, hop: Hop, fellBack: bool, gone: bool)

  /**
   `sc.clt` is the client it was made for while `linked`, nil afterwards. `abandoned`: `cc.srv`
   was overwritten while this connection was there and pointed back.
   */
  datatype ServerConn = ServerConn(owner: ClientId, linked: bool, abandoned: bool, work: Work)

  datatype Net = Net(clts: map<ClientId, Client>, srvs: map<ServerConnId, ServerConn>) {
    predicate PointsTo(s: ServerConnId, c: ClientId) {
      s in srvs && srvs[s].linked && srvs[s].owner == c
    }

    predicate Has(c: ClientId) {
      c in clts
    }

    predicate Open(c: ClientId) {
      c in clts && clts[c].open
    }

    predicate Works(s: ServerConnId, work: Work) {
      s in srvs && srvs[s].work == work && srvs[s].owner in clts
    }

    function SetClient(c: ClientId, clt: Client): Net {
      this.(clts := clts[c := clt])
    }

    function SetServer(s: ServerConnId, srv: ServerConn): Net {
      this.(srvs := srvs[s := srv])
    }

    function Unlink(s: ServerConnId): Net {
      if s in srvs then SetServer(s, srvs[s].(linked := false)) else this
    }

    /** Unlinks whatever connection the client has at the moment. */
    function UnlinkCurrent(c: ClientId): Net
      requires Has(c)
    {
      if clts[c].srv.Some? then Unlink(clts[c].srv.value) else this
    }

    /** Overwrites `cc.srv` with nil without looking at the connection. */
    function Overwrite(c: ClientId): Net
      requires Has(c)
    {
      var v := SetClient(c, clts[c].(srv := None));
      match clts[c].srv
      case None => v
      case Some(s) => if PointsTo(s, c) then v.SetServer(s, srvs[s].(abandoned := true)) else v
    }

    /** `connect` does nothing if there is a server already; connections are new objects. */
    function Connected(c: ClientId, s: ServerConnId): Net
      requires Has(c)
    {
      if clts[c].srv.Some? || s in srvs then this
      else SetClient(c, clts[c].(srv := Some(s))).SetServer(s, ServerConn(c, true, false, Waiting))
    }
  }

  datatype Piece =
    | Accept(c: ClientId)
    | Connect(c: ClientId, s: ServerConnId)               // connect, at start-up
    | HopBegin(c: ClientId)                               // HopRaw: sc.clt = nil
    | HopClear(c: ClientId)                               // HopRaw: cc.srv = nil
    | HopEnd(c: ClientId, conn: Option<ServerConnId>)     // HopRaw: connect, or None if dialling failed
    | Fetch(s: ServerConnId)                              // process: clt := sc.client()
    | Send(s: ServerConnId)                               // process: clt.SendCmd or clt.Send
    | Done(s: ServerConnId)                               // process returns
    | KickClose(s: ServerConnId)                          // a kick is passed on: clt.Close()
    | KickUnlink(s: ServerConnId)                         // and then: sc.clt = nil
    | Close(c: ClientId)                                  // the client leaves or is kicked
    | Drop(c: ClientId)                                   // a fallback that ends with a kick: cc.srv = nil
    | DropUnlink(c: ClientId)                             // and then: cc.server().clt = nil if there is one
    | Teardown(c: ClientId)                               // the end of handleClt

  const START := Net(map[], map[])

  /** A piece that is not due has no effect. */
  function Step(w: Net, p: Piece): Net {
    match p
    case Accept(c) =>
      if w.Has(c) then w else w.SetClient(c, Client(true, None, Idle, false, false))
    case Connect(c, s) =>
      if !w.Has(c) then w else w.Connected(c, s)
    case HopBegin(c) =>
      if !BeginsHop(w, p, c) then w
      else w.SetClient(c, w.clts[c].(hop := Unlinked)).Unlink(w.clts[c].srv.value)
    case HopClear(c) =>
      if !ClearsHop(w, p, c) then w
      else
        var v := w.Overwrite(c);
        v.SetClient(c, v.clts[c].(hop := Cleared))
    case HopEnd(c, conn) =>
      if !w.Has(c) || w.clts[c].hop != Cleared then w
      else
        var v := w.SetClient(c, w.clts[c].(hop := Idle));
        if conn.None? then v else v.Connected(c, conn.value)
    case Fetch(s) =>
      if !w.Works(s, Waiting) || !w.srvs[s].linked then w
      else w.SetServer(s, w.srvs[s].(work := Processing))
    case Send(_) => w
    case Done(s) =>
      if !w.Works(s, Processing) then w else w.SetServer(s, w.srvs[s].(work := Waiting))
    case KickClose(s) =>
      if !w.Works(s, Processing) then w
      else
        var c := w.srvs[s].owner;
        w.SetServer(s, w.srvs[s].(work := Kicking)).SetClient(c, w.clts[c].(open := false))
    case KickUnlink(s) =>
      if !w.Works(s, Kicking) then w else w.SetServer(s, w.srvs[s].(work := Waiting, linked := false))
    case Close(c) =>
      if !w.Has(c) then w else w.SetClient(c, w.clts[c].(open := false))
    case Drop(c) =>
      if !w.Has(c) || w.clts[c].open then w
      else
        var v := w.Overwrite(c);
        v.SetClient(c, v.clts[c].(fellBack := true))
    case DropUnlink(c) =>
      if !w.Has(c) || !w.clts[c].fellBack then w else w.UnlinkCurrent(c)
    case Teardown(c) =>
      if !w.Has(c) || w.clts[c].open || w.clts[c].gone then w
      else w.UnlinkCurrent(c).SetClient(c, w.clts[c].(srv := None, gone := true))
  }

  predicate BeginsHop(w: Net, p: Piece, c: ClientId) {
    p == HopBegin(c) && w.Has(c) && w.clts[c].hop == Idle && w.clts[c].srv.Some?
  }

  predicate ClearsHop(w: Net, p: Piece, c: ClientId) {
    p == HopClear(c) && w.Has(c) && w.clts[c].hop == Unlinked
  }

  function Steps(w: Net, pieces: seq<Piece>): Net {
    if pieces == [] then w else Step(Steps(w, pieces[..|pieces| - 1]), pieces[|pieces| - 1])
  }

  function Run(pieces: seq<Piece>): Net {
    Steps(START, pieces)
  }

  // -------------------------------------------------------------------------
  // The invariant

  ghost predicate ServerSound(w: Net, s: ServerConnId)
    requires s in w.srvs
  {
    var srv := w.srvs[s];
    && w.Has(srv.owner)
    && (srv.linked && !srv.abandoned ==> w.clts[srv.owner].srv == Some(s))
    && (srv.abandoned ==> w.clts[srv.owner].srv != Some(s) && !w.clts[srv.owner].open)
    && (srv.work == Kicking ==> !w.clts[srv.owner].open)
  }

  ghost predicate ClientSound(w: Net, c: ClientId)
    requires w.Has(c)
  {
    var clt := w.clts[c];
    && (clt.srv.Some? ==> clt.srv.value in w.srvs && w.srvs[clt.srv.value].owner == c)
    && (clt.hop == Unlinked && clt.open ==> clt.srv.Some? && !w.PointsTo(clt.srv.value, c))
    && (clt.fellBack || clt.gone ==> !clt.open)
  }

  ghost predicate Sound(w: Net) {
    && (forall s :: s in w.srvs ==> ServerSound(w, s))
    && (forall c :: c in w.clts ==> ClientSound(w, c))
  }

  lemma ConnectedSound(w: Net, c: ClientId, s: ServerConnId)
    requires Sound(w) && w.Has(c)
    ensures Sound(w.Connected(c, s))
  {
    assert ClientSound(w, c);
    var v := w.Connected(c, s);
    forall d | v.Has(d) ensures ClientSound(v, d) {
      assert ClientSound(w, d);
    }
    forall t | t in v.srvs ensures ServerSound(v, t) {
      assert t in w.srvs ==> ServerSound(w, t);
    }
  }

  lemma UnlinkSound(w: Net, s: ServerConnId)
    requires Sound(w)
    ensures Sound(w.Unlink(s))
  {
  }

  /** Overwriting leaves a sound net, whatever else changes about a client that is not unlinked. */
  lemma OverwriteSound(w: Net, c: ClientId, clt: Client)
    requires Sound(w) && w.Has(c) && (w.clts[c].open ==> w.clts[c].hop == Unlinked)
    requires clt.srv.None? && (clt.open ==> clt.hop != Unlinked && w.clts[c].open)
    requires clt.fellBack || clt.gone ==> !clt.open
    ensures Sound(w.Overwrite(c).SetClient(c, clt))
  {
    assert ClientSound(w, c);
  }

  lemma StepSound(w: Net, p: Piece)
    requires Sound(w)
    ensures Sound(Step(w, p))
  {
    match p {
      case Connect(c, s) => if w.Has(c) { ConnectedSound(w, c, s); }
      case HopBegin(c) => HopBeginSound(w, c);
      case HopClear(c) =>
        if ClearsHop(w, p, c) {
          assert ClientSound(w, c);
          OverwriteSound(w, c, w.Overwrite(c).clts[c].(hop := Cleared));
        }
      case HopEnd(c, conn) => HopEndSound(w, c, conn);
      case Drop(c) =>
        if w.Has(c) && !w.clts[c].open { OverwriteSound(w, c, w.Overwrite(c).clts[c].(fellBack := true)); }
      case DropUnlink(c) => if w.Has(c) && w.clts[c].srv.Some? { UnlinkSound(w, w.clts[c].srv.value); }
      case Teardown(c) => TeardownSound(w, c);
      case Fetch(s) => WorkSound(w, p);
      case Send(s) =>
      case Done(s) => WorkSound(w, p);
      case _ => PlainSound(w, p);
    }
  }

  lemma HopBeginSound(w: Net, c: ClientId)
    requires Sound(w)
    ensures Sound(Step(w, HopBegin(c)))
  {
    if BeginsHop(w, HopBegin(c), c) {
      UnlinkSound(w, w.clts[c].srv.value);
    }
  }

  lemma HopEndSound(w: Net, c: ClientId, conn: Option<ServerConnId>)
    requires Sound(w)
    ensures Sound(Step(w, HopEnd(c, conn)))
  {
    if w.Has(c) && w.clts[c].hop == Cleared {
      var v := w.SetClient(c, w.clts[c].(hop := Idle));
      assert Sound(v);
      if conn.Some? {
        ConnectedSound(v, c, conn.value);
      }
    }
  }

  lemma TeardownSound(w: Net, c: ClientId)
    requires Sound(w)
    ensures Sound(Step(w, Teardown(c)))
  {
    if w.Has(c) && !w.clts[c].open && !w.clts[c].gone {
      if w.clts[c].srv.Some? {
        UnlinkSound(w, w.clts[c].srv.value);
      }
      LeaveSound(w.UnlinkCurrent(c), c);
    }
  }

  /** A closed client's pointer may be cleared once the connection does not point back. */
  lemma LeaveSound(w: Net, c: ClientId)
    requires Sound(w) && w.Has(c) && !w.clts[c].open
    requires w.clts[c].srv.Some? ==> !w.PointsTo(w.clts[c].srv.value, c)
    ensures Sound(w.SetClient(c, w.clts[c].(srv := None, gone := true)))
  {
    assert ClientSound(w, c);
  }

  lemma PlainSound(w: Net, p: Piece)
    requires Sound(w) && (p.Accept? || p.KickClose? || p.KickUnlink? || p.Close?)
    ensures Sound(Step(w, p))
  {
  }

  lemma WorkSound(w: Net, p: Piece)
    requires Sound(w) && (p.Fetch? || p.Done?)
    ensures Sound(Step(w, p))
  {
  }

  lemma {:induction false} RunSound(pieces: seq<Piece>)
    ensures Sound(Run(pieces))
  {
    if pieces == [] {
    } else {
      RunSound(pieces[..|pieces| - 1]);
      StepSound(Run(pieces[..|pieces| - 1]), pieces[|pieces| - 1]);
    }
  }

  // -------------------------------------------------------------------------
  // Who delivers

  /**
   At every point of every interleaving, a connection from which an open client can be read is
   that client's current one; so there is at most one.
   */
  lemma ReadsAreCurrent(pieces: seq<Piece>, s: ServerConnId, c: ClientId)
    requires Run(pieces).PointsTo(s, c) && Run(pieces).Open(c)
    ensures Run(pieces).clts[c].srv == Some(s)
    ensures forall t: ServerConnId :: Run(pieces).PointsTo(t, c) ==> t == s
  {
    RunSound(pieces);
    var w := Run(pieces);
    assert ServerSound(w, s);
    forall t: ServerConnId | w.PointsTo(t, c) ensures t == s {
      assert ServerSound(w, t);
    }
  }

  /** A packet whose processing has read its client is sent to it while that client is open. */
  predicate Sends(w: Net, s: ServerConnId) {
    w.Works(s, Processing) && w.clts[w.srvs[s].owner].open
  }

  /** The piece at `k` starts the processing of a packet of the client's current connection. */
  ghost predicate ReadCurrent(pieces: seq<Piece>, k: nat, s: ServerConnId, c: ClientId) {
    && k < |pieces| && pieces[k] == Fetch(s)
    && var w := Run(pieces[..k]); w.Works(s, Waiting) && w.PointsTo(s, c) && w.Open(c) && w.clts[c].srv == Some(s)
  }

  ghost predicate BeginsAt(pieces: seq<Piece>, j: nat, c: ClientId) {
    j < |pieces| && BeginsHop(Run(pieces[..j]), pieces[j], c)
  }

  ghost predicate ClearsAt(pieces: seq<Piece>, j: nat, c: ClientId) {
    j < |pieces| && ClearsHop(Run(pieces[..j]), pieces[j], c)
  }

  /** What has become of the pointers since the packet was read. */
  ghost predicate StaleExactly(pieces: seq<Piece>, k: nat, s: ServerConnId, c: ClientId) {
    && (Run(pieces).PointsTo(s, c) <==> forall j: nat :: k < j ==> !BeginsAt(pieces, j, c))
    && (Run(pieces).Has(c) && Run(pieces).clts[c].srv == Some(s) <==>
          forall j: nat :: k < j ==> !ClearsAt(pieces, j, c))
  }

  /** What one piece does to the pointers of a connection that is about to send. */
  ghost predicate OneStepFrom(w: Net, p: Piece, s: ServerConnId)
    requires Sends(Step(w, p), s)
  {
    var v := Step(w, p);
    var c := v.srvs[s].owner;
    if w.Works(s, Processing) then
      && w.srvs[s].owner == c && Sends(w, s)
      && (v.PointsTo(s, c) <==> w.PointsTo(s, c) && !BeginsHop(w, p, c))
      && (v.clts[c].srv == Some(s) <==> w.clts[c].srv == Some(s) && !ClearsHop(w, p, c))
    else
      && p == Fetch(s) && w.Works(s, Waiting) && w.PointsTo(s, c) && w.Open(c) && w.clts[c].srv == Some(s)
      && v.PointsTo(s, c) && v.clts[c].srv == Some(s)
  }

  predicate OfServer(p: Piece) {
    p.Fetch? || p.Send? || p.Done? || p.KickClose? || p.KickUnlink?
  }

  predicate OfHop(p: Piece) {
    p.HopBegin? || p.HopClear? || p.HopEnd? || p.Connect?
  }

  lemma OneServerStep(w: Net, p: Piece, s: ServerConnId)
    requires Sound(w) && Sends(Step(w, p), s) && OfServer(p)
    ensures OneStepFrom(w, p, s)
  {
    assert s in w.srvs ==> ServerSound(w, s);
  }

  lemma OneHopStep(w: Net, p: Piece, s: ServerConnId)
    requires Sound(w) && Sends(Step(w, p), s) && OfHop(p)
    ensures OneStepFrom(w, p, s)
  {
    assert s in w.srvs ==> ServerSound(w, s);
  }

  lemma OneClientStep(w: Net, p: Piece, s: ServerConnId)
    requires Sound(w) && Sends(Step(w, p), s) && !OfServer(p) && !OfHop(p)
    ensures OneStepFrom(w, p, s)
  {
    assert s in w.srvs ==> ServerSound(w, s) && ClientSound(w, w.srvs[s].owner);
    if p.DropUnlink? && w.Has(p.c) {
      assert ClientSound(w, p.c);
    }
  }

  lemma OneStep(w: Net, p: Piece, s: ServerConnId)
    requires Sound(w) && Sends(Step(w, p), s)
    ensures OneStepFrom(w, p, s)
  {
    hide Sound, Step, OneStepFrom, Sends;
    if OfServer(p) {
      OneServerStep(w, p, s);
    } else if OfHop(p) {
      OneHopStep(w, p, s);
    } else {
      OneClientStep(w, p, s);
    }
  }

  lemma RunSnoc(init: seq<Piece>, p: Piece)
    ensures Run(init + [p]) == Step(Run(init), p)
  {
    assert (init + [p])[..|init|] == init;
  }

  /** The predicates about a point of a run do not depend on what follows. */
  lemma PointsKept(init: seq<Piece>, p: Piece, s: ServerConnId, c: ClientId)
    ensures forall k: nat :: k < |init| ==> (ReadCurrent(init + [p], k, s, c) <==> ReadCurrent(init, k, s, c))
    ensures forall j: nat :: j < |init| ==>
      (BeginsAt(init + [p], j, c) <==> BeginsAt(init, j, c)) && (ClearsAt(init + [p], j, c) <==> ClearsAt(init, j, c))
    ensures BeginsAt(init + [p], |init|, c) <==> BeginsHop(Run(init), p, c)
    ensures ClearsAt(init + [p], |init|, c) <==> ClearsHop(Run(init), p, c)
  {
    hide Run, BeginsHop, ClearsHop;
    var all := init + [p];
    assert forall j: nat :: j <= |init| ==> all[..j] == init[..j];
    assert forall j: nat :: j < |init| ==> all[j] == init[j];
    assert all[|init|] == p && init[..|init|] == init;
  }

  /**
   A packet that is sent to an open client comes from the connection that was the client's when its
   processing began. It is stale, the connection not being the client's any more, exactly if a hop
   has cleared the pointer since; and a hop has begun since exactly if the connection is unlinked.
   */
  lemma {:induction false} SentWasCurrent(pieces: seq<Piece>, s: ServerConnId) returns (k: nat)
    requires Sends(Run(pieces), s)
    ensures var c := Run(pieces).srvs[s].owner;
      ReadCurrent(pieces, k, s, c) && StaleExactly(pieces, k, s, c)
  {
    var init, p := pieces[..|pieces| - 1], pieces[|pieces| - 1];
    var w := Run(init);
    assert pieces == init + [p];
    RunSnoc(init, p);
    RunSound(init);
    OneStep(w, p, s);
    hide Run, Step, Sound, Sends, BeginsHop, ClearsHop;
    var c := Run(pieces).srvs[s].owner;
    PointsKept(init, p, s, c);
    if w.Works(s, Processing) {
      k := SentWasCurrent(init, s);
    } else {
      k := |init|;
      assert pieces[..k] == init;
    }
  }

  /** A run in which a packet is sent although the hop that began meanwhile has cleared the pointer. */
  lemma StaleSend()
    ensures var w := Run([Accept(0), Connect(0, 0), Fetch(0), HopBegin(0), HopClear(0)]);
      Sends(w, 0) && w.Open(0) && w.clts[0].srv.None? && !w.PointsTo(0, 0)
  {
    hide Run;
    var p1, p2, p3, p4 := Accept(0), Connect(0, 0), Fetch(0), HopBegin(0);
    RunSnoc([], p1);
    RunSnoc([p1], p2);
    RunSnoc([p1, p2], p3);
    RunSnoc([p1, p2, p3], p4);
    RunSnoc([p1, p2, p3, p4], HopClear(0));
    assert [] + [p1] == [p1] && [p1] + [p2] == [p1, p2] && [p1, p2] + [p3] == [p1, p2, p3];
    assert [p1, p2, p3] + [p4] == [p1, p2, p3, p4];
    assert [p1, p2, p3, p4] + [HopClear(0)] == [p1, p2, p3, p4, HopClear(0)];
    NothingRun();
  }

  lemma NothingRun()
    ensures Run([]) == START
  {
  }

  // -------------------------------------------------------------------------
  // Who keeps pointing at a client that is gone

  /** The piece overwrites the client's server pointer without unlinking. */
  predicate Overwrites(w: Net, p: Piece, c: ClientId) {
    ClearsHop(w, p, c) || (p == Drop(c) && w.Has(c) && !w.clts[c].open)
  }

  ghost predicate AbandonsAt(pieces: seq<Piece>, k: nat, s: ServerConnId, c: ClientId) {
    && k < |pieces|
    && var w := Run(pieces[..k]);
      w.Has(c) && w.clts[c].srv == Some(s) && w.PointsTo(s, c) && Overwrites(w, pieces[k], c)
  }

  lemma AbandonStep(w: Net, p: Piece, s: ServerConnId)
    requires Sound(w) && s in Step(w, p).srvs
    ensures var srv := Step(w, p).srvs[s];
      var c := srv.owner;
      if s in w.srvs then
        && w.srvs[s].owner == c
        && (srv.abandoned <==>
             w.srvs[s].abandoned || (w.Has(c) && w.clts[c].srv == Some(s) && w.PointsTo(s, c) && Overwrites(w, p, c)))
      else !srv.abandoned
  {
  }

  lemma AbandonsKept(init: seq<Piece>, p: Piece, s: ServerConnId, c: ClientId)
    ensures forall k: nat :: k < |init| ==> (AbandonsAt(init + [p], k, s, c) <==> AbandonsAt(init, k, s, c))
    ensures AbandonsAt(init + [p], |init|, s, c) <==>
      Run(init).Has(c) && Run(init).clts[c].srv == Some(s) && Run(init).PointsTo(s, c) && Overwrites(Run(init), p, c)
  {
    hide Run, Overwrites;
    var all := init + [p];
    assert forall j: nat :: j <= |init| ==> all[..j] == init[..j];
    assert forall j: nat :: j < |init| ==> all[j] == init[j];
    assert all[|init|] == p && init[..|init|] == init;
  }

  lemma {:induction false} NewIsKept(pieces: seq<Piece>, k: nat, s: ServerConnId, c: ClientId)
    requires AbandonsAt(pieces, k, s, c)
    ensures s in Run(pieces).srvs
  {
    var init, p := pieces[..|pieces| - 1], pieces[|pieces| - 1];
    assert pieces == init + [p];
    RunSnoc(init, p);
    AbandonsKept(init, p, s, c);
    hide Run;
    if k < |init| {
      NewIsKept(init, k, s, c);
    }
  }

  /** What the mark means: at some point of the run the pointer was overwritten while both pointers agreed. */
  lemma {:induction false} AbandonedExactly(pieces: seq<Piece>, s: ServerConnId)
    requires s in Run(pieces).srvs
    ensures Run(pieces).srvs[s].abandoned <==> exists k :: AbandonsAt(pieces, k, s, Run(pieces).srvs[s].owner)
  {
    if pieces == [] {
    } else {
      var init, p := pieces[..|pieces| - 1], pieces[|pieces| - 1];
      var w := Run(init);
      assert pieces == init + [p];
      RunSnoc(init, p);
      RunSound(init);
      AbandonStep(w, p, s);
      hide Run, Step, Sound, Overwrites;
      var c := Run(pieces).srvs[s].owner;
      AbandonsKept(init, p, s, c);
      if s in w.srvs {
        AbandonedExactly(init, s);
        if w.srvs[s].abandoned {
          var k :| AbandonsAt(init, k, s, c);
          assert AbandonsAt(pieces, k, s, c);
        } else if Run(pieces).srvs[s].abandoned {
          assert AbandonsAt(pieces, |init|, s, c);
        }
      } else {
        forall k: nat ensures !AbandonsAt(pieces, k, s, c) {
          if k < |init| && AbandonsAt(init, k, s, c) {
            NewIsKept(init, k, s, c);
          }
        }
      }
    }
  }

  /**
   Over every run, a connection still points at the client after its teardown exactly if it did before
   and the client's pointer had been overwritten at some point while the two pointed at each other.
   */
  lemma TeardownUnlinksExactly(pieces: seq<Piece>, c: ClientId)
    requires var w := Run(pieces); w.Has(c) && !w.clts[c].open && !w.clts[c].gone
    ensures forall s: ServerConnId :: Step(Run(pieces), Teardown(c)).PointsTo(s, c) <==>
      Run(pieces).PointsTo(s, c) && exists k :: AbandonsAt(pieces, k, s, c)
  {
    RunSound(pieces);
    var w := Run(pieces);
    hide Run;
    forall s: ServerConnId
      ensures Step(w, Teardown(c)).PointsTo(s, c) <==> w.PointsTo(s, c) && exists k :: AbandonsAt(pieces, k, s, c)
    {
      if w.PointsTo(s, c) {
        AbandonedExactly(pieces, s);
        assert ServerSound(w, s);
      }
    }
  }

  /** Such a link stays for good, unless the connection itself is passing on a kick. */
  lemma AbandonedStaysExactly(w: Net, p: Piece, s: ServerConnId, c: ClientId)
    requires Sound(w) && w.PointsTo(s, c) && w.srvs[s].abandoned
    ensures Step(w, p).PointsTo(s, c) <==> !(p == KickUnlink(s) && w.Works(s, Kicking))
  {
    assert ServerSound(w, s);
  }

  /**
   The end of a fallback that kicks, and the teardown that the closed client runs itself. If the
   teardown comes first, nothing points at the client afterwards. If the fallback clears `cc.srv`
   first, it does not find the connection to unlink any more, nor does the teardown: whatever pointed
   at the client still does.
   */
  lemma FallbackUnlinksExactly(pieces: seq<Piece>, c: ClientId)
    requires Run(pieces).Open(c)
    ensures var w := Run(pieces);
      forall s: ServerConnId ::
        && (Steps(w, [Close(c), Drop(c), DropUnlink(c), Teardown(c)]).PointsTo(s, c) <==> w.PointsTo(s, c))
        && (Steps(w, [Close(c), Drop(c), Teardown(c), DropUnlink(c)]).PointsTo(s, c) <==> w.PointsTo(s, c))
        && !Steps(w, [Close(c), Teardown(c), Drop(c), DropUnlink(c)]).PointsTo(s, c)
  {
    RunSound(pieces);
    var w := Run(pieces);
    hide Run, Steps, Step, Sound;
    FallbackFirst(w, c);
    TeardownFirst(w, c);
    FourSteps(w, Close(c), Drop(c), DropUnlink(c), Teardown(c));
    FourSteps(w, Close(c), Drop(c), Teardown(c), DropUnlink(c));
    FourSteps(w, Close(c), Teardown(c), Drop(c), DropUnlink(c));
  }

  lemma FallbackFirst(w: Net, c: ClientId)
    requires Sound(w) && w.Open(c)
    ensures var v := Step(Step(w, Close(c)), Drop(c));
      && v.Has(c) && v.clts[c].srv.None?
      && forall s: ServerConnId ::
           && (Step(Step(v, DropUnlink(c)), Teardown(c)).PointsTo(s, c) <==> w.PointsTo(s, c))
           && (Step(Step(v, Teardown(c)), DropUnlink(c)).PointsTo(s, c) <==> w.PointsTo(s, c))
  {
    hide Sound;
    var v := Step(Step(w, Close(c)), Drop(c));
    assert forall s: ServerConnId :: v.PointsTo(s, c) <==> w.PointsTo(s, c);
    assert Step(v, DropUnlink(c)) == v && Step(v, Teardown(c)).srvs == v.srvs;
  }

  lemma TeardownFirst(w: Net, c: ClientId)
    requires Sound(w) && w.Open(c)
    ensures var v := Step(Step(w, Close(c)), Teardown(c));
      forall s: ServerConnId :: !Step(Step(v, Drop(c)), DropUnlink(c)).PointsTo(s, c)
  {
    assert ClientSound(w, c);
    forall s: ServerConnId | w.PointsTo(s, c) ensures w.clts[c].srv == Some(s) {
      assert ServerSound(w, s);
    }
    hide Sound;
    var v := Step(Step(w, Close(c)), Teardown(c));
    assert v.clts[c].srv.None? && forall s: ServerConnId :: !v.PointsTo(s, c);
  }

  lemma FourSteps(w: Net, a: Piece, b: Piece, c: Piece, d: Piece)
    ensures Steps(w, [a, b, c, d]) == Step(Step(Step(Step(w, a), b), c), d)
  {
    hide Step;
    assert [a, b, c, d][..3] == [a, b, c] && [a, b, c][..2] == [a, b] && [a, b][..1] == [a] && [a][..0] == [];
    assert Steps(w, [a]) == Step(w, a);
    assert Steps(w, [a, b]) == Step(Step(w, a), b);
    assert Steps(w, [a, b, c]) == Step(Step(Step(w, a), b), c);
  }
}
