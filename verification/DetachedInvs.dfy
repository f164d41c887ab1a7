/** When the tracked detached inventories are the client's (process.go: ToCltDetachedInv; hop.go). */
module DetachedInvs {
  import opened Session

  ghost predicate DetachedExact(s: State) {
    s.view.detached == Elems(s.trk.detached)
  }

  /** Names that are tracked more than once are still tracked after one was taken out. */
  lemma {:induction false} WithoutFirstKeeps(names: seq<string>, name: string)
    ensures name in WithoutFirst(names, name) <==> multiset(names)[name] > 1
  {
    if names == [] {
    } else {
      assert names == [names[0]] + names[1..];
      if names[0] != name {
        WithoutFirstKeeps(names[1..], name);
      }
    }
  }

  /** The packet drops no inventory that is tracked more than once. */
  ghost predicate DropsLast(s: State, e: Event) {
    e.Upstream? && e.cmd.DetachedInv? && !e.cmd.keep ==> multiset(s.trk.detached)[e.cmd.name] <= 1
  }

  /** One packet keeps the tracked inventories exact unless it drops one that is tracked twice. */
  lemma DetachedStepExactly(s: State, cmd: Cmd, initClears: bool)
    requires Shadow(s) && DetachedExact(s)
    ensures DetachedExact(Process(s, cmd, initClears)) <==> DropsLast(s, Upstream(cmd))
  {
    match cmd {
      case DetachedInv(name, keep) =>
        hide Replay;
        ReplayOne(s.view, cmd, initClears);
        WithoutFirstElems(s.trk.detached, name);
        WithoutFirstKeeps(s.trk.detached, name);
        if keep {
          assert Elems(s.trk.detached + [name]) == Elems(s.trk.detached) + {name};
        } else {
          assert name in Elems(WithoutFirst(s.trk.detached, name)) <==> name in WithoutFirst(s.trk.detached, name);
        }
      case _ => OtherDetached(s, cmd, initClears);
    }
  }

  lemma OtherDetached(s: State, cmd: Cmd, initClears: bool)
    requires !cmd.DetachedInv?
    ensures var t := Process(s, cmd, initClears);
      t.view.detached == s.view.detached && t.trk.detached == s.trk.detached
  {
    hide Replay, AddAll;
    match cmd {
      case AORmAdd(remove, add) => PacketView(s, remove, add, initClears);
      case UpdatePlayerList(kind, players) =>
        ReplayOne(s.view, UpdatePlayerList(PassedKind(s.clt, kind), players), initClears);
      case AOMsgs(ids) => ReplayOne(s.view, AOMsgs(AllSwapped(s.clt, ids)), initClears);
      case _ => ReplayOne(s.view, cmd, initClears);
    }
  }

  ghost predicate DetachedThroughout(name: string, events: seq<Event>, initClears: bool) {
    forall k :: 0 <= k <= |events| ==> DetachedExact(Run(name, events[..k], initClears))
  }

  ghost predicate DropsLastThroughout(name: string, events: seq<Event>, initClears: bool) {
    forall k :: 0 <= k < |events| ==> DropsLast(Run(name, events[..k], initClears), events[k])
  }

  lemma ThroughoutSnoc(name: string, init: seq<Event>, last: Event, initClears: bool)
    ensures DetachedThroughout(name, init + [last], initClears) <==>
      DetachedThroughout(name, init, initClears) && DetachedExact(Run(name, init + [last], initClears))
    ensures DropsLastThroughout(name, init + [last], initClears) <==>
      DropsLastThroughout(name, init, initClears) && DropsLast(Run(name, init, initClears), last)
  {
    hide Run, DetachedExact, DropsLast;
    var events := init + [last];
    assert forall k :: 0 <= k <= |init| ==> events[..k] == init[..k];
    assert forall k :: 0 <= k < |init| ==> events[k] == init[k];
    assert init[..|init|] == init && events[..|events|] == events && events[|init|] == last;
  }

  lemma DetachedHop(s: State)
    requires Shadow(s) && (s.clt.playerCAO != 0 || HoldsNothing(s))
    ensures DetachedExact(AfterHop(s))
  {
    HopShadowExactly(s);
    assert Elems(UNTRACKED.detached) == {};
  }

  /**
   Over every run with hops in time the tracked inventories are the client's throughout exactly if
   no packet drops one that is tracked more than once at that time.
   */
  lemma {:induction false} DetachedRunExactly(name: string, events: seq<Event>, initClears: bool)
    requires HopsInTime(name, events, initClears)
    ensures DetachedThroughout(name, events, initClears) <==> DropsLastThroughout(name, events, initClears)
  {
    if events == [] {
      assert Elems(UNTRACKED.detached) == {};
    } else {
      hide DetachedThroughout, DropsLastThroughout, Run, Shadow, DetachedExact, DropsLast;
      var n := |events| - 1;
      var init, last := events[..n], events[n];
      assert events == init + [last];
      HopsInTimeSnoc(name, init, last, initClears);
      DetachedRunExactly(name, init, initClears);
      RunShadow(name, init, initClears);
      RunSnoc(name, init, last, initClears);
      ThroughoutSnoc(name, init, last, initClears);
      NowExact(name, init, initClears);
      var s := Run(name, init, initClears);
      match last {
        case Upstream(cmd) => if DetachedExact(s) { DetachedStepExactly(s, cmd, initClears); }
        case Hop =>
          assert events[n] == Hop && events[..n] == init;
          DetachedHop(s);
          HopDropsNothing(s);
      }
    }
  }

  lemma NowExact(name: string, events: seq<Event>, initClears: bool)
    ensures DetachedThroughout(name, events, initClears) ==> DetachedExact(Run(name, events, initClears))
  {
    assert events[..|events|] == events;
  }

  lemma HopDropsNothing(s: State)
    ensures DropsLast(s, Hop)
  {
  }

  /** Announced twice and dropped once, an inventory is still tracked although the client has dropped it. */
  lemma DetachedTwice(name: string, inv: string, initClears: bool)
    ensures var s1 := Process(Fresh(name), DetachedInv(inv, true), initClears);
      var s2 := Process(s1, DetachedInv(inv, true), initClears);
      var s3 := Process(s2, DetachedInv(inv, false), initClears);
      s3.view.detached == {} && Elems(s3.trk.detached) == {inv}
  {
    hide Replay;
    var s1 := Process(Fresh(name), DetachedInv(inv, true), initClears);
    ReplayOne(NOTHING, DetachedInv(inv, true), initClears);
    assert s1.trk.detached == [inv] && s1.view.detached == {inv};
    var s2 := Process(s1, DetachedInv(inv, true), initClears);
    ReplayOne(s1.view, DetachedInv(inv, true), initClears);
    assert s2.trk.detached == [inv, inv];
    ReplayOne(s2.view, DetachedInv(inv, false), initClears);
    assert WithoutFirst([inv, inv], inv) == [inv];
  }
}
