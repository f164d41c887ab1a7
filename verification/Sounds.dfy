/** When the tracked looping sounds are the client's (process.go: ToCltPlaySound, ToCltFadeSound, ToCltStopSound). */
module Sounds {
  import opened Session

  ghost predicate SoundsExact(s: State) {
    s.view.sounds == s.trk.sounds
  }

  /** The event fades no tracked sound to a gain other than zero. */
  ghost predicate FadesOut(s: State, e: Event) {
    e.Upstream? && e.cmd.FadeSound? && !e.cmd.silent ==> e.cmd.id !in s.trk.sounds
  }

  /** One packet keeps the tracked sounds exact unless it fades one of them to a gain other than zero. */
  lemma SoundsStepExactly(s: State, cmd: Cmd, initClears: bool)
    requires SoundsExact(s)
    ensures SoundsExact(Process(s, cmd, initClears)) <==> FadesOut(s, Upstream(cmd))
  {
    hide Replay, AddAll, WithoutFirst;
    match cmd {
      case AORmAdd(remove, add) => PacketView(s, remove, add, initClears);
      case UpdatePlayerList(kind, players) =>
        ReplayOne(s.view, UpdatePlayerList(PassedKind(s.clt, kind), players), initClears);
      case AOMsgs(ids) => ReplayOne(s.view, AOMsgs(AllSwapped(s.clt, ids)), initClears);
      case _ => ReplayOne(s.view, cmd, initClears);
    }
  }

  /** A hop in time leaves no sound: the reset stops the tracked ones, which are all. */
  lemma SoundsHop(s: State)
    requires SoundsExact(s) && Shadow(s) && (s.clt.playerCAO != 0 || HoldsNothing(s))
    ensures SoundsExact(AfterHop(s)) && FadesOut(s, Hop)
  {
  }

  ghost predicate SoundsThroughout(name: string, events: seq<Event>, initClears: bool) {
    forall k :: 0 <= k <= |events| ==> SoundsExact(Run(name, events[..k], initClears))
  }

  ghost predicate FadesOutThroughout(name: string, events: seq<Event>, initClears: bool) {
    forall k :: 0 <= k < |events| ==> FadesOut(Run(name, events[..k], initClears), events[k])
  }

  lemma ThroughoutSnoc(name: string, init: seq<Event>, last: Event, initClears: bool)
    ensures SoundsThroughout(name, init + [last], initClears) <==>
      SoundsThroughout(name, init, initClears) && SoundsExact(Run(name, init + [last], initClears))
    ensures FadesOutThroughout(name, init + [last], initClears) <==>
      FadesOutThroughout(name, init, initClears) && FadesOut(Run(name, init, initClears), last)
    ensures SoundsThroughout(name, init, initClears) ==> SoundsExact(Run(name, init, initClears))
  {
    hide Run, SoundsExact, FadesOut;
    var events := init + [last];
    assert forall k :: 0 <= k <= |init| ==> events[..k] == init[..k];
    assert forall k :: 0 <= k < |init| ==> events[k] == init[k];
    assert init[..|init|] == init && events[..|events|] == events && events[|init|] == last;
  }

  /**
   Over every run with hops in time the tracked sounds are the client's throughout exactly if no
   packet fades a sound that is tracked at that time to a gain other than zero.
   */
  lemma {:induction false} SoundsRunExactly(name: string, events: seq<Event>, initClears: bool)
    requires HopsInTime(name, events, initClears)
    ensures SoundsThroughout(name, events, initClears) <==> FadesOutThroughout(name, events, initClears)
  {
    if events == [] {
    } else {
      hide SoundsThroughout, FadesOutThroughout, Run, Shadow, SoundsExact, FadesOut, HoldsNothing;
      var n := |events| - 1;
      var init, last := events[..n], events[n];
      assert events == init + [last];
      HopsInTimeSnoc(name, init, last, initClears);
      SoundsRunExactly(name, init, initClears);
      RunShadow(name, init, initClears);
      RunSnoc(name, init, last, initClears);
      ThroughoutSnoc(name, init, last, initClears);
      var s := Run(name, init, initClears);
      if SoundsExact(s) {
        match last {
          case Upstream(cmd) => SoundsStepExactly(s, cmd, initClears);
          case Hop =>
            assert events[n] == Hop && events[..n] == init;
            SoundsHop(s);
        }
      }
    }
  }

  /** A looping sound that is turned down goes on untracked, and the reset of a hop does not stop it. */
  lemma SoundLost(s: State, id: Id, initClears: bool)
    requires s.clt.playerCAO != 0
    ensures var t := Process(Process(s, PlaySound(id, true), initClears), FadeSound(id, false), initClears);
      id in t.view.sounds && id !in t.trk.sounds && id in AfterHop(t).view.sounds
  {
    hide Replay;
    var u := Process(s, PlaySound(id, true), initClears);
    ReplayOne(s.view, PlaySound(id, true), initClears);
    ReplayOne(u.view, FadeSound(id, false), initClears);
  }

  lemma SoundLostRun(name: string, id: Id, initClears: bool)
    ensures var s := Run(name, [Upstream(PlaySound(id, true)), Upstream(FadeSound(id, false))], initClears);
      s.view.sounds == {id} && s.trk.sounds == {}
  {
    hide Replay, Run;
    var e1, e2 := Upstream(PlaySound(id, true)), Upstream(FadeSound(id, false));
    assert [] + [e1] == [e1] && [e1] + [e2] == [e1, e2];
    FreshRun(name, initClears);
    RunSnoc(name, [], e1, initClears);
    RunSnoc(name, [e1], e2, initClears);
    ReplayOne(NOTHING, e1.cmd, initClears);
    ReplayOne(Run(name, [e1], initClears).view, e2.cmd, initClears);
  }

  /** The difference consists of the sounds that were faded so and neither stopped nor played again. */
  lemma SoundsDifference(name: string, events: seq<Event>, initClears: bool)
    requires HopsInTime(name, events, initClears)
    ensures var s := Run(name, events, initClears);
      s.view.sounds == s.trk.sounds + s.faded && s.trk.sounds !! s.faded
  {
    RunShadow(name, events, initClears);
  }

  lemma {:induction false} SilentFadesOnly(name: string, events: seq<Event>, initClears: bool)
    requires forall e :: e in events && e.Upstream? && e.cmd.FadeSound? ==> e.cmd.silent
    ensures Run(name, events, initClears).faded == {}
  {
    if events == [] {
    } else {
      SilentFadesOnly(name, events[..|events| - 1], initClears);
    }
  }
}
