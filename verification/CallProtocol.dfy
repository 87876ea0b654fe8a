/** Every interleaving of accepting a call, relays opening, and the call ending. */
module CallProtocol {
  import opened CallStates
  import opened CallManagement

  type Id = nat

  /** Where a thread running AcceptCall or HandleCallAccept has got to.  Between these
      points it only sends stanzas; its look at the relay is a step of its own for the
      local accept, and part of the locked step for the remote one. */
  datatype Phase = Fresh | Accepted | LookedOpen | LookedClosed | Captured | Finished

  /** A relay opens first and calls back later; it may close at any time after. */
  datatype Relay = Relay(open: bool, calledBack: bool)

  datatype World = World(core: Core, relays: map<Id, Relay>, threads: map<Id, Phase>, cleanups: nat, relayCleanups: nat,
                         ended: bool, activations: nat)

  datatype Event =
    | AcceptCallBegin(t: Id)
    | AcceptCallLook(t: Id)
    | HandleAcceptCapture(t: Id)
    | HandleAcceptMark(t: Id)
    | Finish(t: Id)
    | OfferSentApplied
    | RelayOpen(r: Id)
    | RelayCallback(r: Id)
    | RelayClose(r: Id)
    | EndCall(reason: string)
    | PeerTerminates(reason: string)
    | RejectCall(reason: string)
    | OfferAckError(error: string)
    | CleanupMedia
    | RelayCleanup

  function PhaseOf(w: World, t: Id): Phase {
    if t in w.threads then w.threads[t] else Fresh
  }

  predicate HasConnection(w: World) {
    exists r :: r in w.relays && w.relays[r].open
  }

  function Moved(w: World, t: Id, p: Phase): World {
    w.(threads := w.threads[t := p])
  }

  /** The new core; Active entered from elsewhere counts as an activation. */
  function WithCore(w: World, c: Core): World {
    w.(core := c, activations := w.activations + if c.data.state == Active && w.core.data.state != Active then 1 else 0)
  }

  function Looked(w: World): Phase {
    if HasConnection(w) then LookedOpen else LookedClosed
  }

  /** The end events that go on to tear the media down: first what is under the lock, then, as a step
      of its own, the relays. */
  function Ending(w: World, c: Core): World {
    if w.core.current then WithCore(w, c).(ended := true, cleanups := w.cleanups + 1) else w
  }

  function Step(w: World, e: Event, now: nat): World {
    match e
    case AcceptCallBegin(t) =>
      if PhaseOf(w, t) != Fresh then w
      else if CanBegin(w.core) then Moved(WithCore(w, AcceptBegin(w.core, now)), t, Accepted)
      else Moved(w, t, Finished)
    case AcceptCallLook(t) =>
      if PhaseOf(w, t) == Accepted then Moved(w, t, Looked(w)) else w
    case HandleAcceptCapture(t) =>
      if PhaseOf(w, t) != Fresh then w else Moved(w, t, if w.core.current then Captured else Finished)
    case HandleAcceptMark(t) =>
      if PhaseOf(w, t) == Captured then Moved(WithCore(w, RemoteMark(w.core, now)), t, Looked(w)) else w
    case Finish(t) =>
      if PhaseOf(w, t) == LookedOpen then Moved(WithCore(w, Activate(w.core, now)), t, Finished)
      else if PhaseOf(w, t) == LookedClosed then Moved(w, t, Finished)
      else w
    case OfferSentApplied => WithCore(w, OfferSentStep(w.core, now))
    case RelayOpen(r) => if r in w.relays then w else w.(relays := w.relays[r := Relay(true, false)])
    case RelayCallback(r) =>
      if r in w.relays && !w.relays[r].calledBack then
        WithCore(w.(relays := w.relays[r := w.relays[r].(calledBack := true)]), RelayConnected(w.core, now))
      else w
    case RelayClose(r) => if r in w.relays then w.(relays := w.relays[r := w.relays[r].(open := false)]) else w
    case EndCall(reason) => if w.core.data.state == Ended then w else Ending(w, End(w.core, reason, now))
    case PeerTerminates(reason) => Ending(w, PeerTerminate(w.core, reason, now))
    case RejectCall(reason) => Ending(w, Reject(w.core, reason, now))
    case OfferAckError(error) =>
      if w.core.current then WithCore(w, AckError(w.core, error, now)).(ended := true) else w
    case CleanupMedia =>
      if w.cleanups == 0 then w
      else w.(core := CleanedUp(w.core), cleanups := w.cleanups - 1, relayCleanups := w.relayCleanups + 1)
    case RelayCleanup =>
      if w.relayCleanups == 0 then w
      else w.(relayCleanups := w.relayCleanups - 1, relays := map r | r in w.relays :: w.relays[r].(open := false))
  }

  datatype Timed = At(e: Event, now: nat)

  function Run(w: World, es: seq<Timed>): World {
    if es == [] then w
    else
      var n := |es| - 1;
      Step(Run(w, es[..n]), es[n].e, es[n].now)
  }

  /** A call that rings here, or one that is about to be offered; with or without a codec. */
  function Initially(incoming: bool, video: bool, codec: bool): World {
    World(Core(Start(if incoming then IncomingRinging else Initiating, video), video, true, codec, false),
          map[], map[], 0, 0, false, 0)
  }

  /** A thread that has accepted, or seen a relay open, and has not acted on it yet. */
  ghost predicate Settling(w: World) {
    exists t :: PhaseOf(w, t) == Accepted || PhaseOf(w, t) == LookedOpen
  }

  ghost predicate Waiting(w: World) {
    forall r :: r in w.relays && w.relays[r].open ==> !w.relays[r].calledBack
  }

  /** A call is activated at most once, and only when it has been accepted. */
  ghost predicate AtMostOnce(w: World) {
    && w.activations <= 1
    && w.core.data.state != OnHold
    && (w.core.data.state in {Initiating, Ringing, IncomingRinging}
      ==> w.activations == 0 && w.core.data.acceptedAt.None?)
    && (w.core.data.state == Connecting ==> w.activations == 0 && w.core.data.acceptedAt.Some?)
    && (w.core.data.state == Active ==> w.activations == 1)
    && (w.activations == 1 ==> w.core.data.acceptedAt.Some?)
  }

  /** Media belongs to a live call: an active one with a codec is being sent. */
  ghost predicate MediaRuns(w: World) {
    && (w.core.keepalive ==> w.core.codec)
    && (w.ended ==> !w.core.current || w.core.data.state == Ended)
    && (!w.ended ==> w.core.current && w.core.data.state != Ended && w.cleanups == w.relayCleanups == 0)
    && (!w.ended && w.core.data.state == Active && w.core.codec ==> w.core.keepalive)
  }

  ghost predicate Inv(w: World) {
    && AtMostOnce(w) && MediaRuns(w)
    && (!w.ended && w.core.data.state == Connecting ==> Settling(w) || Waiting(w))
  }

  /** Events of the accepting threads, of the relays, and the rest, which end the call or tidy up. */
  ghost predicate ByThread(e: Event) {
    e.AcceptCallBegin? || e.AcceptCallLook? || e.HandleAcceptCapture? || e.HandleAcceptMark? || e.Finish?
  }

  ghost predicate ByRelay(e: Event) {
    e.RelayOpen? || e.RelayCallback? || e.RelayClose? || e.OfferSentApplied?
  }

  lemma ThreadKeepsOnce(w: World, e: Event, now: nat)
    requires AtMostOnce(w) && ByThread(e)
    ensures AtMostOnce(Step(w, e, now))
  {
  }

  lemma RelayKeepsOnce(w: World, e: Event, now: nat)
    requires AtMostOnce(w) && ByRelay(e)
    ensures AtMostOnce(Step(w, e, now))
  {
  }

  lemma EndKeepsOnce(w: World, e: Event, now: nat)
    requires AtMostOnce(w) && !ByThread(e) && !ByRelay(e)
    ensures AtMostOnce(Step(w, e, now))
  {
  }

  lemma ThreadKeepsMedia(w: World, e: Event, now: nat)
    requires MediaRuns(w) && w.core.data.state != OnHold && ByThread(e)
    ensures MediaRuns(Step(w, e, now))
  {
  }

  lemma RelayKeepsMedia(w: World, e: Event, now: nat)
    requires MediaRuns(w) && w.core.data.state != OnHold && ByRelay(e)
    ensures MediaRuns(Step(w, e, now))
  {
  }

  lemma EndKeepsMedia(w: World, e: Event, now: nat)
    requires MediaRuns(w) && w.core.data.state != OnHold && !ByThread(e) && !ByRelay(e)
    ensures MediaRuns(Step(w, e, now))
  {
  }

  /** While the call connects, either someone is about to activate it or every open
      relay still has its callback to come. */
  ghost predicate KeepsWaiting(v: World) {
    !v.ended && v.core.data.state == Connecting ==> Settling(v) || Waiting(v)
  }

  lemma ThreadKeepsWaiting(w: World, e: Event, now: nat, t: Id)
    requires Inv(w) && ByThread(e) && e.t == t
    ensures KeepsWaiting(Step(w, e, now))
  {
    var v := Step(w, e, now);
    forall u | u != t ensures PhaseOf(v, u) == PhaseOf(w, u) {
    }
    ThreadMoved(w, v, t);
    hide Settling;
  }

  lemma RelayKeepsWaiting(w: World, e: Event, now: nat)
    requires Inv(w) && ByRelay(e)
    ensures KeepsWaiting(Step(w, e, now))
  {
    SameThreads(w, Step(w, e, now));
    hide Settling;
  }

  lemma EndKeepsWaiting(w: World, e: Event, now: nat)
    requires Inv(w) && !ByThread(e) && !ByRelay(e)
    ensures KeepsWaiting(Step(w, e, now))
  {
    SameThreads(w, Step(w, e, now));
    hide Settling;
  }

  lemma SameThreads(w: World, v: World)
    requires w.threads == v.threads
    ensures Settling(w) ==> Settling(v)
  {
    if Settling(w) {
      var t :| PhaseOf(w, t) == Accepted || PhaseOf(w, t) == LookedOpen;
      assert PhaseOf(v, t) == PhaseOf(w, t);
    }
  }

  /** Another thread that was settling still is. */
  lemma ThreadMoved(w: World, v: World, t: Id)
    requires forall u :: u != t ==> PhaseOf(v, u) == PhaseOf(w, u)
    ensures Settling(w) && PhaseOf(w, t) != Accepted && PhaseOf(w, t) != LookedOpen ==> Settling(v)
    ensures PhaseOf(v, t) == Accepted || PhaseOf(v, t) == LookedOpen ==> Settling(v)
  {
    if Settling(w) && PhaseOf(w, t) != Accepted && PhaseOf(w, t) != LookedOpen {
      var u :| PhaseOf(w, u) == Accepted || PhaseOf(w, u) == LookedOpen;
      assert PhaseOf(v, u) == PhaseOf(w, u);
    }
  }

  lemma InitiallyInv(incoming: bool, video: bool, codec: bool)
    ensures Inv(Initially(incoming, video, codec))
  {
  }

  /** Over every interleaving. */
  lemma {:induction false} RunInv(w: World, es: seq<Timed>)
    requires Inv(w)
    ensures Inv(Run(w, es))
    decreases |es|
  {
    hide Step, AtMostOnce, MediaRuns, Settling, Waiting;
    if es != [] {
      var n := |es| - 1;
      RunInv(w, es[..n]);
      StepInv(Run(w, es[..n]), es[n].e, es[n].now);
    }
  }

  lemma StepInv(w: World, e: Event, now: nat)
    requires Inv(w)
    ensures Inv(Step(w, e, now))
  {
    NotHeld(w);
    hide Step, AtMostOnce, MediaRuns, Settling, Waiting;
    if ByThread(e) {
      ThreadKeepsOnce(w, e, now);
      ThreadKeepsMedia(w, e, now);
      ThreadKeepsWaiting(w, e, now, e.t);
    } else if ByRelay(e) {
      RelayKeepsOnce(w, e, now);
      RelayKeepsMedia(w, e, now);
      RelayKeepsWaiting(w, e, now);
    } else {
      EndKeepsOnce(w, e, now);
      EndKeepsMedia(w, e, now);
      EndKeepsWaiting(w, e, now);
    }
  }

  lemma NotHeld(w: World)
    requires AtMostOnce(w)
    ensures w.core.data.state != OnHold
  {
  }

  // ---- what it comes to ----

  /** No thread has accepted and not yet finished, and no open relay still owes its callback. */
  ghost predicate Settled(w: World) {
    !Settling(w) && exists r :: r in w.relays && w.relays[r].open && w.relays[r].calledBack
  }

  /** Whatever the order in which accepting and relay opening happened: once both are
      done, a relay is still open, and nothing has ended the call, it is active, and its
      audio is being sent whenever there is a codec. */
  lemma AcceptedAndConnectedIsActive(incoming: bool, video: bool, codec: bool, es: seq<Timed>)
    requires var w := Run(Initially(incoming, video, codec), es);
             !w.ended && w.core.data.acceptedAt.Some? && Settled(w)
    ensures var w := Run(Initially(incoming, video, codec), es);
            w.core.data.state == Active && (w.core.codec ==> w.core.keepalive)
  {
    hide Run, Settling;
    var w := Run(Initially(incoming, video, codec), es);
    InitiallyInv(incoming, video, codec);
    RunInv(Initially(incoming, video, codec), es);
    var r :| r in w.relays && w.relays[r].open && w.relays[r].calledBack;
    assert !Waiting(w);
  }

  /** Active is entered at most once in any run, and only by a call that was accepted. */
  lemma ActiveOnce(incoming: bool, video: bool, codec: bool, es: seq<Timed>)
    ensures var w := Run(Initially(incoming, video, codec), es);
            w.activations <= 1 && (w.activations == 1 ==> w.core.data.acceptedAt.Some?)
  {
    hide Run;
    InitiallyInv(incoming, video, codec);
    RunInv(Initially(incoming, video, codec), es);
  }

  lemma EndedStays(w: World, e: Event, now: nat)
    requires w.core.data.state == Ended
    ensures Step(w, e, now).core.data == w.core.data
  {
  }

  /** After the call has ended no event, in any order, changes its state, its reason or
      its times. */
  lemma {:induction false} EndedAbsorbs(w: World, es: seq<Timed>)
    requires w.core.data.state == Ended
    ensures Run(w, es).core.data == w.core.data
    decreases |es|
  {
    hide Step;
    if es != [] {
      var n := |es| - 1;
      EndedAbsorbs(w, es[..n]);
      EndedStays(Run(w, es[..n]), es[n].e, es[n].now);
    }
  }

  lemma CleanStays(w: World, e: Event, now: nat)
    requires !w.core.codec && !w.core.keepalive
    ensures !Step(w, e, now).core.codec && !Step(w, e, now).core.keepalive
  {
  }

  /** The codec, once gone, stays gone, and with it the sender. */
  lemma {:induction false} CleanedForGood(w: World, es: seq<Timed>)
    requires !w.core.codec && !w.core.keepalive
    ensures !Run(w, es).core.codec && !Run(w, es).core.keepalive
    decreases |es|
  {
    hide Step;
    if es != [] {
      var n := |es| - 1;
      CleanedForGood(w, es[..n]);
      CleanStays(Run(w, es[..n]), es[n].e, es[n].now);
    }
  }

  /** The peer's accept takes effect exactly when it finds the call ringing there. */
  lemma RemoteAcceptTakes(w: World, t: Id, now: nat)
    requires PhaseOf(w, t) == Captured && Inv(w) && w.core.data.acceptedAt.None?
    ensures Step(w, HandleAcceptMark(t), now).core.data.acceptedAt.Some? <==> w.core.data.state == Ringing
  {
  }

  /** An accept that overtakes the acknowledgement of the offer is lost: the call rings
      on with a relay open. */
  lemma EarlyAcceptIsLost(video: bool, codec: bool)
    ensures var w := Run(Initially(false, video, codec), EarlyAccept());
            w.core.data.state == Ringing && w.core.data.acceptedAt.None? && !w.ended && Settled(w)
  {
    var w0 := Initially(false, video, codec);
    var w3 := Step(Step(Step(w0, HandleAcceptCapture(0), 1), HandleAcceptMark(0), 2), Finish(0), 3);
    assert w3.core == w0.core && w3.relays == map[] && w3.threads == map[0 := Finished];
    var w6 := Step(Step(Step(w3, OfferSentApplied, 4), RelayOpen(7), 5), RelayCallback(7), 6);
    RingingOn(w3, w6);
    SixSteps(w0, At(HandleAcceptCapture(0), 1), At(HandleAcceptMark(0), 2), At(Finish(0), 3),
             At(OfferSentApplied, 4), At(RelayOpen(7), 5), At(RelayCallback(7), 6));
  }

  function EarlyAccept(): seq<Timed> {
    [At(HandleAcceptCapture(0), 1), At(HandleAcceptMark(0), 2), At(Finish(0), 3),
     At(OfferSentApplied, 4), At(RelayOpen(7), 5), At(RelayCallback(7), 6)]
  }

  lemma RingingOn(w3: World, w6: World)
    requires w3.core.data.state == Initiating && w3.core.current && w3.relays == map[]
            && w3.threads == map[0 := Finished]
    requires w3.core.data.acceptedAt.None? && !w3.ended
    requires w6 == Step(Step(Step(w3, OfferSentApplied, 4), RelayOpen(7), 5), RelayCallback(7), 6)
    ensures w6.core.data.state == Ringing && w6.core.data.acceptedAt.None? && !w6.ended && Settled(w6)
  {
    var w5 := Step(Step(w3, OfferSentApplied, 4), RelayOpen(7), 5);
    assert w5.core.data.state == Ringing && w5.threads == w3.threads;
    assert w6.relays == map[7 := Relay(true, true)] && w6.threads == w3.threads;
    assert 7 in w6.relays && w6.relays[7].open && w6.relays[7].calledBack;
    forall t ensures PhaseOf(w6, t) == Fresh || PhaseOf(w6, t) == Finished {
    }
  }

  /** Rejecting ends a current call exactly when it is ringing here.  After accepting it, a
      rejection is refused by the state, and yet the call is dropped and its media torn down. */
  lemma RejectEnds(w: World, reason: string, now: nat)
    requires w.core.current && w.core.data.state != Ended
    ensures var v := Step(w, RejectCall(reason), now);
            && (v.core.data.state == Ended <==> w.core.data.state == IncomingRinging)
            && (w.core.data.state != IncomingRinging ==> v.core.data == w.core.data)
            && !v.core.current && v.ended && v.cleanups == w.cleanups + 1
  {
  }

  /** Such a call: accepted, rejected, and never ended. */
  lemma RejectAfterAccept(video: bool, codec: bool)
    ensures var es := [At(AcceptCallBegin(0), 1), At(RejectCall("busy"), 2)];
            var w := Run(Initially(true, video, codec), es);
            w.core.data.state == Connecting && !w.core.current && w.cleanups == 1
  {
    var w0 := Initially(true, video, codec);
    var a, b := At(AcceptCallBegin(0), 1), At(RejectCall("busy"), 2);
    RunSnoc(w0, [], a);
    RunSnoc(w0, [a], b);
    assert [] + [a] == [a] && [a] + [b] == [a, b];
    assert Run(w0, []) == w0;
    hide Run;
    assert Step(w0, a.e, 1).core.data.state == Connecting;
    RejectEnds(Step(w0, a.e, 1), "busy", 2);
  }

  lemma RunSnoc(w: World, es: seq<Timed>, e: Timed)
    ensures Run(w, es + [e]) == Step(Run(w, es), e.e, e.now)
  {
    assert (es + [e])[..|es|] == es;
  }

  lemma SixSteps(w: World, a: Timed, b: Timed, c: Timed, d: Timed, e: Timed, f: Timed)
    ensures Run(w, [a, b, c, d, e, f])
         == Step(Step(Step(Step(Step(Step(w, a.e, a.now), b.e, b.now), c.e, c.now), d.e, d.now),
                      e.e, e.now), f.e, f.now)
  {
    hide Step;
    RunSnoc(w, [], a);
    RunSnoc(w, [a], b);
    RunSnoc(w, [a, b], c);
    RunSnoc(w, [a, b, c], d);
    RunSnoc(w, [a, b, c, d], e);
    RunSnoc(w, [a, b, c, d, e], f);
    assert [] + [a] == [a] && [a] + [b] == [a, b] && [a, b] + [c] == [a, b, c];
    assert [a, b, c] + [d] == [a, b, c, d] && [a, b, c, d] + [e] == [a, b, c, d, e];
    assert [a, b, c, d, e] + [f] == [a, b, c, d, e, f];
  }
}
