/** The life of one call: its states and the transitions between them. */
module CallStates {
  import opened Basics
  datatype CallState = Initiating | Ringing | IncomingRinging | Connecting | Active | OnHold | Ended

  datatype StateData = StateData(
    state: CallState, connectedAt: Option<nat>, acceptedAt: Option<nat>, endedAt: Option<nat>,
    audioMuted: bool, videoOff: bool, silenced: bool, endReason: string, durationSecs: int)

  datatype Transition =
    | OfferSent
    | OfferReceived(silenced: bool)
    | RemoteAccepted
    | LocalAccepted
    | RemoteRejected(reason: string)
    | LocalRejected(reason: string)
    | MediaConnected
    | Terminated(reason: string)
    | Hold
    | Resume
    | AudioMuteChanged(muted: bool)
    | VideoStateChanged(off: bool)
    | Other(name: string)

  /** The states each transition is allowed in. */
  predicate Allowed(s: CallState, t: Transition) {
    match t
    case OfferSent | OfferReceived(_) => s == Initiating
    case RemoteAccepted | RemoteRejected(_) => s == Ringing
    case LocalAccepted | LocalRejected(_) => s == IncomingRinging
    case MediaConnected => s == Connecting
    case Terminated(_) => s != Ended
    case Hold | AudioMuteChanged(_) | VideoStateChanged(_) => s == Active
    case Resume => s == OnHold
    case Other(_) => false
  }

  /** Where an allowed transition leads. */
  function Target(s: CallState, t: Transition): CallState {
    match t
    case OfferSent => Ringing
    case OfferReceived(_) => IncomingRinging
    case RemoteAccepted | LocalAccepted => Connecting
    case RemoteRejected(_) | LocalRejected(_) | Terminated(_) => Ended
    case MediaConnected | Resume => Active
    case Hold => OnHold
    case AudioMuteChanged(_) | VideoStateChanged(_) | Other(_) => s
  }

  /** What a transition does to the call; a refused one does nothing. */
  function Apply(d: StateData, video: bool, t: Transition, now: nat): StateData {
    if !Allowed(d.state, t) then d
    else
      var e := d.(state := Target(d.state, t));
      match t
      case OfferReceived(s) => e.(silenced := s)
      case RemoteAccepted | LocalAccepted => e.(acceptedAt := Some(now))
      case RemoteRejected(r) => e.(endedAt := Some(now), endReason := r)
      case LocalRejected(r) => e.(endedAt := Some(now), endReason := r)
      case MediaConnected => e.(connectedAt := Some(now), videoOff := !video)
      case Terminated(r) =>
        e.(endedAt := Some(now), endReason := r,
           durationSecs := if (d.state == Active || d.state == OnHold) && d.connectedAt.Some?
                           then now - d.connectedAt.value else d.durationSecs)
      case AudioMuteChanged(m) => e.(audioMuted := m)
      case VideoStateChanged(o) => e.(videoOff := o)
      case _ => e
  }

  class CallInfo {
    const video: bool
    var state: CallState
    var connectedAt: Option<nat>
    var acceptedAt: Option<nat>
    var endedAt: Option<nat>
    var audioMuted: bool
    var videoOff: bool
    var silenced: bool
    var endReason: string
    var durationSecs: int

    constructor Outgoing(video: bool)
      ensures Data() == Start(Initiating, video) && this.video == video
    {
      this.video := video;
      state, connectedAt, acceptedAt, endedAt := Initiating, None, None, None;
      audioMuted, videoOff, silenced, endReason, durationSecs := false, !video, false, "", 0;
    }

    constructor Incoming(video: bool)
      ensures Data() == Start(IncomingRinging, video) && this.video == video
    {
      this.video := video;
      state, connectedAt, acceptedAt, endedAt := IncomingRinging, None, None, None;
      audioMuted, videoOff, silenced, endReason, durationSecs := false, !video, false, "", 0;
    }

    ghost function Data(): StateData reads this {
      StateData(state, connectedAt, acceptedAt, endedAt, audioMuted, videoOff, silenced, endReason, durationSecs)
    }

    /** Succeeds exactly in the allowed states, and changes nothing when refused. */
    method ApplyTransition(t: Transition, now: nat) returns (ok: bool)
      modifies this
      ensures ok == Allowed(old(state), t) && Data() == Apply(old(Data()), video, t, now)
    {
      match t {
      case OfferSent =>
        if state != Initiating {
          return false;
        }
        state := Ringing;
      case OfferReceived(s) =>
        if state != Initiating {
          return false;
        }
        state := IncomingRinging;
        silenced := s;
      case RemoteAccepted =>
        if state != Ringing {
          return false;
        }
        state := Connecting;
        acceptedAt := Some(now);
      case LocalAccepted =>
        if state != IncomingRinging {
          return false;
        }
        state := Connecting;
        acceptedAt := Some(now);
      case RemoteRejected(reason) =>
        if state != Ringing {
          return false;
        }
        state := Ended;
        endedAt := Some(now);
        endReason := reason;
      case LocalRejected(reason) =>
        if state != IncomingRinging {
          return false;
        }
        state := Ended;
        endedAt := Some(now);
        endReason := reason;
      case MediaConnected =>
        if state != Connecting {
          return false;
        }
        state := Active;
        connectedAt := Some(now);
        videoOff := !video;
      case Terminated(reason) =>
        if state == Ended {
          return false;
        }
        if (state == Active || state == OnHold) && connectedAt.Some? {
          durationSecs := now - connectedAt.value;
        }
        state := Ended;
        endedAt := Some(now);
        endReason := reason;
      case Hold =>
        if state != Active {
          return false;
        }
        state := OnHold;
      case Resume =>
        if state != OnHold {
          return false;
        }
        state := Active;
      case AudioMuteChanged(muted) =>
        if state != Active {
          return false;
        }
        audioMuted := muted;
      case VideoStateChanged(off) =>
        if state != Active {
          return false;
        }
        videoOff := off;
      case Other(_) =>
        return false;
      }
      ok := true;
    }

    predicate IsEnded() reads this {
      state == Ended
    }

    predicate CanAccept() reads this {
      state == IncomingRinging
    }
  }

  function Start(s: CallState, video: bool): StateData {
    StateData(s, None, None, None, false, !video, false, "", 0)
  }

  // ---- every run of transitions ----

  datatype Timed = Timed(t: Transition, now: nat)

  function Run(d: StateData, video: bool, ts: seq<Timed>): StateData {
    if ts == [] then d
    else
      var n := |ts| - 1;
      Apply(Run(d, video, ts[..n]), video, ts[n].t, ts[n].now)
  }

  /** Successful media connections in a run. */
  function Connections(d: StateData, video: bool, ts: seq<Timed>): nat {
    if ts == [] then 0
    else
      var n := |ts| - 1;
      Connections(d, video, ts[..n])
      + if ts[n].t == MediaConnected && Allowed(Run(d, video, ts[..n]).state, MediaConnected) then 1 else 0
  }

  /** Time stamps never run backwards. */
  ghost predicate InOrder(ts: seq<Timed>) {
    forall i, j :: 0 <= i <= j < |ts| ==> ts[i].now <= ts[j].now
  }

  /** What the recorded times say about the state, up to time now. */
  ghost predicate Consistent(d: StateData, now: nat) {
    && (d.state in {Initiating, Ringing, IncomingRinging} ==> d.acceptedAt.None? && d.connectedAt.None?)
    && (d.state in {Connecting, Active, OnHold} ==> d.acceptedAt.Some?)
    && (d.state == Connecting ==> d.connectedAt.None?)
    && (d.state in {Active, OnHold} ==> d.connectedAt.Some?)
    && (d.connectedAt.Some? ==> d.acceptedAt.Some? && d.acceptedAt.value <= d.connectedAt.value <= now)
    && (d.acceptedAt.Some? ==> d.acceptedAt.value <= now)
    && (d.state == Ended <==> d.endedAt.Some?)
    && (d.endedAt.Some? ==> d.endedAt.value <= now)
    && (d.state != Ended ==> d.durationSecs == 0)
    && (d.state == Ended && d.connectedAt.Some? ==> d.durationSecs == d.endedAt.value - d.connectedAt.value)
    && (d.state == Ended && d.connectedAt.None? ==> d.durationSecs == 0)
  }

  lemma ApplyConsistent(d: StateData, video: bool, t: Transition, before: nat, now: nat)
    requires Consistent(d, before) && before <= now
    ensures Consistent(Apply(d, video, t, now), now)
  {
  }

  lemma ApplyConnects(d: StateData, video: bool, t: Transition, before: nat, now: nat)
    requires Consistent(d, before)
    ensures Apply(d, video, t, now).connectedAt.Some?
            <==> d.connectedAt.Some? || (t == MediaConnected && Allowed(d.state, t))
    ensures t == MediaConnected && Allowed(d.state, t) ==> d.connectedAt.None?
  {
  }

  /** A call is connected at most once, only after it was accepted, and its duration is
      the time from connection to end. */
  lemma {:induction false} RunConsistent(s: CallState, video: bool, ts: seq<Timed>)
    requires s in {Initiating, IncomingRinging} && InOrder(ts)
    ensures Consistent(Run(Start(s, video), video, ts), if ts == [] then 0 else ts[|ts| - 1].now)
    ensures Connections(Start(s, video), video, ts) <= 1
    ensures Connections(Start(s, video), video, ts) == 1 <==> Run(Start(s, video), video, ts).connectedAt.Some?
    decreases |ts|
  {
    if ts == [] {
    } else {
      var n := |ts| - 1;
      var d := Run(Start(s, video), video, ts[..n]);
      RunConsistent(s, video, ts[..n]);
      var before := if n == 0 then 0 else ts[n - 1].now;
      hide Apply, Allowed, Consistent;
      ApplyConsistent(d, video, ts[n].t, before, ts[n].now);
      ApplyConnects(d, video, ts[n].t, before, ts[n].now);
    }
  }

  // ---- what is recorded, and when ----

  /** The reason that a transition ends a call with. */
  function ReasonOf(t: Transition): Option<string> {
    match t
    case RemoteRejected(r) => Some(r)
    case LocalRejected(r) => Some(r)
    case Terminated(r) => Some(r)
    case _ => None
  }

  /** The moves between states, and the transition that makes each. */
  ghost predicate Edge(from: CallState, to: CallState, t: Transition) {
    || (from == Initiating && to == Ringing && t == OfferSent)
    || (from == Initiating && to == IncomingRinging && t.OfferReceived?)
    || (from == Ringing && to == Connecting && t == RemoteAccepted)
    || (from == IncomingRinging && to == Connecting && t == LocalAccepted)
    || (from == Connecting && to == Active && t == MediaConnected)
    || (from == Active && to == OnHold && t == Hold)
    || (from == OnHold && to == Active && t == Resume)
    || (from == Ringing && to == Ended && t.RemoteRejected?)
    || (from == IncomingRinging && to == Ended && t.LocalRejected?)
    || (from != Ended && to == Ended && t.Terminated?)
  }

  /** A transition moves along an edge or stays; one that labels an edge from the present state is never
      refused. */
  lemma ApplyMoves(d: StateData, video: bool, t: Transition, now: nat, to: CallState)
    ensures Apply(d, video, t, now).state == to != d.state <==> Edge(d.state, to, t)
  {
    assert Apply(d, video, t, now).state == if Allowed(d.state, t) then Target(d.state, t) else d.state;
    hide Apply;
  }

  /** The times are those of the moves, the reason that of the end; the flags change only as asked while
      the call is active, and when it starts. */
  lemma ApplyRecords(d: StateData, video: bool, t: Transition, now: nat)
    ensures var e := Apply(d, video, t, now);
            && e.acceptedAt == (if d.state != Connecting && e.state == Connecting then Some(now) else d.acceptedAt)
            && e.connectedAt == (if d.state == Connecting && e.state == Active then Some(now) else d.connectedAt)
            && e.endedAt == (if d.state != Ended && e.state == Ended then Some(now) else d.endedAt)
            && (if d.state != Ended && e.state == Ended then Some(e.endReason) == ReasonOf(t)
                else e.endReason == d.endReason && e.durationSecs == d.durationSecs)
  {
  }

  lemma ApplyFlags(d: StateData, video: bool, t: Transition, now: nat)
    ensures var e := Apply(d, video, t, now);
            && e.audioMuted == (if d.state == Active && t.AudioMuteChanged? then t.muted else d.audioMuted)
            && e.videoOff == (if d.state == Connecting && e.state == Active then !video
                              else if d.state == Active && t.VideoStateChanged? then t.off else d.videoOff)
            && e.silenced == (if d.state == Initiating && t.OfferReceived? then t.silenced else d.silenced)
  {
  }

  /** The call is in state s after the first n transitions, and in another before the last of them. */
  ghost predicate Entered(d: StateData, video: bool, ts: seq<Timed>, i: nat, s: CallState) {
    i < |ts| && Run(d, video, ts[..i]).state != s && Run(d, video, ts[..i + 1]).state == s
  }

  /** A recorded end is the time and the reason of the transition that ended the call. */
  lemma {:induction false} EndRecorded(s: CallState, video: bool, ts: seq<Timed>) returns (i: nat)
    requires s in {Initiating, IncomingRinging} && Run(Start(s, video), video, ts).state == Ended
    ensures Entered(Start(s, video), video, ts, i, Ended)
    ensures var d := Run(Start(s, video), video, ts);
            d.endedAt == Some(ts[i].now) && Some(d.endReason) == ReasonOf(ts[i].t)
    decreases |ts|
  {
    var n := |ts| - 1;
    var d := Run(Start(s, video), video, ts[..n]);
    ApplyRecords(d, video, ts[n].t, ts[n].now);
    assert ts[..n + 1] == ts;
    hide Apply;
    if d.state == Ended {
      i := EndRecorded(s, video, ts[..n]);
      assert ts[..n][..i] == ts[..i] && ts[..n][..i + 1] == ts[..i + 1];
      EndedStays(d, video, ts[n].t, ts[n].now);
    } else {
      i := n;
    }
  }

  lemma EndedStays(d: StateData, video: bool, t: Transition, now: nat)
    requires d.state == Ended
    ensures Apply(d, video, t, now) == d
  {
  }

  /** An ended call never changes again: neither its state nor its reason. */
  lemma {:induction false} EndedForGood(d: StateData, video: bool, ts: seq<Timed>)
    requires d.state == Ended
    ensures Run(d, video, ts) == d
    decreases |ts|
  {
    if ts != [] {
      EndedForGood(d, video, ts[..|ts| - 1]);
    }
  }
}
