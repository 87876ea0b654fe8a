/** The call manager's steps under its lock: everything else it does happens between
    these steps, so a run of the program is an interleaving of them. */
module CallManagement {
  import opened CallStates

  /** What the lock protects, for one call.  current says that the manager still points
      at the call; codec and keepalive that media and its 60 ms sender are set up. */
  datatype Core = Core(data: StateData, video: bool, current: bool, codec: bool, keepalive: bool)

  function WithData(m: Core, t: Transition, now: nat): Core {
    m.(data := Apply(m.data, m.video, t, now))
  }

  /** The sender starts only once, and only with a codec. */
  function Started(m: Core): Core {
    m.(keepalive := m.keepalive || m.codec)
  }

  function CanBegin(m: Core): bool {
    m.current && m.data.state == IncomingRinging
  }

  /** AcceptCall, up to the accept stanza. */
  function AcceptBegin(m: Core, now: nat): Core {
    if CanBegin(m) then WithData(m, LocalAccepted, now) else m
  }

  /** AcceptCall and HandleCallAccept, after they found a relay connected. */
  function Activate(m: Core, now: nat): Core {
    if Allowed(m.data.state, MediaConnected) then Started(WithData(m, MediaConnected, now)) else m
  }

  /** HandleCallAccept, its first step: the transition may be refused. */
  function RemoteMark(m: Core, now: nat): Core {
    WithData(m, RemoteAccepted, now)
  }

  /** The callback of a relay that has opened. */
  function RelayConnected(m: Core, now: nat): Core {
    if !m.current || m.data.state == Ended then m
    else if m.data.state == IncomingRinging || m.data.state == Initiating then m
    else
      var s := Started(m);
      if s.data.state == Connecting then WithData(s, MediaConnected, now) else s
  }

  /** EndCall; the peer's terminate does the same without looking at the state. */
  function End(m: Core, reason: string, now: nat): Core {
    if !m.current || m.data.state == Ended then m
    else WithData(m, Terminated(reason), now).(current := false)
  }

  function PeerTerminate(m: Core, reason: string, now: nat): Core {
    if !m.current then m else WithData(m, Terminated(reason), now).(current := false)
  }

  function Reject(m: Core, reason: string, now: nat): Core {
    if !m.current then m else WithData(m, LocalRejected(reason), now).(current := false)
  }

  /** An error in the offer acknowledgement ends the call but keeps pointing at it. */
  function AckError(m: Core, error: string, now: nat): Core {
    if !m.current then m else WithData(m, Terminated("offer_rejected_" + error), now)
  }

  function OfferSentStep(m: Core, now: nat): Core {
    if !m.current then m else WithData(m, OfferSent, now)
  }

  function CleanedUp(m: Core): Core {
    m.(codec := false, keepalive := false)
  }

  datatype AcceptOutcome = Refused | Already | Began

  class CallManager {
    var currentCall: CallInfo?
    var codec: bool
    var keepaliveStop: bool

    constructor ()
      ensures currentCall == null && !codec && !keepaliveStop
    {
      currentCall, codec, keepaliveStop := null, false, false;
    }

    /** The state as seen for a given call. */
    ghost function View(call: CallInfo): Core reads this, call {
      Core(call.Data(), call.video, currentCall == call, codec, keepaliveStop)
    }

    method StartSilenceKeepaliveLocked(ghost call: CallInfo)
      modifies this`keepaliveStop
      ensures View(call) == Started(old(View(call)))
    {
      if keepaliveStop || !codec {
        return;
      }
      keepaliveStop := true;
    }

    /** The first locked part of AcceptCall for call id `call`. */
    method AcceptLocked(call: CallInfo, now: nat) returns (o: AcceptOutcome)
      modifies call
      ensures View(call) == AcceptBegin(old(View(call)), now)
      ensures o.Began? <==> CanBegin(old(View(call)))
      ensures o.Already? <==> currentCall == call && old(call.state) in {Active, Connecting}
    {
      if currentCall != call {
        return Refused;
      }
      if call.IsEnded() {
        return Refused;
      }
      if call.state == Active || call.state == Connecting {
        return Already;
      }
      if !call.CanAccept() {
        return Refused;
      }
      var _ := call.ApplyTransition(LocalAccepted, now);
      o := Began;
    }

    /** The last locked part of AcceptCall and HandleCallAccept. */
    method ActivateLocked(call: CallInfo, now: nat)
      modifies this`keepaliveStop, call
      ensures View(call) == Activate(old(View(call)), now)
    {
      var ok := call.ApplyTransition(MediaConnected, now);
      if ok {
        StartSilenceKeepaliveLocked(call);
      }
    }

    method RemoteAcceptedLocked(call: CallInfo, now: nat)
      modifies call
      ensures View(call) == RemoteMark(old(View(call)), now)
    {
      var _ := call.ApplyTransition(RemoteAccepted, now);
    }

    method OnRelayConnected(ghost seen: CallInfo, now: nat)
      requires currentCall == null || currentCall == seen
      modifies this`keepaliveStop, currentCall
      ensures View(seen) == RelayConnected(old(View(seen)), now)
    {
      var call := currentCall;
      if call == null {
        return;
      }
      if call.IsEnded() {
        return;
      }
      var state := call.state;
      if state == IncomingRinging || state == Initiating {
        return;
      }
      StartSilenceKeepaliveLocked(seen);
      if state == Connecting {
        var _ := call.ApplyTransition(MediaConnected, now);
      }
    }

    method EndLocked(ghost seen: CallInfo, reason: string, now: nat) returns (ended: bool)
      requires currentCall == null || currentCall == seen
      modifies this`currentCall, currentCall
      ensures View(seen) == End(old(View(seen)), reason, now)
      ensures ended <==> old(currentCall) != null && old(seen.state) != Ended
    {
      var call := currentCall;
      if call == null {
        return false;
      }
      if call.IsEnded() {
        return false;
      }
      var _ := call.ApplyTransition(Terminated(reason), now);
      currentCall := null;
      ended := true;
    }

    method TerminateLocked(ghost seen: CallInfo, reason: string, now: nat)
      requires currentCall == null || currentCall == seen
      modifies this`currentCall, currentCall
      ensures View(seen) == PeerTerminate(old(View(seen)), reason, now)
    {
      var call := currentCall;
      if call == null {
        return;
      }
      var _ := call.ApplyTransition(Terminated(reason), now);
      currentCall := null;
    }

    method RejectLocked(call: CallInfo, reason: string, now: nat)
      modifies this`currentCall, call
      ensures View(call) == Reject(old(View(call)), reason, now)
    {
      if currentCall != call {
        return;
      }
      var _ := call.ApplyTransition(LocalRejected(reason), now);
      currentCall := null;
    }

    method AckErrorLocked(ghost seen: CallInfo, error: string, now: nat)
      requires currentCall == null || currentCall == seen
      modifies currentCall
      ensures View(seen) == AckError(old(View(seen)), error, now)
    {
      var call := currentCall;
      if call != null {
        var _ := call.ApplyTransition(Terminated("offer_rejected_" + error), now);
      }
    }

    method CleanupMediaLocked(ghost seen: CallInfo)
      modifies this`codec, this`keepaliveStop
      ensures View(seen) == CleanedUp(old(View(seen)))
    {
      codec := false;
      if keepaliveStop {
        keepaliveStop := false;
      }
    }
  }
}
