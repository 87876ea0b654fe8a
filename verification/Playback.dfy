/** The playback queue of a call: speech is fed in pieces of any length, flushed when it is
    interrupted, and taken out by a ticker, one frame every 60 ms. */
module Playback {
  import opened Basics
  type Sample = real
  type Samples = seq<Sample>

  const FRAME := 960
  const TURN_OVER_MS := 400
  const COOLDOWN_MS := 350

  /** A moment in milliseconds, or none yet. */
  type Moment = Option<int>

  datatype Queue = Queue(samples: Samples, playing: bool, silent: bool, capturedAt: Moment, playingAt: Moment)

  const START := Queue([], false, false, None, None)

  datatype Event = Feed(data: Samples, now: int) | Flush | Tick(live: bool, now: int)

  /** What the codec is given: silence, or speech that zeros may fill up. */
  datatype Frame = Silence | Speech(speech: Samples) {
    ghost predicate Wf() { Speech? ==> 0 < |speech| <= FRAME }

    function Heard(): Samples { if Silence? then [] else speech }

    function Padded(): Samples
      requires Wf()
    {
      if Silence? then Filled(0.0, FRAME) else speech + Filled(0.0, FRAME - |speech|)
    }
  }

  predicate TurnOver(q: Queue, now: int) {
    q.capturedAt == None || now - q.capturedAt.value > TURN_OVER_MS
  }

  /** The speech that a live tick takes from the queue. */
  function Taken(q: Queue, now: int): (n: nat)
    ensures n <= |q.samples| && n <= FRAME
  {
    if |q.samples| >= FRAME then FRAME
    else if q.playing && TurnOver(q, now) then |q.samples|
    else 0
  }

  function Step(q: Queue, e: Event): Queue {
    match e
    case Feed(data, now) =>
      if data == [] then q
      else q.(samples := q.samples + data, capturedAt := Some(now), playingAt := Some(now))
    case Flush => q.(samples := [], playing := false, silent := true, playingAt := None)
    case Tick(live, now) =>
      if !live then q
      else
        var full := |q.samples| >= FRAME;
        var p := q.(samples := q.samples[Taken(q, now)..],
                    playing := full || (q.playing && !TurnOver(q, now)),
                    playingAt := if full || q.playing then Some(now) else q.playingAt);
        if full then p.(silent := false)
        else if q.playing && !TurnOver(q, now) then p
        else p.(silent := true)
  }

  /** The frame that an event hands to the codec. */
  function Out(q: Queue, e: Event): Option<Frame> {
    match e
    case Tick(true, now) =>
      Some(if Taken(q, now) == 0 then Silence else Speech(q.samples[..Taken(q, now)]))
    case _ => None
  }

  // ---- runs ----

  function After(es: seq<Event>): Queue {
    if es == [] then START else Step(After(es[..|es| - 1]), es[|es| - 1])
  }

  function Frames(es: seq<Event>): seq<Frame> {
    if es == [] then []
    else
      match Out(After(es[..|es| - 1]), es[|es| - 1])
      case None => Frames(es[..|es| - 1])
      case Some(f) => Frames(es[..|es| - 1]) + [f]
  }

  function LiveTicks(es: seq<Event>): nat {
    if es == [] then 0
    else LiveTicks(es[..|es| - 1]) + if es[|es| - 1].Tick? && es[|es| - 1].live then 1 else 0
  }

  /** What was fed since the last flush. */
  function Fed(es: seq<Event>): Samples {
    if es == [] then []
    else
      match es[|es| - 1]
      case Feed(data, _) => Fed(es[..|es| - 1]) + data
      case Flush => []
      case Tick(_, _) => Fed(es[..|es| - 1])
  }

  /** The speech in the frames since the last flush. */
  function Heard(es: seq<Event>): Samples {
    if es == [] then []
    else
      match es[|es| - 1]
      case Flush => []
      case e =>
        match Out(After(es[..|es| - 1]), e)
        case None => Heard(es[..|es| - 1])
        case Some(f) => Heard(es[..|es| - 1]) + f.Heard()
  }

  /** Nothing fed is lost, repeated or reordered, whatever the interleaving. */
  lemma {:induction false} Conserved(es: seq<Event>)
    ensures Heard(es) + After(es).samples == Fed(es)
  {
    if es != [] {
      var n := |es| - 1;
      var q, e := After(es[..n]), es[n];
      Conserved(es[..n]);
      if e.Tick? && e.live {
        TickMoves(q, e.now);
        hide Step, Out, Taken;
        assert After(es) == Step(q, e);
      }
    }
  }

  /** What a live tick gives to the codec is what leaves the queue. */
  lemma TickMoves(q: Queue, now: int)
    ensures var f := Out(q, Tick(true, now));
            f.Some? && f.value.Wf() && f.value.Heard() + Step(q, Tick(true, now)).samples == q.samples
  {
    var k := Taken(q, now);
    assert q.samples == q.samples[..k] + q.samples[k..];
  }

  /** One frame of full length for every live tick. */
  lemma {:induction false} OneFrameATick(es: seq<Event>)
    ensures |Frames(es)| == LiveTicks(es)
    ensures forall f :: f in Frames(es) ==> f.Wf() && |f.Padded()| == FRAME
  {
    if es != [] {
      OneFrameATick(es[..|es| - 1]);
    }
  }

  /** A frame with zeros after its speech empties the queue, and is made only when nothing has
      been fed for longer than the pause that ends a turn. */
  lemma PaddedOnlyAtTheEnd(q: Queue, now: int)
    requires var f := Out(q, Tick(true, now)).value; f.Speech? && |f.speech| < FRAME
    ensures q.playing && TurnOver(q, now) && Step(q, Tick(true, now)).samples == []
  {
  }

  /** The queue after live ticks at the given times. */
  function Drained(q: Queue, times: seq<int>): Queue {
    if times == [] then q
    else Step(Drained(q, times[..|times| - 1]), Tick(true, times[|times| - 1]))
  }

  /** The turn is over at the first of the times and at all that follow. */
  ghost predicate OverFrom(q: Queue, times: seq<int>) {
    && (times != [] ==> TurnOver(q, times[0]))
    && forall i, j :: 0 <= i <= j < |times| ==> times[i] <= times[j]
  }

  lemma {:induction false} DrainedLeaves(q: Queue, times: seq<int>)
    requires OverFrom(q, times) && |times| * FRAME <= |q.samples|
    ensures var r := Drained(q, times);
            && r.samples == q.samples[|times| * FRAME..] && r.capturedAt == q.capturedAt
            && (r.playing <==> q.playing || times != [])
  {
    if times != [] {
      DrainedLeaves(q, times[..|times| - 1]);
    }
  }

  /** After the end of a turn, enough ticks empty the queue exactly when it was playing, or had a
      frame's worth to start playing, or was empty: less than a frame fed to an idle queue stays. */
  lemma Emptied(q: Queue, times: seq<int>)
    requires OverFrom(q, times) && |times| == |q.samples| / FRAME + 1
    ensures Drained(q, times).samples == [] <==> q.playing || |q.samples| >= FRAME || q.samples == []
  {
    var n := |times| - 1;
    var r := Drained(q, times[..n]);
    var now := times[n];
    assert times[0] <= now;
    DrainedLeaves(q, times[..n]);
    assert Drained(q, times) == Step(r, Tick(true, now));
    hide Drained, OverFrom;
    assert |r.samples| == |q.samples| - n * FRAME;
    LastTick(r, now);
    hide Step, TurnOver;
  }

  lemma LastTick(r: Queue, now: int)
    requires TurnOver(r, now) && |r.samples| < FRAME
    ensures Step(r, Tick(true, now)).samples == if r.playing then [] else r.samples
  {
  }

  /** Less than a frame fed to an idle queue is never heard, however long it ticks. */
  lemma {:induction false} ShortSpeechStays(q: Queue, times: seq<int>)
    requires !q.playing && |q.samples| < FRAME
    ensures Drained(q, times).samples == q.samples && !Drained(q, times).playing
  {
    if times != [] {
      ShortSpeechStays(q, times[..|times| - 1]);
    }
  }

  // ---- the other fields ----

  predicate Marks(e: Event) {
    e == Flush || (e.Tick? && e.live)
  }

  /** From the first live tick or flush on, a queue is silent exactly when it is not playing. */
  lemma {:induction false} SilentIff(es: seq<Event>)
    ensures After(es).silent <==> !After(es).playing && exists i :: 0 <= i < |es| && Marks(es[i])
    ensures (forall i :: 0 <= i < |es| ==> !Marks(es[i])) ==> !After(es).playing
  {
    if es != [] {
      var n := |es| - 1;
      SilentIff(es[..n]);
      var q, r := After(es[..n]), After(es);
      MarkedStep(q, es[n]);
      hide Step, After, Taken;
      if Marks(es[n]) {
        assert exists i :: 0 <= i < |es| && Marks(es[i]);
      } else {
        assert forall i :: 0 <= i < n ==> es[..n][i] == es[i];
        if exists i :: 0 <= i < |es| && Marks(es[i]) {
          var i :| 0 <= i < |es| && Marks(es[i]);
          assert Marks(es[..n][i]);
        }
      }
    }
  }

  lemma MarkedStep(q: Queue, e: Event)
    ensures Marks(e) && (q.silent ==> !q.playing) ==> (Step(q, e).silent <==> !Step(q, e).playing)
    ensures !Marks(e) ==> Step(q, e).silent == q.silent && Step(q, e).playing == q.playing
  {
  }

  /** Speech handed over or fed is the latest that was heard of; a flush forgets it, and what hands over
      silence while nothing is played, or nothing at all, leaves it. */
  lemma LastHeardOf(q: Queue, e: Event)
    ensures e == Flush ==> Step(q, e).playingAt == None && Step(q, e).capturedAt == q.capturedAt
    ensures e.Feed? && e.data != [] ==> Step(q, e).playingAt == Step(q, e).capturedAt == Some(e.now)
    ensures e.Tick? && Out(q, e).Some? && Out(q, e).value.Speech? ==> Step(q, e).playingAt == Some(e.now)
    ensures e.Tick? ==> Step(q, e).capturedAt == q.capturedAt
    ensures e.Tick? && (!e.live || (!q.playing && |q.samples| < FRAME)) ==> Step(q, e).playingAt == q.playingAt
    ensures e.Feed? && e.data == [] ==> Step(q, e) == q
  {
  }

  // ---- the fields and the methods under the lock ----

  class CallAudio {
    var playQueue: Samples
    var wasPlaying: bool
    var wasSilent: bool
    var lastCaptureAt: Moment
    var lastPlayingAt: Moment
    /** Every frame given to the codec, and everything that happened. */
    ghost var encoded: seq<Samples>
    ghost var events: seq<Event>

    ghost function State(): Queue reads this {
      Queue(playQueue, wasPlaying, wasSilent, lastCaptureAt, lastPlayingAt)
    }

    ghost predicate Valid() reads this {
      && State() == After(events)
      && |encoded| == |Frames(events)|
      && forall i :: 0 <= i < |encoded| ==> Frames(events)[i].Wf() && encoded[i] == Frames(events)[i].Padded()
    }

    constructor ()
      ensures Valid() && events == []
    {
      playQueue, wasPlaying, wasSilent, lastCaptureAt, lastPlayingAt := [], false, false, None, None;
      encoded, events := [], [];
    }

    ghost method Happened(e: Event, f: Option<Frame>)
      requires |encoded| == |Frames(events)|
      requires forall i :: 0 <= i < |encoded| ==> Frames(events)[i].Wf() && encoded[i] == Frames(events)[i].Padded()
      requires State() == Step(After(events), e) && f == Out(After(events), e)
      requires f.Some? ==> f.value.Wf()
      modifies this`encoded, this`events
      ensures Valid() && events == old(events) + [e]
      ensures encoded == old(encoded) + if f.Some? then [f.value.Padded()] else []
    {
      assert (events + [e])[..|events|] == events;
      events := events + [e];
      if f.Some? {
        encoded := encoded + [f.value.Padded()];
      }
    }

    method FeedCapturedPCM(data: Samples, now: int)
      requires Valid()
      modifies this
      ensures Valid() && events == old(events) + [Feed(data, now)] && encoded == old(encoded)
    {
      if |data| != 0 {
        playQueue := playQueue + data;
        lastCaptureAt := Some(now);
        lastPlayingAt := Some(now);
      }
      Happened(Feed(data, now), None);
    }

    method FlushCapturedPCM()
      requires Valid()
      modifies this
      ensures Valid() && events == old(events) + [Flush] && encoded == old(encoded)
    {
      playQueue := [];
      wasPlaying := false;
      wasSilent := true;
      lastPlayingAt := None;
      Happened(Flush, None);
    }

    method IsPlayingAudio(now: int) returns (r: bool)
      ensures r <==> wasPlaying || |playQueue| > 0 || (lastPlayingAt.Some? && now - lastPlayingAt.value < COOLDOWN_MS)
    {
      r := wasPlaying || |playQueue| > 0 || (lastPlayingAt.Some? && now - lastPlayingAt.value < COOLDOWN_MS);
    }

    /** The frame buffer is the ticker's own and is used again and again; what the codec is given
        is what the buffer holds at the time. */
    method DispatchAudioFrame(frame: array<Sample>, silence: array<Sample>, live: bool, now: int)
        returns (given: Option<Samples>)
      requires Valid() && frame.Length == silence.Length == FRAME && frame != silence
              && silence[..] == Filled(0.0, FRAME)
      modifies this, frame
      ensures Valid() && events == old(events) + [Tick(live, now)] && silence[..] == Filled(0.0, FRAME)
      ensures encoded == old(encoded) + if given.Some? then [given.value] else []
      ensures given.Some? <==> live
    {
      if !live {
        Happened(Tick(live, now), None);
        return None;
      }
      TickMoves(State(), now);
      ghost var f := Out(State(), Tick(live, now));
      hide Step, Out;
      var next := NextFrame(frame, silence, now);
      Happened(Tick(live, now), f);
      given := Some(next);
    }

    method NextFrame(frame: array<Sample>, silence: array<Sample>, now: int) returns (given: Samples)
      requires frame.Length == silence.Length == FRAME && frame != silence && silence[..] == Filled(0.0, FRAME)
      modifies this, frame
      ensures State() == Step(old(State()), Tick(true, now))
      ensures var f := Out(old(State()), Tick(true, now)).value; f.Wf() && given == f.Padded()
      ensures silence[..] == Filled(0.0, FRAME) && encoded == old(encoded) && events == old(events)
    {
      if !wasPlaying {
        if |playQueue| >= FRAME {
          wasPlaying := true;
          lastPlayingAt := Some(now);
          CopyFrame(frame, playQueue[..FRAME]);
          playQueue := playQueue[FRAME..];
          wasSilent := false;
          given := frame[..];
        } else {
          wasSilent := true;
          given := silence[..];
        }
        return;
      }
      if |playQueue| >= FRAME {
        lastPlayingAt := Some(now);
        CopyFrame(frame, playQueue[..FRAME]);
        playQueue := playQueue[FRAME..];
        wasSilent := false;
        given := frame[..];
      } else if lastCaptureAt == None || now - lastCaptureAt.value > TURN_OVER_MS {
        lastPlayingAt := Some(now);
        if |playQueue| > 0 {
          CopyFrame(frame, playQueue);
          assert playQueue[..|playQueue|] == playQueue;
          playQueue := [];
          wasPlaying := false;
          wasSilent := true;
          given := frame[..];
        } else {
          wasPlaying := false;
          wasSilent := true;
          given := silence[..];
        }
      } else {
        lastPlayingAt := Some(now);
        given := silence[..];
      }
    }

    /** Copies the samples to the front of the frame and fills the rest with zeros. */
    method CopyFrame(frame: array<Sample>, s: Samples)
      requires frame.Length == FRAME && |s| <= FRAME
      modifies frame
      ensures frame[..] == s + Filled(0.0, FRAME - |s|)
    {
      for i := 0 to |s|
        invariant forall j :: 0 <= j < i ==> frame[j] == s[j]
      {
        frame[i] := s[i];
      }
      for i := |s| to FRAME
        invariant forall j :: 0 <= j < |s| ==> frame[j] == s[j]
        invariant forall j :: |s| <= j < i ==> frame[j] == 0.0
      {
        frame[i] := 0.0;
      }
    }
  }
}
