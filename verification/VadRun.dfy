/** What the voice activity detector carries from frame to frame, what a frame makes of it,
    and what holds over runs of frames. */
module VadRun {
  import opened FixedPoint
  import opened VadSpec
  import opened VadSnr

  const HANGOVER_MS := 60
  const FRAME_MS := 20
  const DTX_THRESHOLD := 12

  type Frame = x: Pcm | |x| == FRAME witness seq(FRAME, _ => 0)
  type Counter = x: int | 0 <= x <= 1000
  type Q8 = x: int | 0 <= x <= 255

  datatype VadState = VadState(ana: AllPass, ana1: AllPass, ana2: AllPass, hp: S16, rests: seq<Rest>,
                               noise: seq<Noise>, bias: seq<Bias>, counter: Counter)
  {
    predicate Wf() {
      |rests| == |noise| == |bias| == BANDS
    }
  }

  /** The state of a new detector. */
  const INITIAL := VadState(AllPass(0, 0), AllPass(0, 0), AllPass(0, 0), 0, [0, 0, 0, 0],
                            [Noise(5000, MAX32 / 5000), Noise(2500, MAX32 / 2500), Noise(1600, MAX32 / 1600),
                             Noise(1200, MAX32 / 1200)], [50, 25, 16, 12], 15)

  // ---- one frame ----

  /** A new detector: the biases are a half, a third and so on of one for the lowest band, the levels a hundred
      times as much, and the inverses theirs. */
  lemma InitialNoise(b: nat)
    requires b < BANDS
    ensures INITIAL.Wf() && INITIAL.rests[b] == 0 && INITIAL.bias[b] == 50 / (b + 1)
    ensures INITIAL.noise[b].nl == 100 * INITIAL.bias[b] as int
    ensures INITIAL.noise[b].invNl == 0x7FFF_FFFF / INITIAL.noise[b].nl
  {
    assert b == 0 || b == 1 || b == 2 || b == 3;
  }

  function Half(v: VadState, x: Frame): (r: Split)
    ensures |r.low| == |r.high| == 160
  {
    Halves(v.ana, x)
  }

  function HalfLow(v: VadState, x: Frame): (r: Split)
    ensures |r.low| == |r.high| == 80
  {
    Halves(v.ana1, Half(v, x).low)
  }

  function Eighth(v: VadState, x: Frame): (r: Split)
    ensures |r.low| == |r.high| == 40
  {
    Halves(v.ana2, HalfLow(v, x).low)
  }

  function Bottom(v: VadState, x: Frame): (r: (S16, Pcm))
    ensures |r.1| == 40
  {
    Filtered(v.hp, Eighth(v, x).low)
  }

  /** The four bands of a frame, the lowest one through the high-pass filter. */
  function Band(v: VadState, x: Frame, b: nat): (r: Pcm)
    requires b < BANDS
    ensures |r| == if b <= 1 then 40 else if b == 2 then 80 else 160
  {
    if b == 0 then Bottom(v, x).1
    else if b == 1 then Eighth(v, x).high
    else if b == 2 then HalfLow(v, x).high
    else Half(v, x).high
  }

  function EnergyAt(v: VadState, x: Frame, b: nat): Energy
    requires v.Wf() && b < BANDS
  {
    BandEnergy(v.rests[b], Band(v, x, b))
  }

  function RestAt(v: VadState, x: Frame, b: nat): Rest
    requires b < BANDS
  {
    QuarterEnergy(Band(v, x, b), 3)
  }

  function NoiseAt(v: VadState, nrg: Energy, b: nat): Noise
    requires v.Wf() && b < BANDS
  {
    NoiseNext(v.noise[b], v.bias[b], MinCoef(v.counter), nrg)
  }

  function NextState(v: VadState, x: Frame): (r: VadState)
    requires v.Wf()
    ensures r.Wf()
  {
    VadState(Half(v, x).state, HalfLow(v, x).state, Eighth(v, x).state, Bottom(v, x).0,
             [RestAt(v, x, 0), RestAt(v, x, 1), RestAt(v, x, 2), RestAt(v, x, 3)],
             [NoiseAt(v, EnergyAt(v, x, 0), 0), NoiseAt(v, EnergyAt(v, x, 1), 1),
              NoiseAt(v, EnergyAt(v, x, 2), 2), NoiseAt(v, EnergyAt(v, x, 3), 3)],
             v.bias, Min(1000, v.counter + 1))
  }

  /** The sum of the squared ratios of the first n bands. */
  function SquareSum(nrg: seq<Energy>, noise: seq<Noise>, n: nat): (r: nat)
    requires n <= |nrg| && n <= |noise|
    ensures r <= n * 9_498_724
  {
    if n == 0 then 0 else SquareSum(nrg, noise, n - 1) + SnrSquare(nrg[n - 1], noise[n - 1].nl)
  }

  function Energies(v: VadState, x: Frame): (r: seq<Energy>)
    requires v.Wf()
    ensures |r| == BANDS
  {
    [EnergyAt(v, x, 0), EnergyAt(v, x, 1), EnergyAt(v, x, 2), EnergyAt(v, x, 3)]
  }

  /** The speech probability of a frame in 256ths. */
  function Activity(v: VadState, x: Frame): Q8
    requires v.Wf()
  {
    Probability(SquareSum(Energies(v, x), NextState(v, x).noise, BANDS) / BANDS)
  }

  // ---- runs ----

  /** A frame is active exactly when the squares of the bands' ratios add up to 1184 or more. */
  lemma ActiveIff(v: VadState, x: Frame)
    requires v.Wf()
    ensures Activity(v, x) > DTX_THRESHOLD <==> SquareSum(Energies(v, x), NextState(v, x).noise, BANDS) >= 1184
  {
    hide Probability, SquareSum, Energies, NextState;
    AboveSilence(SquareSum(Energies(v, x), NextState(v, x).noise, BANDS) / BANDS);
  }

  function After(v: VadState, xs: seq<Frame>): (r: VadState)
    requires v.Wf()
    ensures r.Wf()
  {
    if xs == [] then v else NextState(After(v, xs[..|xs| - 1]), xs[|xs| - 1])
  }

  /** Frames are counted up to a thousand, and the biases stay. */
  lemma {:induction false} CounterAfter(v: VadState, xs: seq<Frame>)
    requires v.Wf()
    ensures After(v, xs).bias == v.bias
    ensures After(v, xs).counter == if v.counter + |xs| < 1000 then v.counter + |xs| else 1000
  {
    if xs != [] {
      CounterAfter(v, xs[..|xs| - 1]);
      var u, x := After(v, xs[..|xs| - 1]), xs[|xs| - 1];
      assert NextState(u, x).bias == u.bias && NextState(u, x).counter == Min(1000, u.counter + 1);
      hide NextState;
    }
  }

  function Concat(xs: seq<Frame>): (r: Pcm)
    ensures |r| == FRAME * |xs|
  {
    if xs == [] then [] else Concat(xs[..|xs| - 1]) + xs[|xs| - 1]
  }

  /** Cut into frames or not, the banks make the same of a signal: over any run the three splits and the
      filter are in the state that they would be in after the whole signal at once. */
  lemma {:induction false} BanksRun(v: VadState, xs: seq<Frame>)
    requires v.Wf()
    ensures InStep(v, After(v, xs), Concat(xs))
  {
    hide *;
    if xs == [] {
      NothingYet(v);
    } else {
      var n := |xs| - 1;
      BanksRun(v, xs[..n]);
      AfterLast(v, xs);
      BankStep(v, After(v, xs[..n]), Concat(xs[..n]), xs[n]);
    }
  }

  /** u is where v is after the splits of a signal and the filter behind the last. */
  ghost predicate InStep(v: VadState, u: VadState, y: Pcm) {
    var a := Halves(v.ana, y);
    var b := Halves(v.ana1, a.low);
    var c := Halves(v.ana2, b.low);
    u.ana == a.state && u.ana1 == b.state && u.ana2 == c.state && u.hp == Filtered(v.hp, c.low).0
  }

  lemma NothingYet(v: VadState)
    requires v.Wf()
    ensures After(v, []) == v && InStep(v, v, Concat([]))
  {
  }

  lemma AfterLast(v: VadState, xs: seq<Frame>)
    requires v.Wf() && xs != []
    ensures After(v, xs) == NextState(After(v, xs[..|xs| - 1]), xs[|xs| - 1])
    ensures Concat(xs) == Concat(xs[..|xs| - 1]) + xs[|xs| - 1] && |Concat(xs[..|xs| - 1])| % 8 == 0
  {
    hide NextState;
  }

  lemma BankStep(v: VadState, u: VadState, y: Pcm, x: Frame)
    requires v.Wf() && u.Wf() && |y| % 8 == 0 && InStep(v, u, y)
    ensures InStep(v, NextState(u, x), y + x)
  {
    hide Halves, Filtered, NextState, Half, HalfLow, Eighth;
    var a := Halves(v.ana, y);
    var b := Halves(v.ana1, a.low);
    var c := Halves(v.ana2, b.low);
    Eights(|y|);
    SplitChunks(v.ana, y, x);
    SplitChunks(v.ana1, a.low, Half(u, x).low);
    SplitChunks(v.ana2, b.low, HalfLow(u, x).low);
    FilteredChunks(v.hp, c.low, Eighth(u, x).low);
    BanksOf(u, x);
  }

  lemma Eights(n: nat)
    requires n % 8 == 0
    ensures n % 2 == 0 && n / 2 % 2 == 0 && n / 2 / 2 % 2 == 0
  {
  }

  lemma BanksOf(u: VadState, x: Frame)
    requires u.Wf()
    ensures Half(u, x) == Halves(u.ana, x) && HalfLow(u, x) == Halves(u.ana1, Half(u, x).low)
    ensures Eighth(u, x) == Halves(u.ana2, HalfLow(u, x).low)
    ensures var r := NextState(u, x);
            && r.ana == Half(u, x).state && r.ana1 == HalfLow(u, x).state && r.ana2 == Eighth(u, x).state
            && r.hp == Filtered(u.hp, Eighth(u, x).low).0
  {
    hide Halves, Filtered, NoiseAt, RestAt, EnergyAt;
  }

  /** What a band carries over is the energy of its last quarter. */
  lemma RestIs(v: VadState, x: Frame, b: nat)
    requires v.Wf() && b < BANDS
    ensures var w := Band(v, x, b); NextState(v, x).rests[b] == SumSquares(w[|w| - |w| / 4..])
  {
    hide Band, SumSquares;
    assert b == 0 || b == 1 || b == 2 || b == 3;
    assert NextState(v, x).rests[b] == RestAt(v, x, b);
    hide NextState;
    LastQuarter(Band(v, x, b));
  }

  lemma LastQuarter(w: Pcm)
    requires |w| <= 160 && |w| % 4 == 0
    ensures QuarterEnergy(w, 3) == SumSquares(w[|w| - |w| / 4..])
  {
    var q := |w| / 4;
    assert |w| == 4 * q;
    QuarterIs(w, q, 3);
    assert w[3 * q..3 * q + q] == w[|w| - q..];
  }

  function Activities(v: VadState, xs: seq<Frame>): (r: seq<Q8>)
    requires v.Wf()
    ensures |r| == |xs|
  {
    if xs == [] then []
    else Activities(v, xs[..|xs| - 1]) + [Activity(After(v, xs[..|xs| - 1]), xs[|xs| - 1])]
  }

  /** The smoothed inverse levels of a band never leave the range between the least and the greatest of
      where they began and of the inverse energies that came in. */
  ghost predicate Enclosed(v: VadState, xs: seq<Frame>, b: nat, lo: int, hi: int)
    requires v.Wf() && b < BANDS
  {
    && lo <= v.noise[b].invNl <= hi
    && forall i :: 0 <= i < |xs| ==> lo <= Target(EnergyAt(After(v, xs[..i]), xs[i], b), v.bias[b]) <= hi
  }

  lemma EnclosedPrefix(v: VadState, xs: seq<Frame>, x: Frame, b: nat, lo: int, hi: int)
    requires v.Wf() && b < BANDS && Enclosed(v, xs + [x], b, lo, hi)
    ensures Enclosed(v, xs, b, lo, hi) && lo <= Target(EnergyAt(After(v, xs), x, b), v.bias[b]) <= hi
  {
    var ys := xs + [x];
    hide After, EnergyAt, Target;
    forall i | 0 <= i < |xs| ensures lo <= Target(EnergyAt(After(v, xs[..i]), xs[i], b), v.bias[b]) <= hi {
      assert ys[..i] == xs[..i] && ys[i] == xs[i];
    }
    assert ys[..|xs|] == xs && ys[|xs|] == x;
  }

  /** What a frame does to one band. */
  lemma BandStep(u: VadState, x: Frame, b: nat)
    requires u.Wf() && b < BANDS
    ensures var n := NextState(u, x).noise[b].invNl;
            var target := Target(EnergyAt(u, x, b), u.bias[b]);
            Min(u.noise[b].invNl, target) <= n <= if u.noise[b].invNl < target then target else u.noise[b].invNl
    ensures NextState(u, x).bias == u.bias
  {
    var e := EnergyAt(u, x, b);
    assert b == 0 || b == 1 || b == 2 || b == 3;
    assert NextState(u, x).noise[b] == NoiseAt(u, e, b);
    hide EnergyAt, NextState;
    NoiseBetween(u.noise[b], u.bias[b], MinCoef(u.counter), e);
  }

  lemma AfterSnoc(v: VadState, xs: seq<Frame>, x: Frame)
    requires v.Wf()
    ensures After(v, xs + [x]) == NextState(After(v, xs), x)
    ensures Activities(v, xs + [x]) == Activities(v, xs) + [Activity(After(v, xs), x)]
  {
    assert (xs + [x])[..|xs|] == xs;
    hide NextState, Activity;
  }

  /** Over runs of any length, from any state: the parts of the state keep the ranges of their types, so
      that no filter grows and no level is ever zero; every probability is in eight bits; and the
      inverse levels stay enclosed. */
  lemma {:induction false} RunSafe(v: VadState, xs: seq<Frame>, b: nat, lo: int, hi: int)
    requires v.Wf() && b < BANDS && Enclosed(v, xs, b, lo, hi)
    ensures After(v, xs).Wf() && After(v, xs).bias == v.bias
    ensures forall i :: 0 <= i < |xs| ==> 0 <= Activities(v, xs)[i] <= 255
    ensures lo <= After(v, xs).noise[b].invNl <= hi
  {
    hide After, Activities, NextState, Activity, EnergyAt, Target, Enclosed, VadState.Wf, Min;
    if xs == [] {
      RunStart(v, b, lo, hi);
    } else {
      var ys, x := xs[..|xs| - 1], xs[|xs| - 1];
      assert xs == ys + [x];
      RunStep(v, ys, x, b, lo, hi);
      RunSafe(v, ys, b, lo, hi);
    }
  }

  lemma RunStart(v: VadState, b: nat, lo: int, hi: int)
    requires v.Wf() && b < BANDS && Enclosed(v, [], b, lo, hi)
    ensures After(v, []) == v && Activities(v, []) == [] && lo <= v.noise[b].invNl <= hi
  {
  }

  lemma RunStep(v: VadState, ys: seq<Frame>, x: Frame, b: nat, lo: int, hi: int)
    requires v.Wf() && b < BANDS && Enclosed(v, ys + [x], b, lo, hi)
    ensures Enclosed(v, ys, b, lo, hi) && After(v, ys + [x]).bias == After(v, ys).bias
    ensures After(v, ys).bias == v.bias && lo <= After(v, ys).noise[b].invNl <= hi
            ==> lo <= After(v, ys + [x]).noise[b].invNl <= hi
  {
    EnclosedPrefix(v, ys, x, b, lo, hi);
    AfterSnoc(v, ys, x);
    BandStep(After(v, ys), x, b);
    hide After, NextState, Activity, EnergyAt, Target, Enclosed;
  }

  // ---- packets ----

  function FrameAt(p: Pcm, i: nat): Frame
    requires |p| >= 3 * FRAME && i < 3
  {
    p[FRAME * i..FRAME * i + FRAME]
  }

  function Frames(p: Pcm): (r: seq<Frame>)
    requires |p| >= 3 * FRAME
    ensures |r| == 3
  {
    [FrameAt(p, 0), FrameAt(p, 1), FrameAt(p, 2)]
  }

  /** Which frames are active. */
  function Flags(qs: seq<Q8>): (r: seq<bool>)
    ensures |r| == |qs|
  {
    seq(|qs|, i requires 0 <= i < |qs| => qs[i] > DTX_THRESHOLD)
  }

  function Shares(qs: seq<Q8>): (r: seq<real>)
    ensures |r| == |qs|
  {
    seq(|qs|, i requires 0 <= i < |qs| => qs[i] as real / 256.0)
  }

  /** The state, the flags and the shares after a run of frames. */
  ghost predicate Judged(v: VadState, xs: seq<Frame>, u: VadState, flags: seq<bool>, shares: seq<real>)
    requires v.Wf()
  {
    u == After(v, xs) && flags == Flags(Activities(v, xs)) && shares == Shares(Activities(v, xs))
  }

  lemma JudgedNone(v: VadState)
    requires v.Wf()
    ensures Judged(v, [], v, [], [])
  {
  }

  lemma JudgedSnoc(v: VadState, xs: seq<Frame>, x: Frame, u: VadState, flags: seq<bool>, shares: seq<real>)
    requires v.Wf() && Judged(v, xs, u, flags, shares)
    ensures u.Wf()
    ensures var q := Activity(u, x);
            Judged(v, xs + [x], NextState(u, x), flags + [q > DTX_THRESHOLD], shares + [q as real / 256.0])
  {
    hide After, Activities, NextState, Activity, Flags, Shares;
    AfterSnoc(v, xs, x);
    FlagsSnoc(Activities(v, xs), Activity(u, x));
  }

  lemma FlagsSnoc(qs: seq<Q8>, q: Q8)
    ensures Flags(qs + [q]) == Flags(qs) + [q > DTX_THRESHOLD]
    ensures Shares(qs + [q]) == Shares(qs) + [q as real / 256.0]
  {
  }

  lemma FrameOf(p: Pcm, i: nat)
    requires |p| >= 3 * FRAME && i < 3
    ensures Frames(p)[..i + 1] == Frames(p)[..i] + [FrameAt(p, i)]
  {
    assert i == 0 || i == 1 || i == 2;
    assert Frames(p)[i] == FrameAt(p, i);
  }

  // ---- hangover ----

  /** Whether a frame counts as voiced, and what is left of the hangover. */
  function Hang(left: nat, active: bool): (bool, nat) {
    if active then (true, HANGOVER_MS)
    else if left > 0 then (true, if left >= FRAME_MS then left - FRAME_MS else 0)
    else (false, 0)
  }

  function HangAfter(acts: seq<bool>): nat {
    if acts == [] then HANGOVER_MS else Hang(HangAfter(acts[..|acts| - 1]), acts[|acts| - 1]).1
  }

  /** The number of frames since the last active one; the start counts as active. */
  function Since(acts: seq<bool>): nat {
    if acts == [] || acts[|acts| - 1] then 0 else 1 + Since(acts[..|acts| - 1])
  }

  /** The i-th of some further frames is active or comes within three frames of an active one. */
  ghost predicate Near(acts: seq<bool>, more: seq<bool>, i: nat)
    requires i < |more|
  {
    Since(acts + more[..i + 1]) <= 3
  }

  /** Over every run, a frame is voiced exactly when it or one of the three before it was active
      (or it is one of the first three). */
  lemma {:induction false} VoicedIff(acts: seq<bool>, active: bool)
    ensures HangAfter(acts) == if Since(acts) >= 3 then 0 else HANGOVER_MS - FRAME_MS * Since(acts)
    ensures Hang(HangAfter(acts), active).0 <==> Since(acts + [active]) <= 3
    ensures Hang(HangAfter(acts), active).1 == HangAfter(acts + [active])
  {
    assert (acts + [active])[..|acts|] == acts;
    if acts != [] {
      VoicedIff(acts[..|acts| - 1], acts[|acts| - 1]);
    }
  }

  /** One frame of some further ones, as the hangover sees it. */
  lemma NearIff(acts: seq<bool>, more: seq<bool>, i: nat)
    requires i < |more|
    ensures var before := acts + more[..i];
            && Near(acts, more, i) == Hang(HangAfter(before), more[i]).0
            && HangAfter(acts + more[..i + 1]) == Hang(HangAfter(before), more[i]).1
            && acts + more[..i + 1] == before + [more[i]]
            && (HangAfter(before) == 0 || HangAfter(before) >= FRAME_MS)
  {
    assert acts + more[..i + 1] == acts + more[..i] + [more[i]];
    VoicedIff(acts + more[..i], more[i]);
    hide Since, HangAfter, Hang;
  }
}
