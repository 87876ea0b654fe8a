/** The voice activity detector: frames of 20 ms, and packets of three of them.  Every sum and
    product outside the saturating operations has the 32-bit type, so that none can wrap around. */
module Vad {
  import opened FixedPoint
  import opened VadSpec
  import opened VadSnr
  import opened VadFilters
  import opened VadRun

  const TILT_WEIGHTS: seq<int> := [30000, 6000, -12000, -12000]

  /** How fast the inverse level follows that of the energy. */
  method Coefficient(nl: Level, nrg: Inverse, invNrg: Inverse, minCoef: Coef, updateSpeed: I32) returns (coef: I32)
    requires updateSpeed == 0 && invNrg == MAX32 / nrg
    ensures coef == CoefOf(nl, minCoef, nrg)
  {
    var nl8: I32 := nl * 8;
    if nrg > nl8 {
      coef := SMOOTH / 8;
    } else if nrg < nl {
      coef := SMOOTH;
    } else {
      InverseTimes(nrg, nl);
      coef := Smulwb(Smulww(invNrg, nl), SMOOTH * 2);
    }
    assert coef == Smoothing(nl, nrg);
    hide Smoothing;
    var scaled: I32 := coef * (100 + updateSpeed);
    coef := scaled / 100;
    if coef < minCoef {
      coef := minCoef;
    }
  }

  /** The level and the smoothed inverse of one band after the energy of a frame. */
  method NoiseLevel(nl: Level, invNl: Inverse, bias: Bias, pX: Energy, minCoef: Coef, updateSpeed: I32)
      returns (level: Level, inv: Inverse)
    requires updateSpeed == 0
    ensures Noise(level, inv) == NoiseNext(Noise(nl, invNl), bias, minCoef, pX)
  {
    var nrg := AddPosSat32(pX, bias);
    assert nrg == Min(MAX32, pX + bias);
    InverseRange(nrg);
    var invNrg: I32 := MAX32 / nrg;
    assert invNrg == Target(pX, bias);
    hide CoefOf, Min, Target, AddPosSat32;
    var coef := Coefficient(nl, nrg, invNrg, minCoef, updateSpeed);
    var d: I32 := invNrg - invNl;
    Between(invNl, invNrg, coef);
    inv := Smlawb(invNl, d, coef);
    assert inv == Smoothed(invNl, invNrg, coef);
    hide Smoothed, Smlawb;
    level := CappedLevel(inv);
  }

  method CappedLevel(inv: Inverse) returns (level: Level)
    ensures level == LevelOf(inv)
  {
    InverseRange(inv);
    var v: I32 := MAX32 / inv;
    if v > NL_LIMIT {
      v := NL_LIMIT;
    }
    level := v;
  }

  method Ratio(xnrg: Energy, nl: Level) returns (ratioQ8: I32)
    ensures ratioQ8 == RatioQ8(xnrg, nl)
  {
    if xnrg < 0x80_0000 {
      var shifted: I32, above: I32 := xnrg * 256, nl + 1;
      QuotientRange(shifted, above);
      ratioQ8 := shifted / above;
    } else {
      var above: I32 := nl / 256 + 1;
      QuotientRange(xnrg, above);
      ratioQ8 := xnrg / above;
    }
  }

  /** The squared ratio of one band, and its share in the tilt, which nothing reads. */
  method BandSnr(xnrg: Energy, nl: Level, weight: I32, sumIn: I32, tiltIn: I32)
      returns (sumSquared: I32, inputTilt: I32)
    requires 0 <= sumIn <= 4 * 9_498_724 && -30000 <= weight <= 30000 && -6000 <= tiltIn <= 6000
    ensures sumSquared == sumIn + SnrSquare(xnrg, nl)
    ensures -1500 <= inputTilt - tiltIn <= 1500
  {
    hide RatioQ8, Lin2Log, SqrtApprox;
    sumSquared, inputTilt := sumIn, tiltIn;
    var speechNrg: I32 := xnrg - nl;
    if speechNrg > 0 {
      var ratioQ8 := Ratio(xnrg, nl);
      var snrQ7: I32 := Lin2Log(ratioQ8) - 1024;
      assert snrQ7 == SnrQ7(xnrg, nl);
      SnrBound(snrQ7);
      sumSquared := Smlabb(sumSquared, snrQ7, snrQ7);
      if speechNrg < 0x10_0000 {
        var root := SqrtApprox(speechNrg);
        var scaled: I32 := root * 64;
        Shrunk(scaled, snrQ7);
        snrQ7 := Smulwb(scaled, snrQ7);
      }
      Weighed(snrQ7, weight);
      inputTilt := Smlawb(inputTilt, weight, snrQ7);
    }
  }

  lemma Shrunk(a: int, s: int)
    requires 0 <= a < 0x1_0000 && -3082 <= s <= 3082
    ensures -3082 <= a * s / 0x1_0000 <= 3082
  {
    if s >= 0 {
      Ordered(s, a, 0x1_0000);
    } else {
      Ordered(-s, a, 0x1_0000);
      assert a * s == -(-s * a);
    }
  }

  lemma Weighed(s: int, w: int)
    requires -3082 <= s <= 3082 && -30000 <= w <= 30000
    ensures -1500 <= w * s / 0x1_0000 <= 1500
  {
    var m := if s < 0 then -s else s;
    var n := if w < 0 then -w else w;
    Ordered(m, n, 30000);
    Signs(w, s);
  }

  lemma Signs(w: int, s: int)
    ensures var m, n := if s < 0 then -s else s, if w < 0 then -w else w; w * s == m * n || w * s == -(m * n)
  {
  }

  class SmplVadState {
    var anaState: AllPass
    var anaState1: AllPass
    var anaState2: AllPass
    var xnrgSubfr: seq<Rest>
    var nl: seq<Level>
    var invNl: seq<Inverse>
    var noiseLevelBias: seq<Bias>
    var counter: Counter
    var hpState: S16
    const noiseLvlUpdateSpeed: I32 := 0
    const nonBinariness: I32 := 0
    const highpassSharpness: I32 := 0
    var remainingDtxHangover: int
    const hangoverMs := 60
    /** Which of all frames so far were active. */
    ghost var acts: seq<bool>

    ghost predicate Valid() reads this {
      && |xnrgSubfr| == |nl| == |invNl| == |noiseLevelBias| == BANDS
      && remainingDtxHangover == HangAfter(acts)
    }

    ghost function State(): (v: VadState)
      requires Valid()
      reads this
      ensures v.Wf()
    {
      VadState(anaState, anaState1, anaState2, hpState, xnrgSubfr,
               [Noise(nl[0], invNl[0]), Noise(nl[1], invNl[1]), Noise(nl[2], invNl[2]), Noise(nl[3], invNl[3])],
               noiseLevelBias, counter)
    }

    constructor ()
      ensures Valid() && acts == [] && State() == INITIAL
    {
      anaState, anaState1, anaState2 := AllPass(0, 0), AllPass(0, 0), AllPass(0, 0);
      xnrgSubfr := [0, 0, 0, 0];
      counter, hpState, remainingDtxHangover := 15, 0, 60;
      var bias: seq<Bias>, level: seq<Level>, inverse: seq<Inverse> := [], [], [];
      for b := 0 to BANDS
        invariant |bias| == |level| == |inverse| == b
        invariant forall i :: 0 <= i < b ==> bias[i] == INITIAL.bias[i]
        invariant forall i :: 0 <= i < b ==> Noise(level[i], inverse[i]) == INITIAL.noise[i]
      {
        var n := 50 / (b + 1);
        if n < 1 {
          n := 1;
        }
        assert n == INITIAL.bias[b];
        InverseRange(100 * n);
        bias, level, inverse := bias + [n], level + [100 * n], inverse + [MAX32 / (100 * n)];
      }
      noiseLevelBias, nl, invNl := bias, level, inverse;
      acts := [];
    }

    /** The three splits, each of the low band of the one before. */
    method SplitBands(pIn: Frame, x: array<I16>)
      requires Valid() && x.Length == 400
      modifies this`anaState, this`anaState1, this`anaState2, x
      ensures Valid()
      ensures var v := old(State());
              && x[..40] == Eighth(v, pIn).low && x[120..160] == Eighth(v, pIn).high
              && x[160..240] == HalfLow(v, pIn).high && x[240..400] == Half(v, pIn).high
              && State() == v.(ana := Half(v, pIn).state, ana1 := HalfLow(v, pIn).state, ana2 := Eighth(v, pIn).state)
    {
      ghost var v := State();
      hide Halves;
      anaState := AnaFiltBank1(pIn, anaState, x, 240, 320);
      assert Half(v, pIn) == Split(anaState, x[..160], x[240..400]);
      anaState1 := AnaFiltBank1Inplace(x, 160, anaState1, 160);
      assert HalfLow(v, pIn) == Split(anaState1, x[..80], x[160..240]);
      assert x[240..400] == Half(v, pIn).high;
      anaState2 := AnaFiltBank1Inplace(x, 120, anaState2, 80);
      assert Eighth(v, pIn) == Split(anaState2, x[..40], x[120..160]);
      assert x[160..240] == HalfLow(v, pIn).high && x[240..400] == Half(v, pIn).high;
    }

    /** The four bands in their places, and the states of the filters. */
    method FilterBands(pIn: Frame, x: array<I16>)
      requires Valid() && x.Length == 400
      modifies this`anaState, this`anaState1, this`anaState2, this`hpState, x
      ensures Valid()
      ensures var v := old(State());
              && x[..40] == Band(v, pIn, 0) && x[120..160] == Band(v, pIn, 1)
              && x[160..240] == Band(v, pIn, 2) && x[240..400] == Band(v, pIn, 3)
              && State() == v.(ana := Half(v, pIn).state, ana1 := HalfLow(v, pIn).state,
                               ana2 := Eighth(v, pIn).state, hp := Bottom(v, pIn).0)
    {
      ghost var v := State();
      SplitBands(pIn, x);
      hide Halves, Filtered, Half, HalfLow, Eighth;
      var scaled: I32 := HP_NEG * (100 - highpassSharpness);
      var aNegQ16: I32 := scaled / 100;
      var bQ16: I32 := (65536 + aNegQ16) / 2;
      hpState := FiltHp(x, hpState, bQ16, aNegQ16, 40);
      assert x[120..160] == Eighth(v, pIn).high && x[160..240] == HalfLow(v, pIn).high
          && x[240..400] == Half(v, pIn).high;
    }

    /** The energies of the bands, and of their last subframes for the next frame. */
    method MeasureBands(x: array<I16>) returns (xnrg: seq<Energy>)
      requires Valid() && x.Length == 400
      modifies this`xnrgSubfr
      ensures Valid() && |xnrg| == BANDS
      ensures xnrg == [BandEnergy(old(xnrgSubfr[0]), x[..40]), BandEnergy(old(xnrgSubfr[1]), x[120..160]),
                       BandEnergy(old(xnrgSubfr[2]), x[160..240]), BandEnergy(old(xnrgSubfr[3]), x[240..400])]
      ensures xnrgSubfr == [QuarterEnergy(x[..40], 3), QuarterEnergy(x[120..160], 3),
                            QuarterEnergy(x[160..240], 3), QuarterEnergy(x[240..400], 3)]
    {
      hide BandEnergy, QuarterEnergy;
      var e0, r0 := EnergyOfBand(x, 0, 10, xnrgSubfr[0]);
      var e1, r1 := EnergyOfBand(x, 120, 10, xnrgSubfr[1]);
      var e2, r2 := EnergyOfBand(x, 160, 20, xnrgSubfr[2]);
      var e3, r3 := EnergyOfBand(x, 240, 40, xnrgSubfr[3]);
      xnrg := [e0, e1, e2, e3];
      xnrgSubfr := [r0, r1, r2, r3];
    }

    method GetNoiseLevels(pX: seq<Energy>)
      requires Valid() && |pX| == BANDS
      modifies this`counter, this`nl, this`invNl
      ensures Valid()
      ensures var v := old(State());
              State() == v.(counter := Min(1000, v.counter + 1),
                            noise := [NoiseAt(v, pX[0], 0), NoiseAt(v, pX[1], 1), NoiseAt(v, pX[2], 2), NoiseAt(v,
                                pX[3], 3)])
    {
      ghost var v := State();
      var minCoef: Coef := 0;
      if counter < 1000 {
        minCoef := 0x7FFF / (counter / 16 + 1);
        counter := counter + 1;
      }
      assert minCoef == MinCoef(v.counter);
      hide NoiseNext, MinCoef;
      for b := 0 to BANDS
        invariant |nl| == |invNl| == BANDS && counter == Min(1000, v.counter + 1)
        invariant forall i :: 0 <= i < b ==> Noise(nl[i], invNl[i]) == NoiseAt(v, pX[i], i)
        invariant forall i :: b <= i < BANDS ==> Noise(nl[i], invNl[i]) == v.noise[i]
      {
        var level, inv := NoiseLevel(nl[b], invNl[b], noiseLevelBias[b], pX[b], minCoef, noiseLvlUpdateSpeed);
        invNl := invNl[b := inv];
        nl := nl[b := level];
      }
    }

    /** The sum of the squared ratios of the bands. */
    method SumRatios(xnrg: seq<Energy>) returns (sumSquared: I32)
      requires Valid() && |xnrg| == BANDS
      ensures sumSquared == SquareSum(xnrg, State().noise, BANDS)
    {
      ghost var noise := State().noise;
      var inputTilt: I32 := 0;
      sumSquared := 0;
      hide SnrSquare;
      for b := 0 to BANDS
        invariant sumSquared == SquareSum(xnrg, noise, b) && -1500 * b <= inputTilt <= 1500 * b
      {
        assert noise[b].nl == nl[b];
        sumSquared, inputTilt := BandSnr(xnrg[b], nl[b], TILT_WEIGHTS[b], sumSquared, inputTilt);
      }
    }

    method Decide(meanSquare: I32) returns (r: Q8)
      requires 0 <= meanSquare < 0x100_0000
      ensures r == Probability(meanSquare)
    {
      hide SqrtApprox, SigmQ15, Smulwb, Wrap16;
      var tripled: I32 := 3 * SqrtApprox(meanSquare);
      PointRange(tripled);
      var pSnrDbQ7 := Wrap16(tripled);
      var scaled: I32 := SNR_FACTOR * (150 - nonBinariness);
      var vadSnrFactorQ16: I32 := scaled / 150;
      var point: I32 := Smulwb(vadSnrFactorQ16, pSnrDbQ7) - 128;
      var saQ15 := SigmQ15(point);
      r := Min(saQ15 / 128, 255);
    }

    /** The probability from the energies and the levels. */
    method Judge(xnrg: seq<Energy>) returns (r: Q8)
      requires Valid() && |xnrg| == BANDS
      ensures r == Probability(SquareSum(xnrg, State().noise, BANDS) / BANDS)
    {
      hide SquareSum, Probability;
      var sumSquared := SumRatios(xnrg);
      r := Decide(sumSquared / BANDS);
    }

    /** One frame: the new state and the probability are those of the model. */
    method GetSaQ8(pIn: Frame) returns (r: Q8)
      requires Valid()
      modifies this
      ensures Valid() && acts == old(acts) && remainingDtxHangover == old(remainingDtxHangover)
      ensures State() == NextState(old(State()), pIn) && r == Activity(old(State()), pIn)
    {
      ghost var v := State();
      var x := new I16[400](_ => 0);
      FilterBands(pIn, x);
      var xnrg := MeasureBands(x);
      hide Band, BandEnergy, QuarterEnergy, NoiseNext, Half, HalfLow, Eighth, Bottom;
      assert xnrg == Energies(v, pIn);
      GetNoiseLevels(xnrg);
      assert State() == NextState(v, pIn);
      r := Judge(xnrg);
    }

    /** Which frames of a packet are voiced, one after the other. */
    method HangOver(vt: seq<bool>) returns (codedAsActiveVoice: bool)
      requires Valid() && |vt| == 3
      modifies this`remainingDtxHangover, this`acts
      ensures Valid() && State() == old(State()) && acts == old(acts) + vt
      ensures codedAsActiveVoice <==> exists i :: 0 <= i < 3 && Near(old(acts), vt, i)
    {
      codedAsActiveVoice := false;
      hide Since, Near, HangAfter;
      for i := 0 to 3
        invariant Valid() && acts == old(acts) + vt[..i]
        invariant codedAsActiveVoice <==> exists j :: 0 <= j < i && Near(old(acts), vt, j)
      {
        NearIff(old(acts), vt, i);
        var inactive := false;
        if vt[i] {
          remainingDtxHangover := hangoverMs;
        } else if remainingDtxHangover > 0 {
          remainingDtxHangover := remainingDtxHangover - FRAME_MS;
        } else {
          inactive := true;
        }
        assert Near(old(acts), vt, i) <==> !inactive;
        acts := acts + [vt[i]];
        if !inactive {
          codedAsActiveVoice := true;
        }
      }
      assert vt[..3] == vt;
    }

    method CutFrame(pcmI16: Pcm, i: nat, framelen: nat) returns (frame: Frame)
      requires framelen == FRAME && |pcmI16| >= 3 * FRAME && i < 3
      ensures frame == FrameAt(pcmI16, i)
    {
      var t := FRAME * i;
      frame := pcmI16[t..t + framelen];
    }

    method JudgeFrame(frame: Frame, results: seq<real>, vt: seq<bool>, ghost v: VadState, ghost xs: seq<Frame>)
        returns (vadResults: seq<real>, flags: seq<bool>)
      requires Valid() && v.Wf() && Judged(v, xs, State(), vt, results)
      modifies this
      ensures Valid() && acts == old(acts) && Judged(v, xs + [frame], State(), flags, vadResults)
    {
      hide Judged, NextState, Activity, HangAfter;
      JudgedSnoc(v, xs, frame, State(), vt, results);
      var saQ8 := GetSaQ8(frame);
      vadResults := results + [saQ8 as real / 256.0];
      flags := vt + [saQ8 > DTX_THRESHOLD];
    }

    /** The frames of a packet, one after the other. */
    method JudgeFrames(pcmI16: Pcm, framelen: nat) returns (vadResults: seq<real>, vt: seq<bool>)
      requires Valid() && framelen == FRAME && |pcmI16| >= 3 * FRAME
      modifies this
      ensures Valid() && acts == old(acts) && Judged(old(State()), Frames(pcmI16), State(), vt, vadResults)
    {
      ghost var v, xs := State(), Frames(pcmI16);
      vadResults, vt := [], [];
      JudgedNone(v);
      assert xs[..0] == [];
      hide *;
      for i := 0 to 3
        invariant Valid() && acts == old(acts) && Judged(v, xs[..i], State(), vt, vadResults)
      {
        FrameOf(pcmI16, i);
        var frame := CutFrame(pcmI16, i, framelen);
        vadResults, vt := JudgeFrame(frame, vadResults, vt, v, xs[..i]);
      }
      assert xs[..3] == xs;
    }

    /** One packet of three frames; a packet that is too short is answered with nothing, and changes
        nothing.  The packet is voiced exactly when one of its frames is active or comes within three
        frames of an active one. */
    method ProcessPacket(pcmI16: Pcm, framelen: nat) returns (vadResults: seq<real>, codedAsActiveVoice: bool)
      requires Valid() && framelen == FRAME
      modifies this
      ensures Valid()
      ensures |pcmI16| < 3 * FRAME ==>
                !codedAsActiveVoice && vadResults == [0.0, 0.0, 0.0] && State() == old(State()) && acts == old(acts)
      ensures |pcmI16| >= 3 * FRAME ==>
                var v, xs := old(State()), Frames(pcmI16);
                var new3 := Flags(Activities(v, xs));
                && State() == After(v, xs) && acts == old(acts) + new3
                && vadResults == Shares(Activities(v, xs))
                && (codedAsActiveVoice <==> exists i :: 0 <= i < 3 && Near(old(acts), new3, i))
    {
      if |pcmI16| < 3 * framelen {
        return [0.0, 0.0, 0.0], false;
      }
      hide After, Activities, Flags, Shares, Near, HangAfter, Frames;
      var vt;
      vadResults, vt := JudgeFrames(pcmI16, framelen);
      codedAsActiveVoice := HangOver(vt);
    }
  }
}
