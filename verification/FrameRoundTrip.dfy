/** What goes into the frame encoder comes out of the frame decoder. */
module FrameRoundTrip {
  import opened Basics
  import opened RangeSpec
  import opened CcTables
  import opened Lsf
  import opened PulseSpec
  import opened PulseVector
  import opened Gains
  import opened Ltp
  import opened PitchSpec
  import opened PitchBlock
  import opened FrameSpec
  import opened Frame

  /** The parameters as a decoder reports them. */
  function CleanOf(ip: Internal): Internal {
    match ip.block
    case Voiced(pp) =>
      if |ip.pulses.subfr| == |pp.filts| then ip.(block := Voiced(Heard(ip.pulses.subfr, pp))) else ip
    case Unvoiced(gp) =>
      if |ip.pulses.subfr| == |gp.nrgRes| then ip.(block := Unvoiced(Reported(ip.pulses.subfr, gp))) else ip
  }

  lemma CleanBlockSame(k: Codec, q: Predictor, ip: Internal)
    requires Usable(k, q) && WfBlock(k, q, ip.lsf.stage1, ip.pulses.subfr, ip.block)
    ensures CleanOf(ip).lsf == ip.lsf && CleanOf(ip).pulses == ip.pulses
    ensures WfBlock(k, q, ip.lsf.stage1, ip.pulses.subfr, CleanOf(ip).block)
    ensures CleanBlock(ip.pulses.subfr, CleanOf(ip).block)
    ensures BlockSyms(k, q, ip.lsf.stage1, ip.pulses.subfr, CleanOf(ip).block)
         == BlockSyms(k, q, ip.lsf.stage1, ip.pulses.subfr, ip.block)
    ensures AfterBlock(k, q, ip.lsf.stage1, ip.pulses.subfr, CleanOf(ip).block)
         == AfterBlock(k, q, ip.lsf.stage1, ip.pulses.subfr, ip.block)
  {
    hide Tables.Wf, PitchTables.Wf, LsfTables.Wf, WfPred, WfState, LtpFit, WfLags, ResidualFits, PitchSyms, GainSyms,
      AfterPitch, NoFilter, Quiet;
    if ip.lsf.stage1 == 1 {
      HeardSyms(k.cc, k.pitch, q, ip.pulses.subfr, ip.block.pitch);
    } else {
      ReportedSyms(k.cc, ip.pulses.subfr, ip.block.gains);
    }
  }

  lemma CleanSame(k: Codec, p: Predictor, f: nat, ip: Internal)
    requires Fits(k, p, f, ip)
    ensures Fits(k, p, f, CleanOf(ip)) && Clean(CleanOf(ip))
    ensures Wire(k, p, f, CleanOf(ip)) == Wire(k, p, f, ip) && Next(k, p, f, CleanOf(ip)) == Next(k, p, f, ip)
  {
    hide CleanOf, Usable, WfBlock, BlockSyms, AfterBlock, AfterLsf, LsfSyms, PulseSyms, WfLsfParams, WfPulses, Ready,
      CleanBlock;
    LsfUsable(k, p, f, ip.lsf.stage1);
    CleanBlockSame(k, AfterLsf(p, f, ip.lsf.stage1), ip);
  }

  function CleanAll(ips: seq<Internal>): (r: seq<Internal>)
    ensures |r| == |ips|
  {
    seq(|ips|, i requires 0 <= i < |ips| => CleanOf(ips[i]))
  }

  /** The first f frames, cleaned, write the same symbols and lead to the same predictor. */
  lemma {:induction false} CleanWire(k: Codec, p0: Predictor, ips: seq<Internal>, f: nat)
    requires WfFrame(k, p0, ips, f)
    ensures FrameSyms(k, p0, CleanAll(ips), f) == FrameSyms(k, p0, ips, f)
    ensures PredAt(k, p0, CleanAll(ips), f) == PredAt(k, p0, ips, f)
  {
    hide CleanOf, Fits, Wire, Next, Clean, CleanAll;
    if f > 0 {
      CleanWire(k, p0, ips, f - 1);
      CleanAt(ips, f - 1);
      CleanSame(k, PredAt(k, p0, ips, f - 1), f - 1, ips[f - 1]);
    }
  }

  lemma CleanAt(ips: seq<Internal>, i: nat)
    requires i < |ips|
    ensures CleanAll(ips)[i] == CleanOf(ips[i])
  {
    hide CleanOf;
  }

  lemma WfPrefix(k: Codec, p0: Predictor, ips: seq<Internal>, f: nat, i: nat)
    requires WfFrame(k, p0, ips, f) && i < f
    ensures WfFrame(k, p0, ips, i) && Fits(k, PredAt(k, p0, ips, i), i, ips[i])
  {
    hide Fits, PredAt;
  }

  lemma CleanFits(k: Codec, p0: Predictor, ips: seq<Internal>, f: nat, i: nat)
    requires WfFrame(k, p0, ips, f) && i < f
    ensures i < |ips|
    ensures var c := CleanAll(ips); Fits(k, PredAt(k, p0, c, i), i, c[i]) && Clean(c[i])
  {
    WfPrefix(k, p0, ips, f, i);
    hide WfFrame, CleanOf, Fits, Clean, CleanAll, FrameSyms, PredAt;
    CleanWire(k, p0, ips, i);
    CleanAt(ips, i);
    CleanSame(k, PredAt(k, p0, ips, i), i, ips[i]);
  }

  lemma CleanFrame(k: Codec, p0: Predictor, ips: seq<Internal>, f: nat)
    requires WfFrame(k, p0, ips, f)
    ensures WfFrame(k, p0, CleanAll(ips), f) && forall i :: 0 <= i < f ==> Clean(CleanAll(ips)[i])
    ensures FrameSyms(k, p0, CleanAll(ips), f) == FrameSyms(k, p0, ips, f)
    ensures PredAt(k, p0, CleanAll(ips), f) == PredAt(k, p0, ips, f)
  {
    CleanWire(k, p0, ips, f);
    hide CleanOf, Fits, Clean, CleanAll, FrameSyms, PredAt;
    var c := CleanAll(ips);
    forall i | 0 <= i < f ensures Fits(k, PredAt(k, p0, c, i), i, c[i]) && Clean(c[i]) {
      CleanFits(k, p0, ips, f, i);
    }
  }

  lemma EndOfSyms(s: seq<Sym>)
    ensures s + [] == s
  {
  }

  /** A body that holds the symbols of a frame is read back as that frame, by a decoder
      with any predictor state; encoder and decoder end in the same state. */
  lemma FrameRecovered(k: Codec, encStart: Predictor, decStart: Predictor, body: seq<Byte>, ips: seq<Internal>,
                       outs: seq<DecOutput>, ys: seq<Internal>, at: Interval, last: Predictor)
    requires k.Wf() && |ips| == |ys| == INTERNAL_FRAMES && WfFrame(k, encStart, ips, INTERNAL_FRAMES)
    requires Reads(body, START, FrameSyms(k, encStart, ips, INTERNAL_FRAMES))
    requires FrameRead(k, decStart, outs, ys, at, last) && InCode(body, at)
    ensures ys == CleanAll(ips) && last == PredAt(k, encStart, ips, INTERNAL_FRAMES)
  {
    hide Codec.Wf, Fits, Wire, Next, Clean, CleanOf, Shows, Run, FrameSyms, PredAt, Ready, InCode;
    var n := INTERNAL_FRAMES;
    CleanFrame(k, encStart, ips, n);
    var xs := CleanAll(ips);
    FrameResets(k, encStart, decStart, xs, n);
    var sx, sy := FrameSyms(k, decStart, xs, n), FrameSyms(k, decStart, ys, n);
    EndOfSyms(sx);
    EndOfSyms(sy);
    FrameUnique(body, START, k, decStart, n, xs, ys, [], []);
    assert xs[..n] == xs && ys[..n] == ys;
  }

  // ---- in the terms of encoder input and decoder output ----

  /** Every parameter that is on the wire is recovered. */
  ghost predicate Recovers(inp: EncInput, out: DecOutput) {
    && out.lsf == inp.lsf && out.pulses == inp.pulses
    && Placeable(inp.pulses) && out.vector == Reconstruct(inp.pulses)
    && if inp.lsf.stage1 == 1 then
         && out.gainIdx == inp.gainIdx && out.contour == inp.blocksegIdx && out.blockLags == inp.laginds
         && |out.filtIdx| == |inp.filtIdx| == SUBFRAMES && |inp.pulses.subfr| == SUBFRAMES
         && forall sf :: 0 <= sf < SUBFRAMES ==>
              out.filtIdx[sf] == if inp.pulses.subfr[sf] > 0 then inp.filtIdx[sf] else -1
       else
         && out.gains.main == inp.gains.main && out.gains.delta == inp.gains.delta
         && |out.gains.nrgRes| == |inp.gains.nrgRes| == SUBFRAMES && |inp.pulses.subfr| == SUBFRAMES
         && forall sf :: 0 <= sf < SUBFRAMES ==>
              out.gains.nrgRes[sf] == if inp.pulses.subfr[sf] > 0 then inp.gains.nrgRes[sf] else 0
  }

  lemma VoicedRecovered(k: Codec, q: Predictor, inp: EncInput, out: DecOutput, ip: Internal)
    requires ip.lsf.stage1 == 1 && ip.block.Voiced? && |ip.pulses.subfr| == SUBFRAMES
    requires WfPitch(k.cc, k.pitch, q, ip.pulses.subfr, ip.block.pitch)
    requires ip.lsf == inp.lsf == out.lsf && ip.pulses == inp.pulses
    requires DescribesBlock(k, inp, ip.block) && ShowsBlock(k, out, CleanOf(ip).block)
    ensures out.gainIdx == inp.gainIdx && out.contour == inp.blocksegIdx && out.blockLags == inp.laginds
    ensures |out.filtIdx| == |inp.filtIdx| == SUBFRAMES
    ensures forall sf :: 0 <= sf < SUBFRAMES ==>
              out.filtIdx[sf] == if inp.pulses.subfr[sf] > 0 then inp.filtIdx[sf] else -1
  {
    hide LtpFit, WfLags, Spread, LagsFit, PitchTables.Contour;
  }

  lemma UnvoicedRecovered(k: Codec, inp: EncInput, out: DecOutput, ip: Internal)
    requires ip.lsf.stage1 != 1 && ip.block.Unvoiced? && |ip.pulses.subfr| == SUBFRAMES
    requires WfGains(k.cc, ip.pulses.subfr, ip.block.gains)
    requires ip.lsf == inp.lsf == out.lsf && ip.pulses == inp.pulses
    requires DescribesBlock(k, inp, ip.block) && ShowsBlock(k, out, CleanOf(ip).block)
    ensures out.gains.main == inp.gains.main && out.gains.delta == inp.gains.delta
    ensures |out.gains.nrgRes| == |inp.gains.nrgRes| == SUBFRAMES
    ensures forall sf :: 0 <= sf < SUBFRAMES ==>
              out.gains.nrgRes[sf] == if inp.pulses.subfr[sf] > 0 then inp.gains.nrgRes[sf] else 0
  {
    hide ResidualFits, GainQ;
  }

  lemma CleanKeeps(ip: Internal)
    ensures CleanOf(ip).lsf == ip.lsf && CleanOf(ip).pulses == ip.pulses
  {
  }

  lemma ParamsRecovered(k: Codec, p: Predictor, f: nat, inp: EncInput, out: DecOutput, ip: Internal)
    requires Fits(k, p, f, ip) && Describes(k, inp, ip) && Shows(k, out, CleanOf(ip))
    ensures Recovers(inp, out)
  {
    hide Fits, Codec.Wf, Tables.Wf, PitchTables.Wf, WfLsfParams, WfPulses, Usable, WfBlock, CleanOf, DescribesBlock,
      ShowsBlock, BlockSyms, AfterBlock, Wire, Next, LsfSyms, PulseSyms, Reconstruct, Placeable, AfterLsf;
    InternalParts(k, p, f, ip);
    CleanKeeps(ip);
    var q := AfterLsf(p, f, ip.lsf.stage1);
    if ip.lsf.stage1 == 1 {
      VoicedParts(k, q, ip.pulses.subfr, ip.block);
      VoicedRecovered(k, q, inp, out, ip);
    } else {
      UnvoicedParts(k, q, ip.lsf.stage1, ip.pulses.subfr, ip.block);
      UnvoicedRecovered(k, inp, out, ip);
    }
  }

  ghost predicate AllRecover(ins: seq<EncInput>, outs: seq<DecOutput>) {
    |ins| == |outs| && forall f :: 0 <= f < |ins| ==> Recovers(ins[f], outs[f])
  }

  lemma AllRecovered(k: Codec, p0: Predictor, ins: seq<EncInput>, outs: seq<DecOutput>, ips: seq<Internal>)
    requires WfFrame(k, p0, ips, |ips|) && AllDescribe(k, ins, ips) && AllShow(k, outs, CleanAll(ips))
    ensures AllRecover(ins, outs)
  {
    hide Fits, Describes, Shows, Recovers, CleanOf, PredAt;
    forall f | 0 <= f < |ins| ensures Recovers(ins[f], outs[f]) {
      ParamsRecovered(k, PredAt(k, p0, ips, f), f, ins[f], outs[f], ips[f]);
    }
  }

  /** Encode a frame and decode the result with a decoder in any state: every parameter
      on the wire comes back, and the two predictors end equal. */
  method Transmit(k: Codec, toc: Byte, ins: seq<EncInput>, st: LsfState, ghost ips: seq<Internal>)
    returns (sent: Result<seq<Byte>, FrameError>, outs: seq<DecOutput>)
    requires k.Wf() && |ins| == INTERNAL_FRAMES && AllDescribe(k, ins, ips) && toc / 4 % 2 == CONFIG
    requires WfFrame(k, Predictor(0, 0, 0, 0, 0), ips, INTERNAL_FRAMES)
    modifies st
    ensures sent.Ok? ==> AllRecover(ins, outs)
    ensures sent.Ok? ==> st.DecPred() == PredAt(k, Predictor(0, 0, 0, 0, 0), ips, INTERNAL_FRAMES)
  {
    hide Codec.Wf, WfFrame, Describes, PredAt, FrameSyms, Reads, Run, FrameRead, LsfState.DecPred, Recovers, InCode;
    outs := [];
    ghost var p0, d0 := Predictor(0, 0, 0, 0, 0), st.DecPred();
    sent := EncodeSmplFrame(k, toc, ins, ips);
    if sent.Ok? {
      ghost var ys, at;
      outs, ys, at := DecodeActiveFrame(k, st, sent.value);
      ReadLengths(k, d0, outs, ys, at, st.DecPred());
      FrameRecovered(k, p0, d0, sent.value[1..], ips, outs, ys, at, st.DecPred());
      AllRecovered(k, p0, ins, outs, ips);
    }
  }

  lemma ReadLengths(k: Codec, p0: Predictor, outs: seq<DecOutput>, ys: seq<Internal>, at: Interval, last: Predictor)
    requires FrameRead(k, p0, outs, ys, at, last)
    ensures |outs| == |ys| && AllShow(k, outs, ys)
  {
  }

  /** In particular, the pulse vector that was analysed is the one synthesized from. */
  lemma VectorArrives(inp: EncInput, out: DecOutput, v: seq<int>)
    requires Recovers(inp, out) && |v| == INTF_LEN && inp.pulses == ParamsOf(v)
    ensures out.vector == v
  {
    hide Placeable, Reconstruct, ParamsOf;
    VectorRoundTrip(v);
  }
}
