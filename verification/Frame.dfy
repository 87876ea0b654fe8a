/** The encoder of a frame, and the decoder of one from any bytes. */
module Frame {
  import opened Basics
  import opened RangeSpec
  import opened RangeEncoding
  import opened RangeDecoding
  import opened CcTables
  import opened Lsf
  import opened PulseSpec
  import opened PulseVector
  import opened PulseBlock
  import opened Gains
  import opened Ltp
  import opened PitchSpec
  import opened PitchMem
  import opened PitchBlock
  import opened FrameSpec

  const ENCODE_BUF_BYTES := 512

  datatype FrameError = Overflow

  /** One internal frame as the analysis hands it to the encoder: both blocks are there,
      the line-spectrum selector decides which one is sent. */
  datatype EncInput = EncInput(lsf: LsfParams, pulses: PulseParams, gains: GainParams,
                               gainIdx: seq<nat>, filtIdx: seq<int>, blocksegIdx: nat, laginds: seq<nat>)

  /** One internal frame as the decoder hands it to the synthesis. */
  datatype DecOutput = DecOutput(lsf: LsfParams, pulses: PulseParams, vector: seq<int>, gains: GainParams,
                                 gainQ: seq<int>, gainIdx: seq<nat>, filtIdx: seq<int>,
                                 contour: nat, blockLags: seq<int>)

  ghost predicate DescribesBlock(k: Codec, inp: EncInput, b: Block) {
    if inp.lsf.stage1 == 1 then
      && b.Voiced? && b.pitch.gains == inp.gainIdx && b.pitch.filts == inp.filtIdx
      && PitchInput(k.pitch, b.pitch, inp.blocksegIdx, inp.laginds)
    else b == Unvoiced(inp.gains)
  }

  ghost predicate Describes(k: Codec, inp: EncInput, ip: Internal) {
    ip.lsf == inp.lsf && ip.pulses == inp.pulses && DescribesBlock(k, inp, ip.block)
  }

  ghost predicate ShowsBlock(k: Codec, out: DecOutput, b: Block) {
    if out.lsf.stage1 == 1 then
      && b.Voiced? && b.pitch.gains == out.gainIdx && b.pitch.filts == out.filtIdx
      && b.pitch.lag.contour == out.contour && LagSlots(k.pitch, b.pitch.lag, out.blockLags)
    else
      && b == Unvoiced(out.gains) && |out.gainQ| == SUBFRAMES
      && forall sf :: 0 <= sf < SUBFRAMES ==> out.gainQ[sf] == GainQ(k.cc, out.gains.main, out.gains.delta, sf)
  }

  ghost predicate Shows(k: Codec, out: DecOutput, ip: Internal) {
    && ip.lsf == out.lsf && ip.pulses == out.pulses && ShowsBlock(k, out, ip.block)
    && Placeable(out.pulses) && out.vector == Reconstruct(out.pulses)
  }

  // ---- the parts of an internal frame ----

  lemma InternalParts(k: Codec, p: Predictor, f: nat, ip: Internal)
    requires Fits(k, p, f, ip)
    ensures k.Wf() && k.lsf.Wf() && CONFIG < 2 && k.cc.Wf() && k.pitch.Wf()
    ensures WfLsfParams(k.lsf, p, CONFIG, f, ip.lsf) && WfPulses(k.cc, ip.pulses)
    ensures ip.lsf.stage1 < 2 && |ip.pulses.subfr| == SUBFRAMES
    ensures var q := AfterLsf(p, f, ip.lsf.stage1);
            && Usable(k, q) && WfBlock(k, q, ip.lsf.stage1, ip.pulses.subfr, ip.block)
            && Wire(k, p, f, ip) == LsfSyms(k.lsf, p, CONFIG, f, ip.lsf)
                 + (PulseSyms(k.cc, ip.pulses) + BlockSyms(k, q, ip.lsf.stage1, ip.pulses.subfr, ip.block))
            && Next(k, p, f, ip) == AfterBlock(k, q, ip.lsf.stage1, ip.pulses.subfr, ip.block)
  {
    hide Tables.Wf, PitchTables.Wf, WfBlock, AfterLsf, LsfSyms, PulseSyms, BlockSyms, AfterBlock, WfPredictor;
    LsfUsable(k, p, f, ip.lsf.stage1);
    SelectorIsBinary(k, p, f, ip.lsf);
  }

  lemma SelectorIsBinary(k: Codec, p: Predictor, f: nat, lsf: LsfParams)
    requires k.Wf() && WfLsfParams(k.lsf, p, CONFIG, f, lsf)
    ensures lsf.stage1 < 2
  {
    hide Tables.Wf, PitchTables.Wf;
  }

  lemma VoicedParts(k: Codec, q: Predictor, counts: seq<nat>, b: Block)
    requires Usable(k, q) && WfBlock(k, q, 1, counts, b)
    ensures b.Voiced? && WfPitch(k.cc, k.pitch, q, counts, b.pitch) && WfPredictor(q) && WfPred(q)
    ensures BlockSyms(k, q, 1, counts, b) == PitchSyms(k.cc, k.pitch, q, counts, b.pitch)
    ensures AfterBlock(k, q, 1, counts, b) == AfterPitch(k.cc, k.pitch, q, counts, b.pitch)
  {
    hide Codec.Wf, WfPitch, WfPred, WfState, PitchSyms, AfterPitch;
  }

  lemma UnvoicedParts(k: Codec, q: Predictor, stage1: nat, counts: seq<nat>, b: Block)
    requires Usable(k, q) && stage1 != 1 && WfBlock(k, q, stage1, counts, b)
    ensures b.Unvoiced? && WfGains(k.cc, counts, b.gains)
    ensures BlockSyms(k, q, stage1, counts, b) == GainSyms(k.cc, counts, b.gains)
    ensures AfterBlock(k, q, stage1, counts, b) == q
  {
    hide Codec.Wf, WfGains, WfPred, WfState, GainSyms;
  }

  // ---- encoder ----

  method EncodeBlock(enc: RangeEncoder, k: Codec, st: LsfState, inp: EncInput, ghost b: Block)
    requires enc.Valid() && k.Wf() && k.cc.Wf() && k.pitch.Wf() && Usable(k, st.EncPred())
    requires WfBlock(k, st.EncPred(), inp.lsf.stage1, inp.pulses.subfr, b) && DescribesBlock(k, inp, b)
    modifies enc, enc.buf, st
    ensures enc.Valid() && enc.Misused == old(enc.Misused)
    ensures enc.Syms == old(enc.Syms) + BlockSyms(k, old(st.EncPred()), inp.lsf.stage1, inp.pulses.subfr, b)
    ensures st.EncPred() == AfterBlock(k, old(st.EncPred()), inp.lsf.stage1, inp.pulses.subfr, b)
  {
    ghost var q := st.EncPred();
    ghost var counts := inp.pulses.subfr;
    hide RangeEncoder.Valid, Codec.Wf, Tables.Wf, PitchTables.Wf, Usable, WfBlock, BlockSyms, AfterBlock,
      PitchSyms, AfterPitch, GainSyms, WfPitch, WfGains, WfPredictor, WfPred, PitchInput;
    if inp.lsf.stage1 == 1 {
      VoicedParts(k, q, counts, b);
      EncodePitch(enc, k.cc, k.pitch, st, inp.pulses.subfr, inp.gainIdx, inp.filtIdx, inp.blocksegIdx, inp.laginds,
          b.pitch);
    } else {
      UnvoicedParts(k, q, inp.lsf.stage1, counts, b);
      EncodeGains(enc, k.cc, inp.pulses.subfr, inp.gains);
    }
  }

  lemma DescribesParts(k: Codec, inp: EncInput, ip: Internal)
    requires Describes(k, inp, ip)
    ensures ip.lsf == inp.lsf && ip.pulses == inp.pulses && DescribesBlock(k, inp, ip.block)
  {
  }

  /** One internal frame: line spectrum, excitation, then pitch or gains. */
  method EncodeInternal(enc: RangeEncoder, k: Codec, st: LsfState, f: nat, inp: EncInput, ghost ip: Internal)
    requires enc.Valid() && Fits(k, st.EncPred(), f, ip) && Describes(k, inp, ip)
    modifies enc, enc.buf, st
    ensures enc.Valid() && enc.Misused == old(enc.Misused)
    ensures enc.Syms == old(enc.Syms) + Wire(k, old(st.EncPred()), f, ip)
    ensures st.EncPred() == Next(k, old(st.EncPred()), f, ip)
  {
    hide *;
    ghost var p := st.EncPred();
    InternalParts(k, p, f, ip);
    DescribesParts(k, inp, ip);
    EncodeLsf(enc, k.lsf, st, CONFIG, f, inp.lsf);
    EncodePulses(enc, k.cc, inp.lsf.stage1, inp.pulses);
    EncodeBlock(enc, k, st, inp, ip.block);
    ThreeParts(LsfSyms(k.lsf, p, CONFIG, f, ip.lsf), PulseSyms(k.cc, ip.pulses),
               BlockSyms(k, AfterLsf(p, f, ip.lsf.stage1), ip.lsf.stage1, ip.pulses.subfr, ip.block), old(enc.Syms));
  }

  ghost predicate AllDescribe(k: Codec, ins: seq<EncInput>, ips: seq<Internal>) {
    |ins| == |ips| && forall f :: 0 <= f < |ins| ==> Describes(k, ins[f], ips[f])
  }

  /** One frame: the byte in front, then the range-coded body.  It fails exactly when the
      body does not fit the buffer. */
  method EncodeSmplFrame(k: Codec, toc: Byte, ins: seq<EncInput>, ghost ips: seq<Internal>)
    returns (r: Result<seq<Byte>, FrameError>)
    requires |ins| == INTERNAL_FRAMES && AllDescribe(k, ins, ips)
    requires WfFrame(k, Predictor(0, 0, 0, 0, 0), ips, INTERNAL_FRAMES)
    ensures r.Ok? ==>
              && |r.value| >= 1 && r.value[0] == toc
              && Reads(r.value[1..], START, FrameSyms(k, Predictor(0, 0, 0, 0, 0), ips, INTERNAL_FRAMES))
    ensures var n := Run(START, FrameSyms(k, Predictor(0, 0, 0, 0, 0), ips, INTERNAL_FRAMES)).bytes;
            && (r.Ok? ==> n - 4 <= |r.value| - 1 <= n - 2 && |r.value| <= 2 + ENCODE_BUF_BYTES)
            && (r.Err? ==> n - 2 > 1 + ENCODE_BUF_BYTES)
  {
    hide RangeEncoder.Valid, Fits, Wire, Next, Describes, Run, LsfState.EncPred;
    var enc := new RangeEncoder(1 + ENCODE_BUF_BYTES);
    var st := new LsfState();
    ghost var p0 := Predictor(0, 0, 0, 0, 0);
    for f := 0 to INTERNAL_FRAMES
      invariant enc.Valid() && !enc.Misused && fresh(enc) && fresh(enc.buf) && fresh(st)
      invariant enc.buf.Length == 1 + ENCODE_BUF_BYTES
      invariant st.EncPred() == PredAt(k, p0, ips, f)
      invariant enc.Syms == FrameSyms(k, p0, ips, f)
    {
      EncodeInternal(enc, k, st, f, ins[f], ips[f]);
    }
    enc.Done();
    if enc.err != 0 {
      return Err(Overflow);
    }
    var body := enc.buf[..enc.offs];
    assert InCode(body + [], Run(START, enc.Syms));
    assert body + [] == body;
    r := Ok([toc] + body);
    assert r.value[1..] == body;
  }

  // ---- decoder ----

  /** From iv on, the symbols of ip lead to at and the predictor to last. */
  ghost predicate InternalRead(k: Codec, p: Predictor, f: nat, ip: Internal, iv: Interval, at: Interval,
                               last: Predictor) {
    && Fits(k, p, f, ip) && Clean(ip)
    && at == Run(iv, Wire(k, p, f, ip)) && last == Next(k, p, f, ip)
  }

  ghost predicate BlockRead(k: Codec, q: Predictor, stage1: nat, counts: seq<nat>, b: Block,
                            iv: Interval, at: Interval, last: Predictor)
  {
    && Usable(k, q) && WfBlock(k, q, stage1, counts, b) && CleanBlock(counts, b)
    && at == Run(iv, BlockSyms(k, q, stage1, counts, b)) && last == AfterBlock(k, q, stage1, counts, b)
  }

  lemma VoicedRead(k: Codec, q: Predictor, counts: seq<nat>, pp: PitchParams, iv: Interval, at: Interval,
                   last: Predictor)
    requires Usable(k, q) && PitchRead(k.cc, k.pitch, q, counts, pp, iv, at, last)
    ensures BlockRead(k, q, 1, counts, Voiced(pp), iv, at, last)
  {
    hide Codec.Wf, WfPitch, WfPredictor, PitchSyms, AfterPitch, NoFilter, WfPred, PitchTables.Wf, Run;
  }

  lemma UnvoicedRead(k: Codec, q: Predictor, stage1: nat, counts: seq<nat>, gp: GainParams, iv: Interval, at: Interval)
    requires Usable(k, q) && stage1 != 1 && WfGains(k.cc, counts, gp) && Quiet(counts, gp.nrgRes)
    requires at == Run(iv, GainSyms(k.cc, counts, gp))
    ensures BlockRead(k, q, stage1, counts, Unvoiced(gp), iv, at, q)
  {
    hide Codec.Wf, WfGains, GainSyms, Quiet, Run;
  }

  lemma InternalMade(k: Codec, p: Predictor, f: nat, ip: Internal, iv: Interval, mid: Interval, mid2: Interval,
                     at: Interval, last: Predictor)
    requires Ready(k, p, f) && WfLsfParams(k.lsf, p, CONFIG, f, ip.lsf) && WfPulses(k.cc, ip.pulses)
    requires mid == Run(iv, LsfSyms(k.lsf, p, CONFIG, f, ip.lsf)) && mid2 == Run(mid, PulseSyms(k.cc, ip.pulses))
    requires BlockRead(k, AfterLsf(p, f, ip.lsf.stage1), ip.lsf.stage1, ip.pulses.subfr, ip.block, mid2, at, last)
    ensures InternalRead(k, p, f, ip, iv, at, last)
  {
    hide Ready, Usable, WfLsfParams, WfPulses, WfBlock, LsfSyms, PulseSyms, BlockSyms, AfterBlock, AfterLsf,
      CleanBlock, Run;
    LsfUsable(k, p, f, ip.lsf.stage1);
    var a, b, c := LsfSyms(k.lsf, p, CONFIG, f, ip.lsf), PulseSyms(k.cc, ip.pulses),
                   BlockSyms(k, AfterLsf(p, f, ip.lsf.stage1), ip.lsf.stage1, ip.pulses.subfr, ip.block);
    RunAppend(iv, a, b + c);
    RunAppend(Run(iv, a), b, c);
  }

  /** Pitch or gains, by the selector. */
  method DecodeBlock(dec: RangeDecoder, k: Codec, mem: SmplMem, st: LsfState, lsf: LsfParams, pulses: PulseParams,
                     vector: seq<int>)
    returns (out: DecOutput, ghost b: Block)
    requires dec.Valid() && k.cc.Wf() && k.pitch.Wf() && Usable(k, st.DecPred()) && mem == MemOf(k.pitch)
    requires |pulses.subfr| == SUBFRAMES && lsf.stage1 < 2
    modifies dec, st
    ensures dec.Valid() && dec.err == old(dec.err)
    ensures BlockRead(k, old(st.DecPred()), lsf.stage1, pulses.subfr, b, old(dec.At()), dec.At(), st.DecPred())
    ensures out.lsf == lsf && out.pulses == pulses && out.vector == vector && ShowsBlock(k, out, b)
  {
    ghost var q, iv := st.DecPred(), dec.At();
    hide RangeDecoder.Valid, RangeDecoder.At, Codec.Wf, Tables.Wf, PitchTables.Wf, MemOf, BlockRead, PitchRead,
      WfGains, Quiet, GainSyms, Run, LagSlots, GainQ, WfPredictor;
    var counts := pulses.subfr;
    if lsf.stage1 == 1 {
      var gains, filts, contour, blockLags; ghost var pp;
      UsableParts(k, q);
      gains, filts, contour, blockLags, pp := DecodePitch(dec, k.cc, mem, st, counts, k.pitch);
      out := DecOutput(lsf, pulses, vector, GainParams(0, 0, []), [], gains, filts, contour, blockLags[..]);
      VoicedRead(k, q, counts, pp, iv, dec.At(), st.DecPred());
      b := Voiced(pp);
    } else {
      var gp, gainQ := DecodeGains(dec, k.cc, counts);
      out := DecOutput(lsf, pulses, vector, gp, gainQ, [], [], 0, []);
      UnvoicedRead(k, q, lsf.stage1, counts, gp, iv, dec.At());
      b := Unvoiced(gp);
    }
  }

  lemma UsableParts(k: Codec, q: Predictor)
    requires Usable(k, q)
    ensures WfPredictor(q)
  {
  }

  lemma ReadyParts(k: Codec, p: Predictor, f: nat)
    requires Ready(k, p, f)
    ensures k.lsf.Wf() && CONFIG < 2 && k.cc.Wf() && k.pitch.Wf() && k.Wf()
  {
  }

  lemma PulseWidth(cc: Tables, pp: PulseParams)
    requires WfPulses(cc, pp)
    ensures |pp.subfr| == SUBFRAMES
  {
  }

  /** One internal frame out of any byte string. */
  method DecodeInternal(dec: RangeDecoder, k: Codec, mem: SmplMem, st: LsfState, f: nat)
    returns (out: DecOutput, ghost ip: Internal)
    requires dec.Valid() && Ready(k, st.DecPred(), f) && mem == MemOf(k.pitch)
    modifies dec, st
    ensures dec.Valid() && dec.err == old(dec.err)
    ensures InternalRead(k, old(st.DecPred()), f, ip, old(dec.At()), dec.At(), st.DecPred())
    ensures Shows(k, out, ip)
  {
    hide *;
    ghost var p, iv := st.DecPred(), dec.At();
    ReadyParts(k, p, f);
    var lsf := DecodeLsf(dec, k.lsf, st, CONFIG, f);
    SelectorIsBinary(k, p, f, lsf);
    LsfUsable(k, p, f, lsf.stage1);
    ghost var mid := dec.At();
    var pulses, vector := DecodePulses(dec, k.cc, lsf.stage1);
    PulseWidth(k.cc, pulses);
    ghost var mid2 := dec.At();
    ghost var b;
    out, b := DecodeBlock(dec, k, mem, st, lsf, pulses, vector[..]);
    ip := Internal(lsf, pulses, b);
    InternalMade(k, p, f, ip, iv, mid, mid2, dec.At(), st.DecPred());
    ShowsMade(k, out, ip);
  }

  lemma ShowsMade(k: Codec, out: DecOutput, ip: Internal)
    requires ip.lsf == out.lsf && ip.pulses == out.pulses && ShowsBlock(k, out, ip.block)
    requires Placeable(out.pulses) && out.vector == Reconstruct(out.pulses)
    ensures Shows(k, out, ip)
  {
  }

  ghost predicate AllShow(k: Codec, outs: seq<DecOutput>, ips: seq<Internal>) {
    |outs| == |ips| && forall f :: 0 <= f < |outs| ==> Shows(k, outs[f], ips[f])
  }

  lemma FrameStep(k: Codec, p0: Predictor, ips: seq<Internal>, ip: Internal, iv: Interval, at0: Interval, at: Interval,
                  last: Predictor)
    requires WfFrame(k, p0, ips, |ips|) && AllClean(ips) && at0 == Run(iv, FrameSyms(k, p0, ips, |ips|))
    requires InternalRead(k, PredAt(k, p0, ips, |ips|), |ips|, ip, at0, at, last)
    ensures WfFrame(k, p0, ips + [ip], |ips| + 1) && AllClean(ips + [ip])
    ensures at == Run(iv, FrameSyms(k, p0, ips + [ip], |ips| + 1)) && last == PredAt(k, p0, ips + [ip], |ips| + 1)
  {
    hide Fits, Clean, Run, Wire, Next;
    FrameKept(k, p0, ips, ip, |ips|);
    RunAppend(iv, FrameSyms(k, p0, ips, |ips|), Wire(k, PredAt(k, p0, ips, |ips|), |ips|, ip));
    forall i | 0 <= i <= |ips| ensures Fits(k, PredAt(k, p0, ips + [ip], i), i, (ips + [ip])[i]) {
      FrameKept(k, p0, ips, ip, i);
    }
  }

  lemma {:induction false} FrameKept(k: Codec, p0: Predictor, ips: seq<Internal>, ip: Internal, f: nat)
    requires f <= |ips|
    ensures PredAt(k, p0, ips + [ip], f) == PredAt(k, p0, ips, f)
    ensures FrameSyms(k, p0, ips + [ip], f) == FrameSyms(k, p0, ips, f)
  {
    hide Wire, Next;
    if f > 0 {
      FrameKept(k, p0, ips, ip, f - 1);
    }
  }

  /** The internal frames read so far: outs are the values handed on, ips the parameters
      whose symbols lead from the start of the body to at, last the predictor reached. */
  ghost predicate FrameRead(k: Codec, p0: Predictor, outs: seq<DecOutput>, ips: seq<Internal>, at: Interval,
                            last: Predictor) {
    && |outs| == |ips| && AllShow(k, outs, ips) && AllClean(ips)
    && WfFrame(k, p0, ips, |ips|) && Ready(k, last, |ips|) && last == PredAt(k, p0, ips, |ips|)
    && at == Run(START, FrameSyms(k, p0, ips, |ips|))
  }

  lemma FrameReadNone(k: Codec, p0: Predictor)
    requires k.Wf()
    ensures FrameRead(k, p0, [], [], START, p0) && Ready(k, p0, 0)
  {
    hide Codec.Wf, Fits, Shows, Clean, Step, WfPredictor;
    RunOne(START, Sym(0, 1, 1));
  }

  lemma FrameReadStep(k: Codec, p0: Predictor, outs: seq<DecOutput>, ips: seq<Internal>, at0: Interval, p: Predictor,
                      out: DecOutput, ip: Internal, at: Interval, last: Predictor)
    requires FrameRead(k, p0, outs, ips, at0, p) && InternalRead(k, p, |ips|, ip, at0, at, last) && Shows(k, out, ip)
    ensures |outs + [out]| == |ips + [ip]| == |ips| + 1
    ensures FrameRead(k, p0, outs + [out], ips + [ip], at, last) && Ready(k, last, |ips| + 1)
  {
    hide Shows, Clean, Run, FrameSyms, PredAt, WfFrame, InternalRead, Ready;
    FrameStep(k, p0, ips, ip, START, at0, at, last);
    ReadNext(k, p, |ips|, ip, at0, at, last);
  }

  /** One more internal frame behind those read so far. */
  method DecodeNext(dec: RangeDecoder, k: Codec, mem: SmplMem, st: LsfState, f: nat, ghost p0: Predictor,
                    outs: seq<DecOutput>, ghost ips: seq<Internal>)
    returns (outs1: seq<DecOutput>, ghost ips1: seq<Internal>)
    requires dec.Valid() && k.Wf() && mem == MemOf(k.pitch) && f < INTERNAL_FRAMES && |outs| == |ips| == f
    requires FrameRead(k, p0, outs, ips, dec.At(), st.DecPred()) && Ready(k, st.DecPred(), f)
    modifies dec, st
    ensures dec.Valid() && |outs1| == |ips1| == f + 1
    ensures FrameRead(k, p0, outs1, ips1, dec.At(), st.DecPred()) && Ready(k, st.DecPred(), f + 1)
  {
    hide *;
    ghost var at0, p := dec.At(), st.DecPred();
    var out; ghost var ip;
    out, ip := DecodeInternal(dec, k, mem, st, f);
    FrameReadStep(k, p0, outs, ips, at0, p, out, ip, dec.At(), st.DecPred());
    outs1, ips1 := outs + [out], ips + [ip];
  }

  /** The parameter decode of one frame, whatever its bytes and whatever the predictor
      state left by the last packet. */
  method DecodeActiveFrame(k: Codec, st: LsfState, frame: seq<Byte>)
    returns (outs: seq<DecOutput>, ghost ips: seq<Internal>, ghost at: Interval)
    requires k.Wf() && |frame| >= 1 && frame[0] / 4 % 2 == CONFIG
    modifies st
    ensures |outs| == INTERNAL_FRAMES && FrameRead(k, old(st.DecPred()), outs, ips, at, st.DecPred())
    ensures InCode(frame[1..], at)
  {
    assert INTERNAL_FRAMES == 3;
    hide *;
    ghost var p0 := st.DecPred();
    var mem := MemOf(k.pitch);
    var dec := new RangeDecoder(frame[1..]);
    outs, ips := [], [];
    FrameReadNone(k, p0);
    for f := 0 to INTERNAL_FRAMES
      invariant dec.Valid() && fresh(dec) && dec.buf == frame[1..] && |outs| == |ips| == f
      invariant FrameRead(k, p0, outs, ips, dec.At(), st.DecPred()) && Ready(k, st.DecPred(), f)
    {
      outs, ips := DecodeNext(dec, k, mem, st, f, p0, outs, ips);
    }
    at := dec.At();
    CodeIsHere(dec);
  }

  lemma ReadNext(k: Codec, p: Predictor, f: nat, ip: Internal, iv: Interval, at: Interval, last: Predictor)
    requires InternalRead(k, p, f, ip, iv, at, last)
    ensures Ready(k, last, f + 1)
  {
    hide Fits, Clean, Run, Wire, Next, Ready;
    ReadyAfter(k, p, f, ip);
  }

  /** A decoder's own bytes always lie in the interval it has reached. */
  lemma CodeIsHere(dec: RangeDecoder)
    requires dec.Valid()
    ensures InCode(dec.buf, dec.At())
  {
  }
}
