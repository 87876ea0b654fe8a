/** The decoder of a low-rate frame from any bytes.  Encoders of this codec do not write such
    frames; what is promised is that three well-formed internal frames are read, each under the
    predictor that the one before leaves. */
module LowFrame {
  import opened RangeSpec
  import opened RangeDecoding
  import opened CcTables
  import opened Lsf
  import opened PulseSpec
  import opened PulseVector
  import opened PulseLow
  import opened PitchSpec
  import opened PitchMem
  import opened FrameSpec
  import opened Frame

  const LOW_CONFIG: nat := 1

  datatype LowInternal = LowInternal(lsf: LsfParams, counts: LowCounts, pulses: PulseParams, block: Block)

  /** The codec with the tables of the low rate. */
  function Low(k: Codec): Codec {
    k.(cc := k.cc.For(LOW_CONFIG))
  }

  /** Only the gains and the weights of the long-term prediction differ between the rates. */
  lemma LowTables(k: Codec)
    ensures Low(k).cc == k.cc.(acbgains := k.cc.acbgainsLr, acbWeights := k.cc.acbWeightsLr)
    ensures k.cc.For(0) == k.cc
  {
  }

  lemma LowWf(k: Codec)
    requires k.Wf()
    ensures Low(k).Wf() && Low(k).pitch == k.pitch && Low(k).lsf == k.lsf
  {
    k.cc.ForWf(LOW_CONFIG);
  }

  // ---- one internal frame ----

  ghost predicate LowFits(k: Codec, p: Predictor, f: nat, ip: LowInternal) {
    && Ready(k, p, f) && WfLsfParams(k.lsf, p, LOW_CONFIG, f, ip.lsf)
    && WfLow(k.cc, ip.lsf.stage1, ip.counts) && WfPulses(k.cc, ip.pulses) && ip.pulses.subfr == ip.counts.Subfr()
    && var q := AfterLsf(p, f, ip.lsf.stage1);
       WfBlock(k, q, ip.lsf.stage1, ip.pulses.subfr, ip.block) && CleanBlock(ip.pulses.subfr, ip.block)
  }

  ghost function ShapeSyms(k: Codec, pp: PulseParams): seq<Sym>
    requires WfPulses(k.cc, pp)
  {
    MagSyms(k.cc, pp.subfr, pp.magRuns, SUBFRAMES)
    + SignSyms(Positions(pp.subfr, pp.magRuns, SUBFRAMES), pp.signSyms)
  }

  ghost function LowWire(k: Codec, p: Predictor, f: nat, ip: LowInternal): seq<Sym>
    requires LowFits(k, p, f, ip)
  {
    LsfUsable(k, p, f, ip.lsf.stage1);
    LsfSyms(k.lsf, p, LOW_CONFIG, f, ip.lsf)
    + ((LowSyms(k.cc, ip.lsf.stage1, ip.counts) + ShapeSyms(k, ip.pulses))
       + BlockSyms(k, AfterLsf(p, f, ip.lsf.stage1), ip.lsf.stage1, ip.pulses.subfr, ip.block))
  }

  ghost function LowNext(k: Codec, p: Predictor, f: nat, ip: LowInternal): Predictor
    requires LowFits(k, p, f, ip)
  {
    LsfUsable(k, p, f, ip.lsf.stage1);
    AfterBlock(k, AfterLsf(p, f, ip.lsf.stage1), ip.lsf.stage1, ip.pulses.subfr, ip.block)
  }

  /** From iv on, the symbols of ip lead to at and the predictor to last; out is what is handed on. */
  ghost predicate LowRead(k: Codec, p: Predictor, f: nat, ip: LowInternal, iv: Interval, at: Interval,
                          last: Predictor) {
    LowFits(k, p, f, ip) && at == Run(iv, LowWire(k, p, f, ip)) && last == LowNext(k, p, f, ip)
  }

  /** The vector handed on has in every subframe the absolute sum that was read. */
  ghost predicate LowShows(k: Codec, out: DecOutput, ip: LowInternal) {
    && out.lsf == ip.lsf && out.pulses == ip.pulses && ShowsBlock(k, out, ip.block)
    && Placeable(out.pulses) && out.vector == Reconstruct(out.pulses)
    && |out.vector| == INTF_LEN && Norms(out.vector) == ip.counts.Subfr()
  }

  lemma LowMade(k: Codec, p: Predictor, f: nat, ip: LowInternal, iv: Interval, mid: Interval, mid2: Interval,
                at: Interval, last: Predictor)
    requires Ready(k, p, f) && WfLsfParams(k.lsf, p, LOW_CONFIG, f, ip.lsf)
    requires WfLow(k.cc, ip.lsf.stage1, ip.counts) && WfPulses(k.cc, ip.pulses)
    requires ip.pulses.subfr == ip.counts.Subfr()
    requires mid == Run(iv, LsfSyms(k.lsf, p, LOW_CONFIG, f, ip.lsf))
    requires mid2 == Run(mid, LowSyms(k.cc, ip.lsf.stage1, ip.counts) + ShapeSyms(k, ip.pulses))
    requires BlockRead(k, AfterLsf(p, f, ip.lsf.stage1), ip.lsf.stage1, ip.pulses.subfr, ip.block, mid2, at, last)
    ensures LowRead(k, p, f, ip, iv, at, last)
  {
    hide Ready, Usable, WfLsfParams, WfPulses, WfLow, WfBlock, LsfSyms, LowSyms, ShapeSyms, BlockSyms, AfterBlock,
      AfterLsf, CleanBlock, Run, LowCounts.Subfr;
    LsfUsable(k, p, f, ip.lsf.stage1);
    var a := LsfSyms(k.lsf, p, LOW_CONFIG, f, ip.lsf);
    var b := LowSyms(k.cc, ip.lsf.stage1, ip.counts) + ShapeSyms(k, ip.pulses);
    var c := BlockSyms(k, AfterLsf(p, f, ip.lsf.stage1), ip.lsf.stage1, ip.pulses.subfr, ip.block);
    RunAppend(iv, a, b + c);
    RunAppend(Run(iv, a), b, c);
  }

  lemma LowSelector(k: Codec, p: Predictor, f: nat, lsf: LsfParams)
    requires k.Wf() && WfLsfParams(k.lsf, p, LOW_CONFIG, f, lsf)
    ensures lsf.stage1 < 2
  {
    hide Tables.Wf, PitchTables.Wf;
  }

  lemma LowParts(k: Codec, p: Predictor, f: nat)
    requires Ready(k, p, f)
    ensures k.Wf() && k.lsf.Wf() && k.cc.Wf() && k.pitch.Wf() && LOW_CONFIG < 2
  {
  }

  lemma LowShown(k: Codec, out: DecOutput, ip: LowInternal)
    requires out.lsf == ip.lsf && out.pulses == ip.pulses && ShowsBlock(k, out, ip.block)
    requires Placeable(ip.pulses) && out.vector == Reconstruct(ip.pulses) && |out.vector| == INTF_LEN
    requires Norms(out.vector) == ip.pulses.subfr == ip.counts.Subfr()
    ensures LowShows(k, out, ip)
  {
    hide ShowsBlock, Placeable, Reconstruct, Norms, LowCounts.Subfr;
  }

  lemma ShapeIs(k: Codec, pp: PulseParams)
    requires WfPulses(k.cc, pp)
    ensures |pp.subfr| == SUBFRAMES
    ensures ShapeSyms(k, pp) == MagSyms(k.cc, pp.subfr, pp.magRuns, SUBFRAMES)
                                + SignSyms(Positions(pp.subfr, pp.magRuns, SUBFRAMES), pp.signSyms)
  {
  }

  /** One internal frame out of any byte string. */
  method DecodeLowInternal(dec: RangeDecoder, k: Codec, mem: SmplMem, st: LsfState, f: nat)
    returns (out: DecOutput, ghost ip: LowInternal)
    requires dec.Valid() && Ready(k, st.DecPred(), f) && mem == MemOf(k.pitch)
    modifies dec, st
    ensures dec.Valid() && dec.err == old(dec.err)
    ensures LowRead(k, old(st.DecPred()), f, ip, old(dec.At()), dec.At(), st.DecPred())
    ensures LowShows(k, out, ip)
  {
    hide *;
    ghost var p, iv := st.DecPred(), dec.At();
    LowParts(k, p, f);
    var lsf := DecodeLsf(dec, k.lsf, st, LOW_CONFIG, f);
    LowSelector(k, p, f, lsf);
    LsfUsable(k, p, f, lsf.stage1);
    ghost var mid := dec.At();
    var pulses, vector; ghost var c;
    pulses, vector, c := DecodeLowPulses(dec, k.cc, lsf.stage1);
    PulseWidth(k.cc, pulses);
    ShapeIs(k, pulses);
    ghost var mid2 := dec.At();
    ghost var b;
    out, b := DecodeBlock(dec, k, mem, st, lsf, pulses, vector[..]);
    ip := LowInternal(lsf, c, pulses, b);
    LowMade(k, p, f, ip, iv, mid, mid2, dec.At(), st.DecPred());
    LowShown(k, out, ip);
  }

  // ---- the frame ----

  ghost function NextLow(k: Codec, p: Predictor, f: nat, ip: LowInternal): Predictor {
    if LowFits(k, p, f, ip) then LowNext(k, p, f, ip) else p
  }

  ghost function WireLow(k: Codec, p: Predictor, f: nat, ip: LowInternal): seq<Sym> {
    if LowFits(k, p, f, ip) then LowWire(k, p, f, ip) else []
  }

  /** Predictor after the internal frames. */
  ghost function LowPred(k: Codec, p0: Predictor, ips: seq<LowInternal>): Predictor {
    if ips == [] then p0
    else
      var n := |ips| - 1;
      NextLow(k, LowPred(k, p0, ips[..n]), n, ips[n])
  }

  ghost function LowFrameSyms(k: Codec, p0: Predictor, ips: seq<LowInternal>): seq<Sym> {
    if ips == [] then []
    else
      var n := |ips| - 1;
      LowFrameSyms(k, p0, ips[..n]) + WireLow(k, LowPred(k, p0, ips[..n]), n, ips[n])
  }

  ghost predicate WfLowFrame(k: Codec, p0: Predictor, ips: seq<LowInternal>) {
    ips != [] ==>
      var n := |ips| - 1;
      WfLowFrame(k, p0, ips[..n]) && LowFits(k, LowPred(k, p0, ips[..n]), n, ips[n])
  }

  ghost predicate AllLowShow(k: Codec, outs: seq<DecOutput>, ips: seq<LowInternal>) {
    |outs| == |ips| && forall i :: 0 <= i < |ips| ==> LowShows(k, outs[i], ips[i])
  }

  lemma LowShowSnoc(k: Codec, outs: seq<DecOutput>, ips: seq<LowInternal>, out: DecOutput, ip: LowInternal)
    requires AllLowShow(k, outs, ips) && LowShows(k, out, ip)
    ensures AllLowShow(k, outs + [out], ips + [ip]) && |outs + [out]| == |ips + [ip]| == |ips| + 1
  {
    hide LowShows;
  }

  /** The internal frames read so far, and what is handed on for each. */
  ghost predicate LowFrameRead(k: Codec, p0: Predictor, outs: seq<DecOutput>, ips: seq<LowInternal>, at: Interval,
                               last: Predictor) {
    && AllLowShow(k, outs, ips) && WfLowFrame(k, p0, ips)
    && at == Run(START, LowFrameSyms(k, p0, ips)) && last == LowPred(k, p0, ips)
  }

  lemma LowFrameNone(k: Codec, p0: Predictor)
    requires k.Wf()
    ensures LowFrameRead(k, p0, [], [], START, p0) && Ready(k, p0, 0)
  {
  }

  lemma LowFrameStep(k: Codec, p0: Predictor, outs: seq<DecOutput>, ips: seq<LowInternal>, at0: Interval, p: Predictor,
                     out: DecOutput, ip: LowInternal, at: Interval, last: Predictor)
    requires LowFrameRead(k, p0, outs, ips, at0, p) && LowRead(k, p, |ips|, ip, at0, at, last) && LowShows(k, out, ip)
    ensures |outs + [out]| == |ips + [ip]| == |ips| + 1
    ensures LowFrameRead(k, p0, outs + [out], ips + [ip], at, last) && Ready(k, last, |ips| + 1)
  {
    LowReadParts(k, p, |ips|, ip, at0, at, last);
    LowSnoc(k, p0, ips, ip);
    LowShowSnoc(k, outs, ips, out, ip);
    hide AllLowShow, LowRead, LowFits, LowShows, Run, Ready, WireLow, NextLow, LowFrameSyms, LowPred, WfLowFrame;
    RunAppend(START, LowFrameSyms(k, p0, ips), WireLow(k, p, |ips|, ip));
  }

  lemma LowReadParts(k: Codec, p: Predictor, f: nat, ip: LowInternal, iv: Interval, at: Interval, last: Predictor)
    requires LowRead(k, p, f, ip, iv, at, last)
    ensures LowFits(k, p, f, ip) && Ready(k, last, f + 1)
    ensures at == Run(iv, WireLow(k, p, f, ip)) && last == NextLow(k, p, f, ip)
  {
    LowReady(k, p, f, ip);
    hide LowFits, LowWire, LowNext, Run, Ready;
  }

  lemma LowSnoc(k: Codec, p0: Predictor, ips: seq<LowInternal>, ip: LowInternal)
    ensures var p, n := LowPred(k, p0, ips), |ips|;
            && LowPred(k, p0, ips + [ip]) == NextLow(k, p, n, ip)
            && LowFrameSyms(k, p0, ips + [ip]) == LowFrameSyms(k, p0, ips) + WireLow(k, p, n, ip)
            && (WfLowFrame(k, p0, ips + [ip]) <==> WfLowFrame(k, p0, ips) && LowFits(k, p, n, ip))
  {
    hide LowFits, WireLow, NextLow;
    assert (ips + [ip])[..|ips|] == ips;
  }

  lemma LowReady(k: Codec, p: Predictor, f: nat, ip: LowInternal)
    requires LowFits(k, p, f, ip)
    ensures Ready(k, LowNext(k, p, f, ip), f + 1)
  {
    hide Tables.Wf, PitchTables.Wf, LsfTables.Wf, WfLsfParams, WfLow, WfPulses, WfBlock, CleanBlock,
      AfterLsf, AfterBlock;
    LsfUsable(k, p, f, ip.lsf.stage1);
    AfterBlockWf(k, AfterLsf(p, f, ip.lsf.stage1), ip.lsf.stage1, ip.pulses.subfr, ip.block);
  }

  /** One more internal frame behind those read so far. */
  method DecodeLowNext(dec: RangeDecoder, k: Codec, mem: SmplMem, st: LsfState, f: nat, ghost p0: Predictor,
                       outs: seq<DecOutput>, ghost ips: seq<LowInternal>)
    returns (outs1: seq<DecOutput>, ghost ips1: seq<LowInternal>)
    requires dec.Valid() && mem == MemOf(k.pitch) && |outs| == |ips| == f
    requires LowFrameRead(k, p0, outs, ips, dec.At(), st.DecPred()) && Ready(k, st.DecPred(), f)
    modifies dec, st
    ensures dec.Valid() && |outs1| == |ips1| == f + 1
    ensures LowFrameRead(k, p0, outs1, ips1, dec.At(), st.DecPred()) && Ready(k, st.DecPred(), f + 1)
  {
    hide *;
    ghost var at0, p := dec.At(), st.DecPred();
    var out; ghost var ip;
    out, ip := DecodeLowInternal(dec, k, mem, st, f);
    LowFrameStep(k, p0, outs, ips, at0, p, out, ip, dec.At(), st.DecPred());
    outs1, ips1 := outs + [out], ips + [ip];
  }

  /** Any non-empty low-rate frame is read as three internal frames, from any predictor state. */
  method DecodeLowFrame(k: Codec, st: LsfState, frame: seq<Byte>)
    returns (outs: seq<DecOutput>, ghost ips: seq<LowInternal>, ghost at: Interval)
    requires k.Wf() && |frame| >= 1 && frame[0] / 4 % 2 == LOW_CONFIG
    modifies st
    ensures |outs| == INTERNAL_FRAMES && LowFrameRead(Low(k), old(st.DecPred()), outs, ips, at, st.DecPred())
    ensures InCode(frame[1..], at)
  {
    assert INTERNAL_FRAMES == 3;
    hide *;
    ghost var p0 := st.DecPred();
    LowWf(k);
    var mem := MemOf(k.pitch);
    var dec := new RangeDecoder(frame[1..]);
    outs, ips := [], [];
    LowFrameNone(Low(k), p0);
    for f := 0 to INTERNAL_FRAMES
      invariant dec.Valid() && fresh(dec) && dec.buf == frame[1..] && |outs| == |ips| == f
      invariant LowFrameRead(Low(k), p0, outs, ips, dec.At(), st.DecPred()) && Ready(Low(k), st.DecPred(), f)
    {
      outs, ips := DecodeLowNext(dec, Low(k), mem, st, f, p0, outs, ips);
    }
    at := dec.At();
    CodeIsHere(dec);
  }
}
