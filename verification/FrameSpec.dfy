/** A whole frame: three internal frames that share a predictor. */
module FrameSpec {
  import opened RangeSpec
  import opened CcTables
  import opened Lsf
  import opened PulseSpec
  import opened Gains
  import opened Ltp
  import opened PitchSpec
  import opened PitchBlock

  const INTERNAL_FRAMES := 3
  const CONFIG: nat := 0

  datatype Codec = Codec(lsf: LsfTables, cc: Tables, pitch: PitchTables) {
    /** Stage-1 selectors have two values, so a frame is voiced or unvoiced. */
    ghost predicate Wf() {
      lsf.Wf() && cc.Wf() && pitch.Wf()
    }
  }

  datatype Block = Voiced(pitch: PitchParams) | Unvoiced(gains: GainParams)

  datatype Internal = Internal(lsf: LsfParams, pulses: PulseParams, block: Block)

  // ---- gain or pitch block ----

  ghost predicate WfBlock(k: Codec, q: Predictor, stage1: nat, counts: seq<nat>, b: Block) {
    if stage1 == 1 then b.Voiced? && WfPitch(k.cc, k.pitch, q, counts, b.pitch)
    else b.Unvoiced? && WfGains(k.cc, counts, b.gains)
  }

  ghost predicate Usable(k: Codec, q: Predictor) {
    k.Wf() && WfPredictor(q)
  }

  ghost function BlockSyms(k: Codec, q: Predictor, stage1: nat, counts: seq<nat>, b: Block): seq<Sym>
    requires Usable(k, q) && WfBlock(k, q, stage1, counts, b)
  {
    if stage1 == 1 then PitchSyms(k.cc, k.pitch, q, counts, b.pitch) else GainSyms(k.cc, counts, b.gains)
  }

  ghost function AfterBlock(k: Codec, q: Predictor, stage1: nat, counts: seq<nat>, b: Block): Predictor
    requires Usable(k, q) && WfBlock(k, q, stage1, counts, b)
  {
    if stage1 == 1 then AfterPitch(k.cc, k.pitch, q, counts, b.pitch) else q
  }

  /** As the decoder reports a block: nothing where nothing is on the wire. */
  ghost predicate CleanBlock(counts: seq<nat>, b: Block) {
    match b
    case Voiced(pp) => NoFilter(counts, pp.filts)
    case Unvoiced(gp) => Quiet(counts, gp.nrgRes)
  }

  lemma BlockUnique(b: seq<Byte>, iv: Interval, k: Codec, q: Predictor, stage1: nat, counts: seq<nat>,
                    x: Block, y: Block, rx: seq<Sym>, ry: seq<Sym>)
    requires Usable(k, q) && WfBlock(k, q, stage1, counts, x) && WfBlock(k, q, stage1, counts, y)
    requires CleanBlock(counts, x) && CleanBlock(counts, y)
    requires Reads(b, iv, BlockSyms(k, q, stage1, counts, x) + rx)
    requires Reads(b, iv, BlockSyms(k, q, stage1, counts, y) + ry)
    ensures x == y
  {
    hide Reads, PitchSyms, GainSyms, WfPitch, WfGains, NoFilter, Quiet, PitchTables.Wf, Tables.Wf, WfPred;
    if stage1 == 1 {
      PitchUnique(b, iv, k.cc, k.pitch, q, counts, x.pitch, y.pitch, rx, ry);
    } else {
      GainUnique(b, iv, k.cc, counts, x.gains, y.gains, rx, ry);
    }
  }

  lemma AfterBlockWf(k: Codec, q: Predictor, stage1: nat, counts: seq<nat>, b: Block)
    requires Usable(k, q) && WfBlock(k, q, stage1, counts, b)
    ensures Usable(k, AfterBlock(k, q, stage1, counts, b))
    ensures AfterBlock(k, q, stage1, counts, b).stage1 == q.stage1
  {
    hide WfPitch, WfGains, PitchTables.Wf, Tables.Wf, LsfTables.Wf;
    if stage1 == 1 {
      AfterPitchWf(k.cc, k.pitch, q, counts, b.pitch);
    }
  }

  // ---- internal frames ----

  /** Between packets the predictor may hold anything; within one it is usable. */
  ghost predicate Ready(k: Codec, p: Predictor, intf: nat) {
    k.Wf() && (intf == 0 || WfPredictor(p))
  }

  lemma LsfUsable(k: Codec, p: Predictor, intf: nat, stage1: nat)
    requires Ready(k, p, intf)
    ensures Usable(k, AfterLsf(p, intf, stage1))
  {
  }

  ghost predicate WfInternal(k: Codec, p: Predictor, intf: nat, ip: Internal) {
    && WfLsfParams(k.lsf, p, CONFIG, intf, ip.lsf)
    && WfPulses(k.cc, ip.pulses)
    && WfBlock(k, AfterLsf(p, intf, ip.lsf.stage1), ip.lsf.stage1, ip.pulses.subfr, ip.block)
  }

  ghost function InternalSyms(k: Codec, p: Predictor, intf: nat, ip: Internal): seq<Sym>
    requires Ready(k, p, intf) && WfInternal(k, p, intf, ip)
  {
    LsfUsable(k, p, intf, ip.lsf.stage1);
    LsfSyms(k.lsf, p, CONFIG, intf, ip.lsf)
    + (PulseSyms(k.cc, ip.pulses)
       + BlockSyms(k, AfterLsf(p, intf, ip.lsf.stage1), ip.lsf.stage1, ip.pulses.subfr, ip.block))
  }

  ghost function AfterInternal(k: Codec, p: Predictor, intf: nat, ip: Internal): Predictor
    requires Ready(k, p, intf) && WfInternal(k, p, intf, ip)
  {
    LsfUsable(k, p, intf, ip.lsf.stage1);
    AfterBlock(k, AfterLsf(p, intf, ip.lsf.stage1), ip.lsf.stage1, ip.pulses.subfr, ip.block)
  }

  ghost predicate Clean(ip: Internal) {
    CleanBlock(ip.pulses.subfr, ip.block)
  }

  lemma AfterInternalWf(k: Codec, p: Predictor, intf: nat, ip: Internal)
    requires Ready(k, p, intf) && WfInternal(k, p, intf, ip)
    ensures Ready(k, AfterInternal(k, p, intf, ip), intf + 1)
  {
    hide WfLsfParams, WfPulses, WfBlock, WfPredictor, Codec.Wf;
    LsfUsable(k, p, intf, ip.lsf.stage1);
    AfterBlockWf(k, AfterLsf(p, intf, ip.lsf.stage1), ip.lsf.stage1, ip.pulses.subfr, ip.block);
  }

  lemma ThreeParts(a: seq<Sym>, b: seq<Sym>, c: seq<Sym>, d: seq<Sym>)
    ensures (a + (b + c)) + d == a + (b + (c + d))
    ensures d + (a + (b + c)) == ((d + a) + b) + c
  {
  }

  /** No byte string holds two different internal frames. */
  lemma InternalUnique(b: seq<Byte>, iv: Interval, k: Codec, p: Predictor, intf: nat, x: Internal, y: Internal,
                       rx: seq<Sym>, ry: seq<Sym>)
    requires Ready(k, p, intf) && WfInternal(k, p, intf, x) && WfInternal(k, p, intf, y) && Clean(x) && Clean(y)
    requires Reads(b, iv, InternalSyms(k, p, intf, x) + rx) && Reads(b, iv, InternalSyms(k, p, intf, y) + ry)
    ensures x == y
    ensures Reads(b, Run(iv, InternalSyms(k, p, intf, x)), rx) && Reads(b, Run(iv, InternalSyms(k, p, intf, x)), ry)
  {
    hide Reads, Run, Step, LsfSyms, PulseSyms, BlockSyms, WfLsfParams, WfPulses, WfBlock, Usable, Ready, CleanBlock,
      AfterLsf;
    ReadsAfter(b, iv, InternalSyms(k, p, intf, x), rx);
    ReadsAfter(b, iv, InternalSyms(k, p, intf, y), ry);
    LsfUsable(k, p, intf, x.lsf.stage1);
    LsfUsable(k, p, intf, y.lsf.stage1);
    var qx, qy := AfterLsf(p, intf, x.lsf.stage1), AfterLsf(p, intf, y.lsf.stage1);
    var lx, ly := LsfSyms(k.lsf, p, CONFIG, intf, x.lsf), LsfSyms(k.lsf, p, CONFIG, intf, y.lsf);
    var px, py := PulseSyms(k.cc, x.pulses), PulseSyms(k.cc, y.pulses);
    var vx, vy := BlockSyms(k, qx, x.lsf.stage1, x.pulses.subfr, x.block),
                  BlockSyms(k, qy, y.lsf.stage1, y.pulses.subfr, y.block);
    ThreeParts(lx, px, vx, rx);
    ThreeParts(ly, py, vy, ry);
    LsfUnique(b, iv, k.lsf, p, CONFIG, intf, x.lsf, y.lsf, px + (vx + rx), py + (vy + ry));
    ReadsAfter(b, iv, lx, px + (vx + rx));
    ReadsAfter(b, iv, lx, py + (vy + ry));
    PulseUnique(b, Run(iv, lx), k.cc, x.pulses, y.pulses, vx + rx, vy + ry);
    ReadsAfter(b, Run(iv, lx), px, vx + rx);
    ReadsAfter(b, Run(iv, lx), px, vy + ry);
    BlockUnique(b, Run(Run(iv, lx), px), k, qx, x.lsf.stage1, x.pulses.subfr, x.block, y.block, rx, ry);
  }

  // ---- the frame ----

  ghost predicate Fits(k: Codec, p: Predictor, f: nat, ip: Internal) {
    Ready(k, p, f) && WfInternal(k, p, f, ip)
  }

  ghost function Wire(k: Codec, p: Predictor, f: nat, ip: Internal): seq<Sym> {
    if Fits(k, p, f, ip) then InternalSyms(k, p, f, ip) else []
  }

  ghost function Next(k: Codec, p: Predictor, f: nat, ip: Internal): Predictor {
    if Fits(k, p, f, ip) then AfterInternal(k, p, f, ip) else p
  }

  /** Predictor before internal frame f. */
  ghost function PredAt(k: Codec, p0: Predictor, ips: seq<Internal>, f: nat): Predictor
    requires f <= |ips|
  {
    if f == 0 then p0 else Next(k, PredAt(k, p0, ips, f - 1), f - 1, ips[f - 1])
  }

  ghost predicate WfFrame(k: Codec, p0: Predictor, ips: seq<Internal>, f: nat) {
    f <= |ips| && forall i :: 0 <= i < f ==> Fits(k, PredAt(k, p0, ips, i), i, ips[i])
  }

  ghost function FrameSyms(k: Codec, p0: Predictor, ips: seq<Internal>, f: nat): seq<Sym>
    requires f <= |ips|
  {
    if f == 0 then []
    else FrameSyms(k, p0, ips, f - 1) + Wire(k, PredAt(k, p0, ips, f - 1), f - 1, ips[f - 1])
  }

  /** After every internal frame the next one can be coded. */
  lemma ReadyAfter(k: Codec, p: Predictor, f: nat, ip: Internal)
    requires Fits(k, p, f, ip)
    ensures Ready(k, Next(k, p, f, ip), f + 1)
  {
    hide WfInternal, Ready, AfterInternal;
    AfterInternalWf(k, p, f, ip);
  }

  lemma WireUnique(b: seq<Byte>, iv: Interval, k: Codec, p: Predictor, f: nat, x: Internal, y: Internal,
                   rx: seq<Sym>, ry: seq<Sym>)
    requires Fits(k, p, f, x) && Fits(k, p, f, y) && Clean(x) && Clean(y)
    requires Reads(b, iv, Wire(k, p, f, x) + rx) && Reads(b, iv, Wire(k, p, f, y) + ry)
    ensures x == y
    ensures Reads(b, Run(iv, Wire(k, p, f, x)), rx) && Reads(b, Run(iv, Wire(k, p, f, x)), ry)
  {
    hide Ready, WfInternal, Clean, Reads, Run, InternalSyms;
    InternalUnique(b, iv, k, p, f, x, y, rx, ry);
  }

  ghost predicate AllClean(ips: seq<Internal>) {
    forall i :: 0 <= i < |ips| ==> Clean(ips[i])
  }

  /** No byte string holds two different frames, for one and the same predictor. */
  lemma {:induction false} FrameUnique(b: seq<Byte>, iv: Interval, k: Codec, p0: Predictor, f: nat,
                                       x: seq<Internal>, y: seq<Internal>, rx: seq<Sym>, ry: seq<Sym>)
    requires WfFrame(k, p0, x, f) && WfFrame(k, p0, y, f) && AllClean(x) && AllClean(y)
    requires Reads(b, iv, FrameSyms(k, p0, x, f) + rx) && Reads(b, iv, FrameSyms(k, p0, y, f) + ry)
    ensures x[..f] == y[..f]
    ensures PredAt(k, p0, x, f) == PredAt(k, p0, y, f) && FrameSyms(k, p0, x, f) == FrameSyms(k, p0, y, f)
    ensures Reads(b, Run(iv, FrameSyms(k, p0, x, f)), rx) && Reads(b, Run(iv, FrameSyms(k, p0, x, f)), ry)
  {
    hide Fits, Clean, Reads, Run, Next, Wire;
    ReadsAfter(b, iv, FrameSyms(k, p0, x, f), rx);
    ReadsAfter(b, iv, FrameSyms(k, p0, y, f), ry);
    if f > 0 {
      var g := f - 1;
      var hx, hy := FrameSyms(k, p0, x, g), FrameSyms(k, p0, y, g);
      var px, py := PredAt(k, p0, x, g), PredAt(k, p0, y, g);
      var wx, wy := Wire(k, px, g, x[g]), Wire(k, py, g, y[g]);
      Regroup(hx, wx, rx);
      Regroup(hy, wy, ry);
      FrameUnique(b, iv, k, p0, g, x, y, wx + rx, wy + ry);
      WireUnique(b, Run(iv, hx), k, px, g, x[g], y[g], rx, ry);
      PrefixGrow(x, y, g, f);
    }
  }

  // ---- independence of what a previous packet left behind ----

  // ---- what is where ----

  /** Line spectrum, pulses, then the gains of an unvoiced or the pitch of a voiced frame. */
  lemma InternalWire(k: Codec, p: Predictor, intf: nat, ip: Internal)
    requires Fits(k, p, intf, ip)
    ensures WfPredictor(AfterLsf(p, intf, ip.lsf.stage1)) && ip.lsf.stage1 < 2
    ensures ip.lsf.stage1 == 1 ==>
              && ip.block.Voiced?
              && WfPitch(k.cc, k.pitch, AfterLsf(p, intf, 1), ip.pulses.subfr, ip.block.pitch)
    ensures ip.lsf.stage1 == 0 ==> ip.block.Unvoiced? && WfGains(k.cc, ip.pulses.subfr, ip.block.gains)
    ensures var s, n := InternalSyms(k, p, intf, ip), 19 + |PulseSyms(k.cc, ip.pulses)|;
            && Stands(s, 0, LsfSyms(k.lsf, p, CONFIG, intf, ip.lsf)) && Stands(s, 19, PulseSyms(k.cc, ip.pulses))
            && (ip.lsf.stage1 == 1 ==>
                  Stands(s, n, PitchSyms(k.cc, k.pitch, AfterLsf(p, intf, 1), ip.pulses.subfr, ip.block.pitch)))
            && (ip.lsf.stage1 == 0 ==> Stands(s, n, GainSyms(k.cc, ip.pulses.subfr, ip.block.gains)))
  {
    hide *;
    FitsParts(k, p, intf, ip);
    LsfWire(k.lsf, p, CONFIG, intf, ip.lsf);
    var q := AfterLsf(p, intf, ip.lsf.stage1);
    InternalPieces(k, p, intf, ip);
    BlockIs(k, q, ip.lsf.stage1, ip.pulses.subfr, ip.block);
    ThreeStand(LsfSyms(k.lsf, p, CONFIG, intf, ip.lsf), PulseSyms(k.cc, ip.pulses),
               BlockSyms(k, q, ip.lsf.stage1, ip.pulses.subfr, ip.block));
  }

  lemma InternalPieces(k: Codec, p: Predictor, intf: nat, ip: Internal)
    requires Fits(k, p, intf, ip)
    ensures var q := AfterLsf(p, intf, ip.lsf.stage1);
            && Usable(k, q) && WfPulses(k.cc, ip.pulses) && WfLsfParams(k.lsf, p, CONFIG, intf, ip.lsf)
            && WfBlock(k, q, ip.lsf.stage1, ip.pulses.subfr, ip.block)
            && InternalSyms(k, p, intf, ip)
               == LsfSyms(k.lsf, p, CONFIG, intf, ip.lsf)
                  + (PulseSyms(k.cc, ip.pulses) + BlockSyms(k, q, ip.lsf.stage1, ip.pulses.subfr, ip.block))
  {
    LsfUsable(k, p, intf, ip.lsf.stage1);
    hide LsfSyms, PulseSyms, BlockSyms, AfterLsf, WfLsfParams, WfPulses, Tables.Wf, LsfTables.Wf,
      PitchTables.Wf, WfBlock, WfPredictor;
  }

  lemma BlockIs(k: Codec, q: Predictor, stage1: nat, counts: seq<nat>, b: Block)
    requires Usable(k, q) && WfBlock(k, q, stage1, counts, b)
    ensures k.Wf() && k.cc.Wf() && k.pitch.Wf() && WfPredictor(q)
    ensures stage1 == 1 ==> b.Voiced? && WfPitch(k.cc, k.pitch, q, counts, b.pitch)
                            && BlockSyms(k, q, stage1, counts, b) == PitchSyms(k.cc, k.pitch, q, counts, b.pitch)
    ensures stage1 == 0 ==> b.Unvoiced? && WfGains(k.cc, counts, b.gains)
                            && BlockSyms(k, q, stage1, counts, b) == GainSyms(k.cc, counts, b.gains)
  {
    hide PitchSyms, GainSyms, WfPitch, WfGains, Tables.Wf, LsfTables.Wf, PitchTables.Wf;
  }

  lemma ThreeStand(x: seq<Sym>, y: seq<Sym>, z: seq<Sym>)
    ensures var s := x + (y + z); Stands(s, 0, x) && Stands(s, |x|, y) && Stands(s, |x| + |y|, z)
  {
    var s := x + (y + z);
    StandsParts(x, y + z);
    StandsParts(y, z);
    hide Stands;
    StandsIn(s, |x|, y + z, 0, y);
    StandsIn(s, |x|, y + z, |y|, z);
  }

  lemma FitsParts(k: Codec, p: Predictor, intf: nat, ip: Internal)
    requires Fits(k, p, intf, ip)
    ensures k.lsf.Wf() && CONFIG < 2 && WfLsfParams(k.lsf, p, CONFIG, intf, ip.lsf) && WfPulses(k.cc, ip.pulses)
  {
  }

  /** The first internal frame of a packet, and each one whose selector is not that of the one before, is
      coded without regard to what came before. */
  lemma StartsAfresh(k: Codec, p: Predictor, intf: nat, ip: Internal)
    requires Fits(k, p, intf, ip) && ip.lsf.stage1 == 1 && (intf == 0 || p.stage1 != 1)
    ensures ip.block.Voiced? && WfPredictor(Predictor(1, -1, -1, -1, -1)) && k.Wf()
    ensures WfPitch(k.cc, k.pitch, Predictor(1, -1, -1, -1, -1), ip.pulses.subfr, ip.block.pitch)
    ensures Stands(InternalSyms(k, p, intf, ip), 19 + |PulseSyms(k.cc, ip.pulses)|,
                   PitchSyms(k.cc, k.pitch, Predictor(1, -1, -1, -1, -1), ip.pulses.subfr, ip.block.pitch))
  {
    hide *;
    FreshPredictor(p, intf, 1);
    InternalWire(k, p, intf, ip);
    InternalPieces(k, p, intf, ip);
    BlockIs(k, AfterLsf(p, intf, 1), 1, ip.pulses.subfr, ip.block);
  }

  /** After none, the first gain is in the first row. */
  lemma FirstGain(k: Codec, q: Predictor, counts: seq<nat>, pp: PitchParams)
    requires k.cc.Wf() && k.pitch.Wf() && WfPredictor(q) && WfPitch(k.cc, k.pitch, q, counts, pp) && q.gain == -1
    ensures |counts| == |pp.gains| == SUBFRAMES && pp.lag.lags != []
    ensures var syms := PitchSyms(k.cc, k.pitch, q, counts, pp); syms != [] && InGainRow(k.cc, -1, pp.gains[0], syms[0])
  {
    assert SUBFRAMES == 4;
    NoneCoded(counts);
    hide *;
    PitchParts(k.cc, k.pitch, q, counts, pp);
    PredictorParts(q);
    LtpWire(k.cc, q, counts, pp.gains, pp.filts, 0, -1);
    PitchSplit(k.cc, k.pitch, q, counts, pp);
  }

  lemma FreshPredictor(p: Predictor, intf: nat, stage1: nat)
    requires intf == 0 || p.stage1 != stage1
    ensures AfterLsf(p, intf, stage1) == Predictor(stage1, -1, -1, -1, -1)
  {
  }

  lemma NoneCoded(counts: seq<nat>)
    ensures Coded(counts, 0) == 0
  {
  }

  /** The first internal frame does not look at the predictor. */
  lemma FirstFrameResets(k: Codec, p: Predictor, q: Predictor, ip: Internal)
    requires k.Wf()
    ensures Fits(k, p, 0, ip) <==> Fits(k, q, 0, ip)
    ensures Wire(k, p, 0, ip) == Wire(k, q, 0, ip)
    ensures Fits(k, p, 0, ip) ==> Next(k, p, 0, ip) == Next(k, q, 0, ip)
  {
    hide Codec.Wf, WfPulses, WfBlock, PulseSyms, BlockSyms, AfterBlock;
  }

  /** Whatever the decoder carries over from the last packet, a frame means the same. */
  lemma {:induction false} FrameResets(k: Codec, p: Predictor, q: Predictor, ips: seq<Internal>, f: nat)
    requires k.Wf() && f <= |ips| && WfFrame(k, p, ips, f)
    ensures WfFrame(k, q, ips, f) && FrameSyms(k, p, ips, f) == FrameSyms(k, q, ips, f)
    ensures f > 0 ==> PredAt(k, p, ips, f) == PredAt(k, q, ips, f)
  {
    hide Fits, Wire, Next, Codec.Wf;
    if f > 0 {
      FrameResets(k, p, q, ips, f - 1);
      if f == 1 {
        FirstFrameResets(k, p, q, ips[0]);
      }
    }
  }
}
