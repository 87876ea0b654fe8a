/** The lag contour as the decoder reads it, through the byte window. */
module PitchDecoding {
  import opened RangeSpec
  import opened RangeDecoding
  import opened Lsf
  import opened PitchSpec
  import opened PitchMem

  // ---- which contour ----

  lemma ContourOne(t: PitchTables, p: Predictor, lag: int)
    requires t.Wf() && p.lag < 0
    ensures |t.blocksegIdxCmf| == CONTOURS + 1
    ensures MemOf(t).CdfAt(HDR_LAG_CDF, CONTOURS + 1) == t.blocksegIdxCmf
    ensures 0 <= lag < CONTOURS ==>
              ContourFits(t, p, 0, lag) && ContourSyms(t, p, 0, lag) == [CdfSym(t.blocksegIdxCmf, lag)]
  {
    LagCdfAt(t, 0, CONTOURS + 1);
    assert t.blocksegIdxCmf[0..CONTOURS + 1] == t.blocksegIdxCmf;
  }

  lemma FirstBounds(t: PitchTables, first: nat)
    requires t.Wf() && first < LAG_BLOCKS
    ensures t.FirstLo(first) <= t.FirstHi(first) < CONTOURS
    ensures |t.FirstCdf(first)| == t.FirstHi(first) - t.FirstLo(first) + 2
    ensures |t.blocksegIdxCmf| == CONTOURS + 1
    ensures t.FirstCdf(first) == t.blocksegIdxCmf[t.FirstLo(first)..t.FirstHi(first) + 2]
  {
    t.FirstSize(first);
  }

  lemma ContourTwo(t: PitchTables, p: Predictor, first: nat)
    requires t.Wf() && WfPred(p) && p.lag >= 0 && first < LAG_BLOCKS
    ensures t.FirstLo(first) <= t.FirstHi(first) < CONTOURS
    ensures MemOf(t).U8(At32(DELTA_BOUNDS + 2 * first)) == t.FirstLo(first)
    ensures MemOf(t).U8(At32(DELTA_BOUNDS + 2 * first + 1)) == t.FirstHi(first)
    ensures |t.FirstCdf(first)| == t.FirstHi(first) - t.FirstLo(first) + 2
    ensures MemOf(t).CdfAt(At32(HDR_LAG_CDF + 2 * t.FirstLo(first)), t.FirstHi(first) - t.FirstLo(first) + 2)
         == t.FirstCdf(first)
  {
    hide *;
    AddressValues();
    FirstBounds(t, first);
    BoundsAt(t, first);
    Wrapped(DELTA_BOUNDS + 2 * first);
    Wrapped(DELTA_BOUNDS + 2 * first + 1);
    Wrapped(HDR_LAG_CDF + 2 * t.FirstLo(first));
    LagCdfAt(t, t.FirstLo(first), t.FirstHi(first) - t.FirstLo(first) + 2);
  }

  lemma ContourTwoSyms(t: PitchTables, p: Predictor, first: nat, lag: int)
    requires t.Wf() && WfPred(p) && p.lag >= 0 && first < LAG_BLOCKS
    requires t.FirstLo(first) <= lag <= t.FirstHi(first)
    ensures lag < CONTOURS && ContourFits(t, p, first, lag)
    ensures |t.TransitionCdf(p.lag)| == LAG_BLOCKS + 1
    ensures ContourSyms(t, p, first, lag)
         == [CdfSym(t.TransitionCdf(p.lag), first)] + [CdfSym(t.FirstCdf(first), lag - t.FirstLo(first))]
  {
    t.FirstSize(first);
  }

  lemma TransitionAt(t: PitchTables, p: Predictor)
    requires t.Wf() && WfPred(p) && p.lag >= 0
    ensures p.lag < LAG_BLOCKS && |t.TransitionCdf(p.lag)| == LAG_BLOCKS + 1
    ensures MemOf(t).CdfAt(At32(HDR_DELTA_CDF + 20 * p.lag), 10) == t.TransitionCdf(p.lag)
  {
    hide MemOf, SmplMem.CdfAt, At32;
    TransitionCdfAt(t, p.lag);
    Wrapped(HDR_DELTA_CDF + 20 * p.lag);
  }

  /** The contour's index; with a previous lag, its first block comes first. */
  method DecodeIndex(dec: RangeDecoder, mem: SmplMem, prevLag: int, ghost t: PitchTables, ghost p: Predictor)
    returns (lag: int, first: nat)
    requires dec.Valid() && t.Wf() && mem == MemOf(t) && WfPred(p) && prevLag == p.lag
    modifies dec
    ensures dec.Valid() && dec.err == old(dec.err)
    ensures 0 <= lag < CONTOURS && ContourFits(t, p, first, lag)
    ensures p.lag >= 0 ==> first < LAG_BLOCKS && t.FirstLo(first) <= lag <= t.FirstHi(first)
    ensures dec.At() == Run(old(dec.At()), ContourSyms(t, p, first, lag))
  {
    hide *;
    AddressValues();
    ghost var iv := dec.At();
    WindowBase(t);
    var pcfg := At32(mem.gClk + 0x5704);
    var lagCdf := mem.U32(At32(pcfg + 22248));
    first := 0;
    if prevLag < 0 {
      var numContours := mem.U32(At32(pcfg + 22240));
      ContourOne(t, p, 0);
      lag := dec.DecodeCDF(mem.CdfAt(lagCdf, numContours + 1));
      ContourOne(t, p, lag);
      RunOne(iv, CdfSym(t.blocksegIdxCmf, lag));
    } else {
      var deltaCdf := mem.U32(At32(pcfg + 22268));
      TransitionAt(t, p);
      first := dec.DecodeCDF(mem.CdfAt(At32(deltaCdf + prevLag * 20), 10));
      ghost var s := CdfSym(t.TransitionCdf(p.lag), first);
      lag := DecodeInBlock(dec, mem, lagCdf, first, t, p);
      ContourTwoSyms(t, p, first, lag);
      ghost var u := CdfSym(t.FirstCdf(first), lag - t.FirstLo(first));
      RunOne(iv, s);
      RunOne(Step(iv, s), u);
      RunAppend(iv, [s], [u]);
    }
  }

  /** The contour's index among those that start in block first. */
  method DecodeInBlock(dec: RangeDecoder, mem: SmplMem, lagCdf: Address, first: nat,
                       ghost t: PitchTables, ghost p: Predictor) returns (lag: int)
    requires dec.Valid() && t.Wf() && mem == MemOf(t) && WfPred(p) && p.lag >= 0 && first < LAG_BLOCKS
    requires lagCdf == HDR_LAG_CDF
    modifies dec
    ensures dec.Valid() && dec.err == old(dec.err)
    ensures t.FirstLo(first) <= lag <= t.FirstHi(first)
            && |t.FirstCdf(first)| == t.FirstHi(first) - t.FirstLo(first) + 2
    ensures dec.At() == Step(old(dec.At()), CdfSym(t.FirstCdf(first), lag - t.FirstLo(first)))
  {
    hide *;
    AddressValues();
    ContourTwo(t, p, first);
    var lo: int := mem.U8(At32(DELTA_BOUNDS + first * 2));
    var hi: int := mem.U8(At32(DELTA_BOUNDS + first * 2 + 1));
    var rN := hi - lo + 2;
    if rN < 2 {
      assert false;
    }
    var sym := dec.DecodeCDF(mem.CdfAt(At32(lagCdf + lo * 2), rN));
    lag := sym + lo;
  }

  lemma GlobalBase(t: PitchTables)
    ensures MemOf(t).gClk == MEM_GCLK
  {
  }

  /** The header is where the decoder looks for it. */
  lemma WindowBase(t: PitchTables)
    requires t.Wf()
    ensures At32(MemOf(t).gClk + 0x5704) == MEM_PCFG
    ensures var m := MemOf(t);
            && m.U32(At32(MEM_PCFG + 22240)) == CONTOURS && m.U32(At32(MEM_PCFG + 22244)) == HDR_CONTOUR_MAP
            && m.U32(At32(MEM_PCFG + 22248)) == HDR_LAG_CDF && m.U32(At32(MEM_PCFG + 22252)) == HDR_FRAC_BASE
            && m.U32(At32(MEM_PCFG + 22268)) == HDR_DELTA_CDF
  {
    hide *;
    AddressValues();
    HeaderFields(t);
    GlobalBase(t);
    Wrapped(MEM_GCLK + 0x5704);
    Wrapped(MEM_PCFG + 22240);
    Wrapped(MEM_PCFG + 22244);
    Wrapped(MEM_PCFG + 22248);
    Wrapped(MEM_PCFG + 22252);
    Wrapped(MEM_PCFG + 22268);
  }

  lemma MapSpot(t: PitchTables, i: nat)
    requires t.Wf() && i < CONTOURS
    ensures MemOf(t).U8(At32(HDR_CONTOUR_MAP + i)) == t.Index(i) + 1
  {
    MapAt(t, i);
  }

  /** The contour with a given index: the search cannot fail. */
  method FindContour(mem: SmplMem, contourMap: Address, lag: int, ghost t: PitchTables) returns (contour: int)
    requires t.Wf() && mem == MemOf(t) && contourMap == HDR_CONTOUR_MAP && 0 <= lag < CONTOURS
    ensures 0 <= contour < CONTOURS && t.Index(contour) == lag
  {
    TablesIndex(t);
    IndexOnto(t, lag);
    hide SmplMem.U8, MemOf, PitchTables.Wf, PitchTables.WfIndex, PitchTables.Index;
    var target := lag + 1;
    contour := -1;
    var i := 0;
    while i < 217
      invariant i <= CONTOURS && contour == -1 && forall c :: 0 <= c < i ==> t.Index(c) != lag
    {
      MapSpot(t, i);
      if mem.U8(At32(contourMap + i)) == target {
        contour := i;
        return;
      }
      i := i + 1;
    }
  }

  // ---- the lags of a contour ----

  function LagOf(block: nat, frac: nat): nat {
    BLOCK_SIZE * block + frac
  }

  function LagsOf(seg: BlockSeg, fr: seq<nat>): (r: seq<nat>)
    requires |fr| <= |seg.blocks|
    ensures |r| == |fr|
  {
    seq(|fr|, k requires 0 <= k < |fr| => LagOf(seg.blocks[k], fr[k]))
  }

  ghost predicate Readable(t: PitchTables, seg: BlockSeg, p: Predictor, mode: nat) {
    t.Wf() && seg.Wf() && WfPred(p) && mode < 3
  }

  /** The first segments have been read from iv on, leading to at; out holds one lag a
      slot, and the predictor fields hold the last block and lag. */
  ghost predicate Decoded(t: PitchTables, seg: BlockSeg, p: Predictor, mode: nat, iv: Interval, fr: seq<nat>,
                          at: Interval, out: seq<int>, lag: int, frac: int)
  {
    && |fr| <= |seg.blocks| && |seg.blocks| == |seg.seglens|
    && (forall k :: 0 <= k < |fr| ==> fr[k] < BLOCK_SIZE)
    && Admissible(LagModel(t, seg, p, mode), fr)
    && at == Run(iv, AdaptiveSyms(LagModel(t, seg, p, mode), fr))
    && out == Spread(LagsOf(seg, fr), seg.seglens[..|fr|])
    && lag == BlockBefore(seg, p, |fr|) && frac == PrevLag(seg, p, fr)
  }

  lemma DecodedNone(t: PitchTables, seg: BlockSeg, p: Predictor, mode: nat, iv: Interval)
    requires Readable(t, seg, p, mode)
    ensures Decoded(t, seg, p, mode, iv, [], iv, [], p.lag, p.frac)
  {
    RunOne(iv, Sym(0, 1, 1));
  }

  lemma SpreadSnoc(lags: seq<nat>, seglens: seq<nat>, lag: nat, n: nat)
    requires |lags| == |seglens|
    ensures Spread(lags + [lag], seglens + [n]) == Spread(lags, seglens) + seq(n, _ => lag)
  {
    assert (lags + [lag])[..|lags|] == lags && (seglens + [n])[..|lags|] == seglens;
  }

  lemma LagsOfSnoc(seg: BlockSeg, fr: seq<nat>, sym: nat)
    requires |fr| < |seg.blocks|
    ensures LagsOf(seg, fr + [sym]) == LagsOf(seg, fr) + [LagOf(seg.blocks[|fr|], sym)]
  {
  }

  lemma ModelStep(t: PitchTables, seg: BlockSeg, p: Predictor, mode: nat, iv: Interval, fr: seq<nat>, sym: nat)
    requires Readable(t, seg, p, mode) && |fr| < |seg.blocks| && (forall k :: 0 <= k < |fr| ==> fr[k] < BLOCK_SIZE)
    requires Admissible(LagModel(t, seg, p, mode), fr) && sym < BLOCK_SIZE
    ensures |LagTable(t, seg, p, mode, fr)| == BLOCK_SIZE + 1
    ensures Admissible(LagModel(t, seg, p, mode), fr + [sym])
    ensures Run(iv, AdaptiveSyms(LagModel(t, seg, p, mode), fr + [sym]))
         == Step(Run(iv, AdaptiveSyms(LagModel(t, seg, p, mode), fr)), CdfSym(LagTable(t, seg, p, mode, fr), sym))
  {
    var model := LagModel(t, seg, p, mode);
    LagTableSize(t, seg, p, mode, fr);
    assert model(fr) == LagTable(t, seg, p, mode, fr);
    hide *;
    AddressValues();
    AdaptiveSnoc(model, fr, sym);
    RunSnoc(iv, AdaptiveSyms(model, fr), CdfSym(LagTable(t, seg, p, mode, fr), sym));
  }

  lemma SpreadMore(seg: BlockSeg, fr: seq<nat>, sym: nat)
    requires |fr| < |seg.blocks| == |seg.seglens|
    ensures Spread(LagsOf(seg, fr + [sym]), seg.seglens[..|fr| + 1])
         == Spread(LagsOf(seg, fr), seg.seglens[..|fr|]) + seq(seg.seglens[|fr|], _ => LagOf(seg.blocks[|fr|], sym))
  {
    var k := |fr|;
    hide Spread, LagsOf, LagOf;
    LagsOfSnoc(seg, fr, sym);
    assert seg.seglens[..k + 1] == seg.seglens[..k] + [seg.seglens[k]];
    SpreadSnoc(LagsOf(seg, fr), seg.seglens[..k], LagOf(seg.blocks[k], sym), seg.seglens[k]);
  }

  /** One more segment. */
  lemma DecodedSnoc(t: PitchTables, seg: BlockSeg, p: Predictor, mode: nat, iv: Interval, fr: seq<nat>,
                    at: Interval, out: seq<int>, lag: int, frac: int, sym: nat)
    requires Readable(t, seg, p, mode) && Decoded(t, seg, p, mode, iv, fr, at, out, lag, frac)
    requires |fr| < |seg.blocks| && sym < BLOCK_SIZE
    ensures |LagTable(t, seg, p, mode, fr)| == BLOCK_SIZE + 1 && |fr| < |seg.seglens|
    ensures Decoded(t, seg, p, mode, iv, fr + [sym], Step(at, CdfSym(LagTable(t, seg, p, mode, fr), sym)),
                    out + seq(seg.seglens[|fr|], _ => LagOf(seg.blocks[|fr|], sym)),
                    seg.blocks[|fr|], LagOf(seg.blocks[|fr|], sym))
  {
    hide LagTable, CdfSym, Step, Run, AdaptiveSyms, Admissible, LagModel, Readable, Spread, LagsOf;
    ModelStep(t, seg, p, mode, iv, fr, sym);
    SpreadMore(seg, fr, sym);
  }

  /** One lag into every slot of a segment. */
  method WriteSegment(blockLags: array<int>, subfrW: nat, segLen: nat, lag: int) returns (w: nat)
    requires blockLags.Length == LAG_SLOTS && subfrW + segLen <= LAG_SLOTS
    modifies blockLags
    ensures w == subfrW + segLen && blockLags[..w] == old(blockLags[..subfrW]) + seq(segLen, _ => lag)
  {
    w := subfrW;
    for i := 0 to segLen
      invariant w == subfrW + i
      invariant blockLags[..subfrW] == old(blockLags[..subfrW])
      invariant forall j :: subfrW <= j < w ==> blockLags[j] == lag
    {
      if w < LAG_SLOTS {
        blockLags[w] := lag;
      }
      w := w + 1;
    }
  }

  /** The first lag, read in full when the contour starts far from the previous lag. */
  method DecodeFine(dec: RangeDecoder, prevLag: int, baseLag: int, ghost t: PitchTables, ghost seg: BlockSeg,
                    ghost p: Predictor, ghost mode: nat) returns (readFine: bool, sym: nat)
    requires dec.Valid() && Readable(t, seg, p, mode) && prevLag == p.lag
    requires seg.blocks != [] && baseLag == seg.blocks[0]
    modifies dec
    ensures dec.Valid() && dec.err == old(dec.err) && readFine == FineRead(p, baseLag)
    ensures readFine ==> sym < BLOCK_SIZE && |LagTable(t, seg, p, mode, [])| == BLOCK_SIZE + 1
                         && dec.At() == Step(old(dec.At()), CdfSym(LagTable(t, seg, p, mode, []), sym))
    ensures !readFine ==> dec.At() == old(dec.At())
  {
    hide RangeDecoder.Valid, RangeDecoder.At, Step, CdfSym;
    readFine, sym := true, 0;
    if prevLag >= 0 {
      var delta := baseLag - prevLag;
      if delta >= -1 && delta < 3 {
        readFine := false;
      }
    }
    if readFine {
      sym := dec.Decode64FineSym();
      RampUniform(sym);
    }
  }

  /** The address of a delta window, in 32-bit arithmetic that wraps around. */
  lemma WindowAddress(mode: nat, nl2: int)
    requires mode < 3 && -2 * BLOCK_SIZE < nl2 <= 2 * BLOCK_SIZE
    ensures At32(At32(HDR_FRAC_BASE + mode * 0x280) + At32(nl2 * 2) + 0xfe)
         == HDR_FRAC_BASE + 0x280 * mode + 2 * (nl2 + 2 * BLOCK_SIZE - 1)
  {
    assert HDR_FRAC_BASE + mode * 0x280 < 0x1_0000_0000;
    if nl2 < 0 {
      assert At32(nl2 * 2) == 0x1_0000_0000 + nl2 * 2;
    }
  }

  function DeltaSlice(t: PitchTables, mode: nat, nl2: int): seq<nat>
    requires mode < |t.deltaLagCmfs| && -2 * BLOCK_SIZE < nl2 && nl2 + 3 * BLOCK_SIZE <= |t.deltaLagCmfs[mode]|
  {
    t.deltaLagCmfs[mode][nl2 + 2 * BLOCK_SIZE - 1..nl2 + 3 * BLOCK_SIZE]
  }

  lemma DeltaNear(t: PitchTables, seg: BlockSeg, p: Predictor, mode: nat, iv: Interval, fr: seq<nat>,
                  at: Interval, out: seq<int>, lag: int, frac: int)
    requires Readable(t, seg, p, mode) && Decoded(t, seg, p, mode, iv, fr, at, out, lag, frac)
    requires |fr| < |seg.blocks| && (fr == [] ==> !FineRead(p, seg.blocks[0]))
    ensures var nl2 := BLOCK_SIZE * seg.blocks[|fr|] - frac;
            && -2 * BLOCK_SIZE < nl2 <= 2 * BLOCK_SIZE
            && |LagTable(t, seg, p, mode, fr)| == BLOCK_SIZE + 1
            && mode < |t.deltaLagCmfs| && nl2 + 3 * BLOCK_SIZE <= |t.deltaLagCmfs[mode]|
            && LagTable(t, seg, p, mode, fr) == DeltaSlice(t, mode, nl2)
  {
    var k := |fr|;
    assert SmallStep(BlockBefore(seg, p, k), seg.blocks[k]);
    assert InBlock(BlockBefore(seg, p, k), frac);
    LagTableSize(t, seg, p, mode, fr);
    hide Admissible, AdaptiveSyms, Run;
  }

  lemma DeltaRead(t: PitchTables, mode: nat, nl2: int)
    requires t.Wf() && mode < 3 && -2 * BLOCK_SIZE < nl2 <= 2 * BLOCK_SIZE
    ensures mode < |t.deltaLagCmfs| && nl2 + 3 * BLOCK_SIZE <= |t.deltaLagCmfs[mode]|
    ensures MemOf(t).CdfAt(At32(At32(HDR_FRAC_BASE + mode * 0x280) + At32(nl2 * 2) + 0xfe), BLOCK_SIZE + 1)
         == DeltaSlice(t, mode, nl2)
  {
    hide MemOf, SmplMem.CdfAt, At32;
    WindowAddress(mode, nl2);
    FracCdfAt(t, mode, nl2 + 2 * BLOCK_SIZE - 1, BLOCK_SIZE + 1);
  }

  lemma DeltaWindow(t: PitchTables, seg: BlockSeg, p: Predictor, mode: nat, iv: Interval, fr: seq<nat>,
                    at: Interval, out: seq<int>, lag: int, frac: int, nl2: int)
    requires Readable(t, seg, p, mode) && Decoded(t, seg, p, mode, iv, fr, at, out, lag, frac)
    requires |fr| < |seg.blocks| && (fr == [] ==> !FineRead(p, seg.blocks[0]))
    requires nl2 == BLOCK_SIZE * seg.blocks[|fr|] - frac
    ensures |LagTable(t, seg, p, mode, fr)| == BLOCK_SIZE + 1
    ensures MemOf(t).CdfAt(At32(At32(HDR_FRAC_BASE + mode * 0x280) + At32(nl2 * 2) + 0xfe), BLOCK_SIZE + 1)
         == LagTable(t, seg, p, mode, fr)
  {
    ReadableWf(t, seg, p, mode);
    DeltaNear(t, seg, p, mode, iv, fr, at, out, lag, frac);
    hide *;
    DeltaRead(t, mode, nl2);
  }

  lemma ReadableWf(t: PitchTables, seg: BlockSeg, p: Predictor, mode: nat)
    requires Readable(t, seg, p, mode)
    ensures t.Wf() && seg.Wf() && WfPred(p) && mode < 3 && 1 <= |seg.blocks| == |seg.seglens|
  {
  }
}
