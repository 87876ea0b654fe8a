/** The lag contour as the encoder writes it, from the pitch tables. */
module PitchEncoding {
  import opened RangeSpec
  import opened RangeEncoding
  import opened PulseSpec
  import opened Lsf
  import opened PitchSpec

  /** The symbol at index i of a table that starts at zero. */
  lemma PlainSym(c: Cdf, i: nat)
    requires i < |c| - 1 && c[0] == 0
    ensures CdfSym(c, i) == Sym(c[i], c[i + 1], c[|c| - 1])
  {
  }

  method EncodeContour(t: PitchTables, enc: RangeEncoder, blocksegsIx: nat, prevLagblk: int, ghost p: Predictor)
    requires enc.Valid() && t.Wf() && blocksegsIx < CONTOURS && WfPred(p) && prevLagblk == p.lag
    modifies enc, enc.buf
    ensures enc.Valid() && enc.Misused == old(enc.Misused)
    ensures ContourFits(t, p, t.Contour(blocksegsIx).blocks[0], t.Index(blocksegsIx))
    ensures enc.Syms == old(enc.Syms) + ContourSyms(t, p, t.Contour(blocksegsIx).blocks[0], t.Index(blocksegsIx))
  {
    ContourShape(t, blocksegsIx, p);
    hide RangeEncoder.Valid, IsCdf, CdfSym, PitchTables.Wf, BlockSeg.Wf, PitchTables.FirstCdf, WfPred;
    if prevLagblk < 0 {
      var ixJulia, cmf := t.blocksegs2idx[blocksegsIx], t.blocksegIdxCmf;
      enc.Encode(cmf[ixJulia - 1], cmf[ixJulia], cmf[|t.blocksegs|]);
    } else {
      var b0 := t.blocksegs[blocksegsIx].blocks[0];
      var cmf := t.blockTransitionCmf[prevLagblk];
      enc.Encode(cmf[b0], cmf[b0 + 1], cmf[LAG_BLOCKS]);
      EncodeInBlock(t, enc, blocksegsIx, b0);
    }
  }

  /** The contour's number among those that start in block b0. */
  method EncodeInBlock(t: PitchTables, enc: RangeEncoder, blocksegsIx: nat, b0: nat)
    requires enc.Valid() && t.Wf() && blocksegsIx < CONTOURS
    requires t.Contour(blocksegsIx).blocks != [] && b0 == t.Contour(blocksegsIx).blocks[0]
    modifies enc, enc.buf
    ensures enc.Valid() && enc.Misused == old(enc.Misused)
    ensures 0 <= t.Index(blocksegsIx) - t.FirstLo(b0) < |t.FirstCdf(b0)| - 1
    ensures enc.Syms == old(enc.Syms) + [CdfSym(t.FirstCdf(b0), t.Index(blocksegsIx) - t.FirstLo(b0))]
  {
    ContourShape(t, blocksegsIx, Predictor(0, 0, 0, -1, -1));
    hide RangeEncoder.Valid, IsCdf, CdfSym, PitchTables.Wf, BlockSeg.Wf, PitchTables.FirstCdf;
    var ixJulia := t.blocksegs2idx[blocksegsIx];
    var startIx := t.firstblockRange[b0].0;
    var cmfLen := t.firstblockRange[b0].1 - t.firstblockRange[b0].0 + 1;
    var cmf2 := t.blocksegIdxCmf[startIx..];
    var lo, hi := ixJulia - startIx - 1, ixJulia - startIx;
    enc.Encode(cmf2[lo] - cmf2[0], cmf2[hi] - cmf2[0], cmf2[cmfLen] - cmf2[0]);
  }

  /** The three table accesses of the contour code, as symbols. */
  lemma ContourShape(t: PitchTables, c: nat, p: Predictor)
    requires t.Wf() && c < CONTOURS && WfPred(p)
    ensures c < |t.blocksegs| && c < |t.blocksegs2idx| && t.blocksegs[c].blocks != []
    ensures var b0, ix, cmf := t.blocksegs[c].blocks[0], t.blocksegs2idx[c], t.blocksegIdxCmf;
            && t.Contour(c) == t.blocksegs[c] && t.Index(c) == ix - 1
            && |t.blocksegs| < |cmf| && 1 <= ix < |cmf| && b0 < |t.firstblockRange|
            && ContourFits(t, p, b0, ix - 1)
            && CdfSym(cmf, ix - 1) == Sym(cmf[ix - 1], cmf[ix], cmf[|t.blocksegs|])
    ensures var b0, ix, cmf := t.blocksegs[c].blocks[0], t.blocksegs2idx[c], t.blocksegIdxCmf;
            p.lag >= 0 ==>
              && p.lag < |t.blockTransitionCmf| && |t.blockTransitionCmf[p.lag]| == LAG_BLOCKS + 1 && b0 < LAG_BLOCKS
              && var trans := t.blockTransitionCmf[p.lag];
                 CdfSym(t.TransitionCdf(p.lag), b0) == Sym(trans[b0], trans[b0 + 1], trans[LAG_BLOCKS])
    ensures var b0, ix, cmf := t.blocksegs[c].blocks[0], t.blocksegs2idx[c], t.blocksegIdxCmf;
            var lo, len := t.firstblockRange[b0].0, t.firstblockRange[b0].1 as int - t.firstblockRange[b0].0 + 1;
            && t.FirstLo(b0) == lo && 0 <= ix - lo - 1 < ix - lo <= len && lo + len < |cmf| && 0 < len
            && cmf[lo] <= cmf[ix - 1] < cmf[ix] <= cmf[lo + len]
            && ix - 1 - lo < |t.FirstCdf(b0)| - 1
            && CdfSym(t.FirstCdf(b0), ix - 1 - lo)
              == Sym(cmf[ix - 1] - cmf[lo], cmf[ix] - cmf[lo], cmf[lo + len] - cmf[lo])
  {
    assert t.blocksegs[c].Wf();
    t.IndexRange(c);
    var b0, ix := t.blocksegs[c].blocks[0], t.blocksegs2idx[c];
    t.FirstSize(b0);
    assert t.WfRange(b0);
    var lo, hi := t.firstblockRange[b0].0, t.firstblockRange[b0].1;
    hide CdfSym;
    PlainSym(t.blocksegIdxCmf, ix - 1);
    if p.lag >= 0 {
      PlainSym(t.blockTransitionCmf[p.lag], b0);
    }
    WindowSym(t.blocksegIdxCmf, lo, hi - lo + 2, ix - 1 - lo);
  }

  /** The table of a lag in block blk after the lag prev. */
  function DeltaTable(t: PitchTables, mode: nat, blk: int, prev: int): Cdf {
    t.DeltaCdf(mode, BLOCK_SIZE * blk - prev + 2 * BLOCK_SIZE - 1)
  }

  /** One lag after the first: the delta table's window starts at the distance that
      leads to the start of the new block. */
  method EncodeDelta(t: PitchTables, enc: RangeEncoder, blk: nat, idx: nat, prevLagblk: int, prevLagidx: int, mode: nat)
    requires enc.Valid() && t.Wf() && mode < 3
    requires SmallStep(prevLagblk, blk) && InBlock(prevLagblk, prevLagidx) && InBlock(blk, idx)
    modifies enc, enc.buf
    ensures enc.Valid() && enc.Misused == old(enc.Misused)
    ensures |DeltaTable(t, mode, blk, prevLagidx)| == BLOCK_SIZE + 1
    ensures enc.Syms == old(enc.Syms) + [CdfSym(DeltaTable(t, mode, blk, prevLagidx), Frac(blk, idx))]
  {
    hide RangeEncoder.Valid, IsCdf, CdfSym;
    var deltaLagCmf := t.deltaLagCmfs[mode];
    var deltaBlk := blk - prevLagblk;
    var deltaIdx := idx - prevLagidx;
    var prevLagidxMod := prevLagidx - prevLagblk * BLOCK_SIZE;
    var deltaRangeStart := -prevLagidxMod + deltaBlk * BLOCK_SIZE;
    var cmfBase := deltaRangeStart + 2 * BLOCK_SIZE - 1;
    var ix := deltaIdx - deltaRangeStart;
    assert 0 <= cmfBase && cmfBase + BLOCK_SIZE + 1 <= DELTA_ENTRIES && ix == idx - BLOCK_SIZE * blk;
    WindowSym(deltaLagCmf, cmfBase, BLOCK_SIZE + 1, ix);
    hide PitchTables.Wf;
    var p0 := deltaLagCmf[cmfBase];
    enc.Encode(deltaLagCmf[cmfBase + ix] - p0, deltaLagCmf[cmfBase + ix + 1] - p0,
        deltaLagCmf[cmfBase + BLOCK_SIZE] - p0);
  }

  ghost predicate Codable(t: PitchTables, seg: BlockSeg, p: Predictor, mode: nat, lags: seq<nat>) {
    t.Wf() && seg.Wf() && WfPred(p) && mode < 3 && LagsFit(seg, lags)
  }

  /** What the encoder's loop needs to know before segment k. */
  lemma LagAt(t: PitchTables, seg: BlockSeg, p: Predictor, mode: nat, lags: seq<nat>, k: nat)
    requires Codable(t, seg, p, mode, lags) && k < |lags|
    ensures Admissible(LagModel(t, seg, p, mode), Fracs(seg, lags)[..k])
    ensures Admissible(LagModel(t, seg, p, mode), Fracs(seg, lags)[..k + 1])
    ensures k < |seg.seglens| && Start(seg.seglens, k) < LAG_SLOTS
    ensures Spread(lags, seg.seglens)[Start(seg.seglens, k)] == lags[k]
    ensures Start(seg.seglens, k + 1) == Start(seg.seglens, k) + seg.seglens[k]
    ensures Fracs(seg, lags)[k] == lags[k] - BLOCK_SIZE * seg.blocks[k]
    ensures var c := LagTable(t, seg, p, mode, Fracs(seg, lags)[..k]);
            && Fracs(seg, lags)[k] < |c| - 1
            && AdaptiveSyms(LagModel(t, seg, p, mode), Fracs(seg, lags)[..k + 1])
               == AdaptiveSyms(LagModel(t, seg, p, mode), Fracs(seg, lags)[..k]) + [CdfSym(c, Fracs(seg, lags)[k])]
  {
    hide LagTable, CdfSym, AdaptiveSyms, Admissible;
    FracsAdmissible(t, seg, p, mode, lags);
    AdaptiveSlice(LagModel(t, seg, p, mode), Fracs(seg, lags), k);
    StartStep(seg.seglens, k);
    StartMono(seg.seglens, k + 1, |seg.seglens|);
    assert seg.seglens[..|seg.seglens|] == seg.seglens;
    SpreadAt(lags, seg.seglens, k, Start(seg.seglens, k));
  }

  /** The table of segment k in terms of the segment before it. */
  lemma LagTableAt(t: PitchTables, seg: BlockSeg, p: Predictor, mode: nat, lags: seq<nat>, k: nat)
    requires LagsFit(seg, lags) && k < |lags|
    ensures k == 0 && FineRead(p, seg.blocks[0]) ==> LagTable(t, seg, p, mode, Fracs(seg, lags)[..k]) == Ramp()
    ensures !(k == 0 && FineRead(p, seg.blocks[0])) ==>
              LagTable(t, seg, p, mode, Fracs(seg, lags)[..k])
              == t.DeltaCdf(mode,
                     BLOCK_SIZE * seg.blocks[k] - (if k == 0 then p.frac else lags[k - 1]) + 2 * BLOCK_SIZE - 1)
  {
  }

  ghost function LagsSoFar(t: PitchTables, seg: BlockSeg, p: Predictor, mode: nat, lags: seq<nat>, k: nat): seq<Sym>
    requires Codable(t, seg, p, mode, lags) && k <= |lags|
  {
    FracsAdmissible(t, seg, p, mode, lags);
    AdmissiblePrefix(LagModel(t, seg, p, mode), Fracs(seg, lags), k);
    AdaptiveSyms(LagModel(t, seg, p, mode), Fracs(seg, lags)[..k])
  }

  lemma LagsAll(t: PitchTables, seg: BlockSeg, p: Predictor, mode: nat, lags: seq<nat>)
    requires Codable(t, seg, p, mode, lags)
    ensures Admissible(LagModel(t, seg, p, mode), Fracs(seg, lags))
    ensures LagsSoFar(t, seg, p, mode, lags, 0) == []
    ensures LagsSoFar(t, seg, p, mode, lags, |lags|) == AdaptiveSyms(LagModel(t, seg, p, mode), Fracs(seg, lags))
  {
    FracsAdmissible(t, seg, p, mode, lags);
    var fr := Fracs(seg, lags);
    assert fr[..|lags|] == fr && fr[..0] == [];
  }

  lemma SegShape(t: PitchTables, seg: BlockSeg, p: Predictor, mode: nat, lags: seq<nat>)
    requires Codable(t, seg, p, mode, lags)
    ensures t.Wf() && mode < 3
    ensures |lags| == |seg.blocks| == |seg.seglens| > 0 && |Spread(lags, seg.seglens)| == LAG_SLOTS
  {
  }

  function LagBefore(p: Predictor, lags: seq<nat>, k: nat): int
    requires k <= |lags|
  {
    if k == 0 then p.frac else lags[k - 1]
  }

  lemma DeltaPlace(t: PitchTables, seg: BlockSeg, p: Predictor, mode: nat, lags: seq<nat>, k: nat)
    requires Codable(t, seg, p, mode, lags) && k < |lags| && (k == 0 ==> !FineRead(p, seg.blocks[0]))
    ensures k < |seg.blocks| && k < |seg.seglens|
    ensures SmallStep(BlockBefore(seg, p, k), seg.blocks[k]) && InBlock(BlockBefore(seg, p, k), LagBefore(p, lags, k))
    ensures InBlock(seg.blocks[k], lags[k])
  {
  }

  /** What the loop of the encoder does at segment k adds that segment's symbol. */
  lemma DeltaSyms(t: PitchTables, seg: BlockSeg, p: Predictor, mode: nat, lags: seq<nat>, k: nat)
    requires Codable(t, seg, p, mode, lags) && k < |lags| && (k == 0 ==> !FineRead(p, seg.blocks[0]))
    ensures k < |seg.blocks| && InBlock(seg.blocks[k], lags[k])
    ensures |DeltaTable(t, mode, seg.blocks[k], LagBefore(p, lags, k))| == BLOCK_SIZE + 1
    ensures LagsSoFar(t, seg, p, mode, lags, k + 1)
         == LagsSoFar(t, seg, p, mode, lags, k)
            + [CdfSym(DeltaTable(t, mode, seg.blocks[k], LagBefore(p, lags, k)), Frac(seg.blocks[k], lags[k]))]
  {
    DeltaPlace(t, seg, p, mode, lags, k);
    LagTableSize(t, seg, p, mode, Fracs(seg, lags)[..k]);
    LagTableAt(t, seg, p, mode, lags, k);
    assert LagTable(t, seg, p, mode, Fracs(seg, lags)[..k])
        == DeltaTable(t, mode, seg.blocks[k], LagBefore(p, lags, k));
    hide LagTable, DeltaTable, CdfSym, LagsSoFar, Codable, SmallStep, FineRead;
    LagsStep(t, seg, p, mode, lags, k);
  }

  method EncodeLagAt(t: PitchTables, enc: RangeEncoder, seg: BlockSeg, laginds: seq<nat>, prevLagblk: int,
                     prevLagidx: int, mode: nat, k: nat, lagindsIx: nat, ghost p: Predictor, ghost lags: seq<nat>,
                     ghost base: seq<Sym>)
    requires enc.Valid() && Codable(t, seg, p, mode, lags) && laginds == Spread(lags, seg.seglens)
    requires k < |lags| && lagindsIx == Start(seg.seglens, k) && (k == 0 ==> !FineRead(p, seg.blocks[0]))
    requires prevLagblk == BlockBefore(seg, p, k) && prevLagidx == LagBefore(p, lags, k)
    requires enc.Syms == base + LagsSoFar(t, seg, p, mode, lags, k)
    modifies enc, enc.buf
    ensures enc.Valid() && enc.Misused == old(enc.Misused)
    ensures enc.Syms == base + LagsSoFar(t, seg, p, mode, lags, k + 1)
  {
    DeltaPlace(t, seg, p, mode, lags, k);
    DeltaSyms(t, seg, p, mode, lags, k);
    LagSlot(t, seg, p, mode, lags, k);
    SegShape(t, seg, p, mode, lags);
    hide *;
    var blk, idx := seg.blocks[k], laginds[lagindsIx];
    EncodeDelta(t, enc, blk, idx, prevLagblk, prevLagidx, mode);
    Regroup(base, LagsSoFar(t, seg, p, mode, lags, k),
            [CdfSym(DeltaTable(t, mode, seg.blocks[k], prevLagidx), Frac(seg.blocks[k], lags[k]))]);
  }

  lemma BeforeNext(seg: BlockSeg, p: Predictor, lags: seq<nat>, k: nat)
    requires k < |seg.blocks| && k < |lags|
    ensures BlockBefore(seg, p, k + 1) == seg.blocks[k] && LagBefore(p, lags, k + 1) == lags[k]
  {
  }

  /** The segments from k0 on, each against the one before it. */
  method EncodeDeltas(t: PitchTables, enc: RangeEncoder, seg: BlockSeg, laginds: seq<nat>, prevLagblk0: int,
                      prevLagidx0: int, mode: nat, k0: nat, ix0: nat, ghost p: Predictor, ghost lags: seq<nat>,
                      ghost base: seq<Sym>)
    requires enc.Valid() && Codable(t, seg, p, mode, lags) && laginds == Spread(lags, seg.seglens)
    requires k0 <= |lags| && ix0 == Start(seg.seglens, k0) && (k0 == 0 ==> !FineRead(p, seg.blocks[0]))
    requires prevLagblk0 == BlockBefore(seg, p, k0) && prevLagidx0 == LagBefore(p, lags, k0)
    requires enc.Syms == base + LagsSoFar(t, seg, p, mode, lags, k0)
    modifies enc, enc.buf
    ensures enc.Valid() && enc.Misused == old(enc.Misused)
    ensures enc.Syms == base + LagsSoFar(t, seg, p, mode, lags, |lags|)
    decreases |lags| - k0
  {
    hide *;
    SegShape(t, seg, p, mode, lags);
    var k, lagindsIx, prevLagblk, prevLagidx := k0, ix0, prevLagblk0, prevLagidx0;
    while k < |seg.blocks|
      invariant k0 <= k <= |seg.blocks| == |lags| && lagindsIx == Start(seg.seglens, k)
      invariant enc.Valid() && enc.Misused == old(enc.Misused)
      invariant enc.Syms == base + LagsSoFar(t, seg, p, mode, lags, k)
      invariant prevLagblk == BlockBefore(seg, p, k) && prevLagidx == LagBefore(p, lags, k)
      invariant k == 0 ==> !FineRead(p, seg.blocks[0])
    {
      LagSlot(t, seg, p, mode, lags, k);
      BeforeNext(seg, p, lags, k);
      EncodeLagAt(t, enc, seg, laginds, prevLagblk, prevLagidx, mode, k, lagindsIx, p, lags, base);
      prevLagblk := seg.blocks[k];
      prevLagidx := laginds[lagindsIx];
      lagindsIx := lagindsIx + seg.seglens[k];
      k := k + 1;
    }
  }

  /** The slot at which segment k starts holds its lag. */
  lemma LagSlot(t: PitchTables, seg: BlockSeg, p: Predictor, mode: nat, lags: seq<nat>, k: nat)
    requires Codable(t, seg, p, mode, lags) && k < |lags|
    ensures k < |seg.seglens| && Start(seg.seglens, k + 1) == Start(seg.seglens, k) + seg.seglens[k]
    ensures Start(seg.seglens, k) < |Spread(lags, seg.seglens)| == LAG_SLOTS
    ensures Spread(lags, seg.seglens)[Start(seg.seglens, k)] == lags[k]
  {
    LagAt(t, seg, p, mode, lags, k);
  }

  /** Contour, then one symbol a segment. */
  method EncodeLagsWire(t: PitchTables, enc: RangeEncoder, blocksegsIx: nat, laginds: seq<nat>,
                        prevLagblk: int, prevLagidx: int, mode: nat, ghost p: Predictor, ghost lags: seq<nat>)
    requires enc.Valid() && t.Wf() && WfPred(p) && mode < 3 && blocksegsIx < CONTOURS
    requires prevLagblk == p.lag && prevLagidx == p.frac
    requires LagsFit(t.Contour(blocksegsIx), lags) && laginds == Spread(lags, t.Contour(blocksegsIx).seglens)
    modifies enc, enc.buf
    ensures enc.Valid() && enc.Misused == old(enc.Misused)
    ensures WfLags(t, p, LagParams(t.Contour(blocksegsIx).blocks[0], blocksegsIx, lags))
    ensures enc.Syms == old(enc.Syms)
              + LagSyms(t, p, mode, LagParams(t.Contour(blocksegsIx).blocks[0], blocksegsIx, lags))
  {
    TablesIndex(t);
    t.IndexRange(blocksegsIx);
    var seg := t.blocksegs[blocksegsIx];
    ContourBefore(t, p, blocksegsIx, seg, lags);
    EncodeContour(t, enc, blocksegsIx, prevLagblk, p);
    hide RangeEncoder.Valid, LagTable, AdaptiveSyms, Admissible, PitchTables.Wf, BlockSeg.Wf,
      Spread, Start, LagsSoFar, LagModel, WfPred, ContourSyms, ContourFits;
    ghost var base := enc.Syms;
    LagsAll(t, seg, p, mode, lags);
    var k, lagindsIx := EncodeFine(t, enc, seg, laginds, prevLagblk, p, mode, lags);
    if k == 1 {
      EncodeDeltas(t, enc, seg, laginds, seg.blocks[0], laginds[0], mode, 1, lagindsIx, p, lags, base);
    } else {
      EncodeDeltas(t, enc, seg, laginds, prevLagblk, prevLagidx, mode, 0, lagindsIx, p, lags, base);
    }
    Regroup(old(enc.Syms), ContourSyms(t, p, seg.blocks[0], t.Index(blocksegsIx)),
            AdaptiveSyms(LagModel(t, seg, p, mode), Fracs(seg, lags)));
  }

  lemma ContourBefore(t: PitchTables, p: Predictor, c: nat, seg: BlockSeg, lags: seq<nat>)
    requires t.Wf() && WfPred(p) && c < CONTOURS && seg == t.blocksegs[c] && LagsFit(seg, lags)
    ensures seg.Wf() && seg == t.Contour(c) && WfLags(t, p, LagParams(seg.blocks[0], c, lags))
    ensures ContourFits(t, p, seg.blocks[0], t.Index(c))
  {
    assert t.blocksegs[c].Wf();
    t.IndexRange(c);
    ContourIsFit(t, p, LagParams(seg.blocks[0], c, lags));
  }

  lemma LagsStep(t: PitchTables, seg: BlockSeg, p: Predictor, mode: nat, lags: seq<nat>, k: nat)
    requires Codable(t, seg, p, mode, lags) && k < |lags|
    requires Fracs(seg, lags)[k] < |LagTable(t, seg, p, mode, Fracs(seg, lags)[..k])| - 1
    ensures LagsSoFar(t, seg, p, mode, lags, k + 1)
         == LagsSoFar(t, seg, p, mode, lags, k)
            + [CdfSym(LagTable(t, seg, p, mode, Fracs(seg, lags)[..k]), Fracs(seg, lags)[k])]
  {
    LagAt(t, seg, p, mode, lags, k);
    hide LagTable, CdfSym, AdaptiveSyms, Admissible;
  }

  /** The full-precision first lag, when the contour starts far from the last one. */
  method EncodeFine(t: PitchTables, enc: RangeEncoder, seg: BlockSeg, laginds: seq<nat>, prevLagblk: int,
                    ghost p: Predictor, ghost mode: nat, ghost lags: seq<nat>) returns (startSeg: nat, lagindsIx: nat)
    requires enc.Valid() && Codable(t, seg, p, mode, lags) && prevLagblk == p.lag
    requires laginds == Spread(lags, seg.seglens)
    modifies enc, enc.buf
    ensures enc.Valid() && enc.Misused == old(enc.Misused)
    ensures startSeg == (if FineRead(p, seg.blocks[0]) then 1 else 0) && lagindsIx == Start(seg.seglens, startSeg)
    ensures enc.Syms == old(enc.Syms) + LagsSoFar(t, seg, p, mode, lags, startSeg)
    ensures laginds[0] == lags[0]
  {
    FineFacts(t, seg, p, mode, lags);
    hide RangeEncoder.Valid, PitchTables.Wf, BlockSeg.Wf, Spread, Start, LagsSoFar, WfPred, Fracs;
    startSeg, lagindsIx := 0, 0;
    var blk := seg.blocks[0];
    var deltaBlk := blk - prevLagblk;
    if !(prevLagblk > -1 && -1 <= deltaBlk <= 2) {
      var idxMod := laginds[0] - blk * BLOCK_SIZE;
      enc.Encode(idxMod, idxMod + 1, BLOCK_SIZE);
      lagindsIx := lagindsIx + seg.seglens[0];
      startSeg := 1;
    }
  }

  lemma FineFacts(t: PitchTables, seg: BlockSeg, p: Predictor, mode: nat, lags: seq<nat>)
    requires Codable(t, seg, p, mode, lags)
    ensures |lags| > 0 && |seg.seglens| > 0 && |Spread(lags, seg.seglens)| == LAG_SLOTS
    ensures Start(seg.seglens, 0) == 0 && Start(seg.seglens, 1) == seg.seglens[0]
    ensures Spread(lags, seg.seglens)[0] == lags[0] && InBlock(seg.blocks[0], lags[0])
    ensures LagsSoFar(t, seg, p, mode, lags, 0) == []
    ensures FineRead(p, seg.blocks[0]) ==>
              LagsSoFar(t, seg, p, mode, lags, 1) == [UniformSym(lags[0] - BLOCK_SIZE * seg.blocks[0], BLOCK_SIZE)]
  {
    hide AdaptiveSyms, Admissible, LagTable, LagsSoFar, CdfSym;
    LagAt(t, seg, p, mode, lags, 0);
    LagsStep(t, seg, p, mode, lags, 0);
    LagTableAt(t, seg, p, mode, lags, 0);
    LagsAll(t, seg, p, mode, lags);
    StartOfNone(seg.seglens);
    RampUniform(lags[0] - BLOCK_SIZE * seg.blocks[0]);
  }

  lemma StartOfNone(xs: seq<nat>)
    ensures Start(xs, 0) == 0
  {
  }

  /** The last lag of the last segment: the encoder's predictor after the block. */
  function LagsPredictorAfter(t: PitchTables, blocksegsIx: nat, laginds: seq<nat>): (int, int)
    requires blocksegsIx < |t.blocksegs| && t.blocksegs[blocksegsIx].blocks != [] && |laginds| == LAG_SLOTS
  {
    var seg := t.blocksegs[blocksegsIx];
    (seg.blocks[|seg.blocks| - 1], laginds[LAG_SLOTS - 1])
  }

  lemma PredictorIsLast(t: PitchTables, c: nat, lags: seq<nat>)
    requires t.Wf() && c < CONTOURS && LagsFit(t.Contour(c), lags)
    ensures t.blocksegs[c].Wf() && lags != []
    ensures |Spread(lags, t.Contour(c).seglens)| == LAG_SLOTS
    ensures LagsPredictorAfter(t, c, Spread(lags, t.Contour(c).seglens))
         == (t.Contour(c).blocks[|lags| - 1], lags[|lags| - 1])
  {
    var seg := t.blocksegs[c];
    assert seg.Wf();
    var n := |lags| - 1;
    assert seg.seglens[..n + 1] == seg.seglens;
    StartStep(seg.seglens, n);
    SpreadAt(lags, seg.seglens, n, LAG_SLOTS - 1);
  }
}
