/** The pitch block of voiced internal frames, in both directions. */
module PitchBlock {
  import opened RangeSpec
  import opened RangeEncoding
  import opened RangeDecoding
  import opened CcTables
  import opened PulseSpec
  import opened Lsf
  import opened Ltp
  import opened PitchSpec
  import opened PitchMem
  import opened PitchEncoding
  import opened PitchDecoding

  // ---- segments ----

  lemma Room(t: PitchTables, seg: BlockSeg, p: Predictor, mode: nat, iv: Interval, fr: seq<nat>,
             at: Interval, out: seq<int>, lag: int, frac: int)
    requires Readable(t, seg, p, mode) && Decoded(t, seg, p, mode, iv, fr, at, out, lag, frac)
    ensures |fr| <= |seg.blocks| == |seg.seglens| && frac == PrevLag(seg, p, fr)
    ensures |fr| < |seg.blocks| ==> |out| + seg.seglens[|fr|] <= LAG_SLOTS
    ensures |fr| == |seg.blocks| ==> |out| == LAG_SLOTS
  {
    if |fr| < |seg.blocks| {
      StartStep(seg.seglens, |fr|);
      StartMono(seg.seglens, |fr| + 1, |seg.seglens|);
    }
    assert seg.seglens[..|seg.seglens|] == seg.seglens;
  }

  /** One lag relative to the previous one.  The previous segment's block l2 cancels. */
  method DecodeSegment(dec: RangeDecoder, mem: SmplMem, fracSegBase: Address, segLag: int, l2: int, l3: int,
                       ghost t: PitchTables, ghost seg: BlockSeg, ghost p: Predictor, ghost mode: nat,
                       ghost iv: Interval, ghost fr: seq<nat>, ghost out: seq<int>, ghost lag: int)
    returns (newLag: int, ghost sym: nat)
    requires dec.Valid() && Readable(t, seg, p, mode) && mem == MemOf(t)
    requires Decoded(t, seg, p, mode, iv, fr, dec.At(), out, lag, l3)
    requires |fr| < |seg.blocks| && (fr == [] ==> !FineRead(p, seg.blocks[0]))
    requires segLag == seg.blocks[|fr|] && fracSegBase == At32(HDR_FRAC_BASE + mode * 0x280)
    modifies dec
    ensures dec.Valid() && dec.err == old(dec.err)
    ensures sym < BLOCK_SIZE && newLag == LagOf(seg.blocks[|fr|], sym)
            && |LagTable(t, seg, p, mode, fr)| == BLOCK_SIZE + 1
    ensures dec.At() == Step(old(dec.At()), CdfSym(LagTable(t, seg, p, mode, fr), sym))
  {
    var nl2 := l2 * 64 - l3 + (segLag - l2) * 64;
    hide RangeDecoder.Valid, RangeDecoder.At, Readable, Decoded, LagTable, CdfSym, Step, At32, MemOf, SmplMem.CdfAt,
      FineRead;
    DeltaWindow(t, seg, p, mode, iv, fr, dec.At(), out, lag, l3, nl2);
    var off := At32(fracSegBase + At32(nl2 * 2) + 0xfe);
    var s := dec.DecodeCDF(mem.CdfAt(off, 65));
    newLag := s + l3 + nl2;
    sym := s;
  }

  lemma ContourIs(t: PitchTables, c: nat)
    requires t.Wf() && c < CONTOURS
    ensures c < |t.blocksegs| && t.Contour(c) == t.blocksegs[c]
  {
  }

  lemma SegmentWords(t: PitchTables, c: nat, k: nat, ctrBase: Address)
    requires t.Wf() && c < CONTOURS && k < |t.Contour(c).blocks| && ctrBase == At32(MEM_PCFG + c * 0x44)
    ensures k < |t.Contour(c).seglens|
    ensures MemOf(t).I32(At32(ctrBase + 0x1d38 + k * 4)) == t.Contour(c).blocks[k]
    ensures MemOf(t).I32(At32(ctrBase + 0x1d58 + k * 4)) == t.Contour(c).seglens[k]
    ensures MemOf(t).I32(At32(ctrBase + 0x1d78)) == |t.Contour(c).blocks|
  {
    hide *;
    AddressValues();
    ContourIs(t, c);
    RecordFields(t, c, k);
    Wrapped(MEM_PCFG + c * 0x44);
  }

  /** The words of a contour's record that describe segment seg, and its lag. */
  method ReadSegment(dec: RangeDecoder, mem: SmplMem, ctrBase: Address, fracSegBase: Address, seg: nat,
                     l2: int, l3: int,
                     ghost t: PitchTables, ghost c: nat, ghost p: Predictor, ghost mode: nat, ghost iv: Interval,
                     ghost fr: seq<nat>, ghost out: seq<int>, ghost lag: int)
    returns (segLag: int, segLen: int, newLag: int, ghost sym: nat)
    requires dec.Valid() && c < CONTOURS && Readable(t, t.Contour(c), p, mode) && mem == MemOf(t)
    requires ctrBase == At32(MEM_PCFG + c * 0x44) && fracSegBase == At32(HDR_FRAC_BASE + mode * 0x280)
    requires Decoded(t, t.Contour(c), p, mode, iv, fr, dec.At(), out, lag, l3)
    requires |fr| == seg < |t.Contour(c).blocks| && (fr == [] ==> !FineRead(p, t.Contour(c).blocks[0]))
    modifies dec
    ensures dec.Valid() && dec.err == old(dec.err)
    ensures seg < |t.Contour(c).seglens| && segLag == t.Contour(c).blocks[seg] && segLen == t.Contour(c).seglens[seg]
    ensures newLag == LagOf(segLag, sym) && 0 <= segLen && |out| + segLen <= LAG_SLOTS
    ensures Decoded(t, t.Contour(c), p, mode, iv, fr + [sym], dec.At(), out + seq(segLen, _ => newLag), segLag, newLag)
  {
    ReadableWf(t, t.Contour(c), p, mode);
    hide *;
    AddressValues();
    ghost var rec, at := t.Contour(c), dec.At();
    SegmentWords(t, c, seg, ctrBase);
    Room(t, rec, p, mode, iv, fr, at, out, lag, l3);
    segLag := mem.I32(At32(ctrBase + 0x1d38 + seg * 4));
    segLen := mem.I32(At32(ctrBase + 0x1d58 + seg * 4));
    newLag, sym := DecodeSegment(dec, mem, fracSegBase, segLag, l2, l3, t, rec, p, mode, iv, fr, out, lag);
    DecodedSnoc(t, rec, p, mode, iv, fr, at, out, lag, l3, sym);
  }

  /** Reads segment |fr| and fills its slots. */
  method DecodeSegmentAt(dec: RangeDecoder, mem: SmplMem, st: LsfState, ctrBase: Address, fracSegBase: Address,
                         seg: nat, subfrW0: nat, l2: int, blockLags: array<int>,
                         ghost t: PitchTables, ghost c: nat, ghost p: Predictor, ghost mode: nat, ghost iv: Interval,
                         ghost fr0: seq<nat>)
    returns (subfrW: nat, segLag: int, ghost fr: seq<nat>)
    requires dec.Valid() && c < CONTOURS && Readable(t, t.Contour(c), p, mode) && mem == MemOf(t)
    requires ctrBase == At32(MEM_PCFG + c * 0x44) && fracSegBase == At32(HDR_FRAC_BASE + mode * 0x280)
    requires blockLags.Length == LAG_SLOTS && subfrW0 <= LAG_SLOTS
    requires Decoded(t, t.Contour(c), p, mode, iv, fr0, dec.At(), blockLags[..subfrW0], st.prevLag, st.prevFracLag)
    requires |fr0| == seg < |t.Contour(c).blocks| && (fr0 == [] ==> !FineRead(p, t.Contour(c).blocks[0]))
    modifies dec, st`prevLag, st`prevFracLag, blockLags
    ensures dec.Valid() && dec.err == old(dec.err) && subfrW <= LAG_SLOTS && |fr| == seg + 1
    ensures Decoded(t, t.Contour(c), p, mode, iv, fr, dec.At(), blockLags[..subfrW], st.prevLag, st.prevFracLag)
  {
    hide *;
    ghost var out, lag := blockLags[..subfrW0], st.prevLag;
    var segLen, l3; ghost var sym;
    segLag, segLen, l3, sym := ReadSegment(dec, mem, ctrBase, fracSegBase, seg, l2, st.prevFracLag,
                                           t, c, p, mode, iv, fr0, out, lag);
    fr := fr0 + [sym];
    subfrW := WriteSegment(blockLags, subfrW0, segLen, l3);
    assert blockLags[..subfrW] == out + seq(segLen, _ => l3);
    st.prevFracLag := l3;
    st.prevLag := segLag;
  }

  /** The per-segment loop: what it reads are the contour's lags, what it writes is one
      lag for each slot. */
  method DecodeSegments(dec: RangeDecoder, mem: SmplMem, st: LsfState, ctrBase: Address, segSel: nat,
                        startSeg: nat, subfrW0: nat, l2_0: int, blockLags: array<int>,
                        ghost t: PitchTables, ghost c: nat, ghost p: Predictor, ghost iv: Interval, ghost fr0: seq<nat>)
    returns (subfrW: nat, ghost fr: seq<nat>)
    requires dec.Valid() && c < CONTOURS && Readable(t, t.Contour(c), p, segSel) && mem == MemOf(t)
    requires ctrBase == At32(MEM_PCFG + c * 0x44) && blockLags.Length == LAG_SLOTS && subfrW0 <= LAG_SLOTS
    requires Decoded(t, t.Contour(c), p, segSel, iv, fr0, dec.At(), blockLags[..subfrW0], st.prevLag, st.prevFracLag)
    requires |fr0| == startSeg && (fr0 == [] ==> t.Contour(c).blocks != [] && !FineRead(p, t.Contour(c).blocks[0]))
    modifies dec, st`prevLag, st`prevFracLag, blockLags
    ensures dec.Valid() && dec.err == old(dec.err) && subfrW == LAG_SLOTS && |fr| == |t.Contour(c).blocks|
    ensures Decoded(t, t.Contour(c), p, segSel, iv, fr, dec.At(), blockLags[..], st.prevLag, st.prevFracLag)
  {
    hide *;
    ghost var rec := t.Contour(c);
    ReadableWf(t, rec, p, segSel);
    var cnt2, fracSegBase := SegmentTable(mem, ctrBase, segSel, t, c);
    var l2 := l2_0;
    subfrW, fr := subfrW0, fr0;
    var seg := startSeg;
    Room(t, rec, p, segSel, iv, fr, dec.At(), blockLags[..subfrW], st.prevLag, st.prevFracLag);
    while seg < cnt2
      invariant seg <= cnt2 == |rec.blocks| && |fr| == seg && subfrW <= LAG_SLOTS
      invariant dec.Valid() && dec.err == old(dec.err)
      invariant Decoded(t, rec, p, segSel, iv, fr, dec.At(), blockLags[..subfrW], st.prevLag, st.prevFracLag)
      invariant fr == [] ==> !FineRead(p, rec.blocks[0])
    {
      subfrW, l2, fr := DecodeSegmentAt(dec, mem, st, ctrBase, fracSegBase, seg, subfrW, l2, blockLags,
                                        t, c, p, segSel, iv, fr);
      seg := seg + 1;
    }
    Room(t, rec, p, segSel, iv, fr, dec.At(), blockLags[..subfrW], st.prevLag, st.prevFracLag);
    assert blockLags[..blockLags.Length] == blockLags[..];
  }

  /** Number of segments of a contour, and the address of the delta table in use. */
  method SegmentTable(mem: SmplMem, ctrBase: Address, segSel: nat, ghost t: PitchTables, ghost c: nat)
    returns (cnt2: int, fracSegBase: Address)
    requires t.Wf() && mem == MemOf(t) && c < CONTOURS && t.Contour(c).Wf() && ctrBase == At32(MEM_PCFG + c * 0x44)
    ensures cnt2 == |t.Contour(c).blocks| && fracSegBase == At32(HDR_FRAC_BASE + segSel * 0x280)
  {
    hide MemOf, SmplMem.I32, SmplMem.U32, At32, PitchTables.Wf;
    WindowBase(t);
    SegmentWords(t, c, 0, ctrBase);
    cnt2 := mem.I32(At32(ctrBase + 0x1d78));
    fracSegBase := At32(mem.U32(At32(MEM_PCFG + 22252)) + segSel * 0x280);
  }

  // ---- the lag block ----

  lemma LagsBack(seg: BlockSeg, fr: seq<nat>)
    requires |fr| == |seg.blocks| && forall k :: 0 <= k < |fr| ==> fr[k] < BLOCK_SIZE
    ensures LagsFit(seg, LagsOf(seg, fr)) && Fracs(seg, LagsOf(seg, fr)) == fr
  {
    var lags := LagsOf(seg, fr);
    forall k | 0 <= k < |fr| ensures InBlock(seg.blocks[k], lags[k]) && Frac(seg.blocks[k], lags[k]) == fr[k] {
    }
  }

  /** The lag predictor after a block: its last segment's block and lag. */
  ghost predicate LagsDone(t: PitchTables, p: Predictor, mode: nat, lp: LagParams, lag: int, frac: int) {
    && t.Wf() && WfPred(p) && mode < 3 && WfLags(t, p, lp) && lp.lags != []
    && lag == t.Contour(lp.contour).blocks[|lp.lags| - 1] && frac == lp.lags[|lp.lags| - 1]
  }

  /** From iv on, the symbols of lp lead to at, and out holds its lag for every slot. */
  ghost predicate LagsRead(t: PitchTables, p: Predictor, mode: nat, lp: LagParams, iv: Interval, at: Interval,
                           out: seq<int>, lag: int, frac: int)
  {
    && LagsDone(t, p, mode, lp, lag, frac) && at == Run(iv, LagSyms(t, p, mode, lp))
    && |lp.lags| == |t.Contour(lp.contour).seglens| && out == Spread(lp.lags, t.Contour(lp.contour).seglens)
  }

  ghost predicate LagsWritten(t: PitchTables, p: Predictor, mode: nat, lp: LagParams, before: seq<Sym>, after: seq<Sym>,
                              lag: int, frac: int)
  {
    LagsDone(t, p, mode, lp, lag, frac) && after == before + LagSyms(t, p, mode, lp)
  }

  lemma AllLags(t: PitchTables, p: Predictor, mode: nat, c: nat, fr: seq<nat>, iv: Interval, at: Interval,
                out: seq<int>, lag: int, frac: int)
    requires t.Wf() && WfPred(p) && mode < 3 && c < CONTOURS
    requires Decoded(t, t.Contour(c), p, mode, iv, fr, at, out, lag, frac) && |fr| == |t.Contour(c).blocks|
    ensures t.Contour(c).Wf() && |fr| == |t.Contour(c).seglens| && fr != []
    ensures var seg, lags := t.Contour(c), LagsOf(t.Contour(c), fr);
            && LagsFit(seg, lags) && Fracs(seg, lags) == fr && Admissible(LagModel(t, seg, p, mode), fr)
            && at == Run(iv, AdaptiveSyms(LagModel(t, seg, p, mode), fr)) && out == Spread(lags, seg.seglens)
            && lag == seg.blocks[|lags| - 1] && frac == lags[|lags| - 1]
  {
    var seg := t.Contour(c);
    TablesIndex(t);
    assert seg.Wf();
    LagsBack(seg, fr);
    assert seg.seglens[..|fr|] == seg.seglens;
    assert LagsOf(seg, fr)[|fr| - 1] == LagOf(seg.blocks[|fr| - 1], fr[|fr| - 1]);
    hide AdaptiveSyms, LagModel, Admissible, Run, Spread, PitchTables.Wf, PitchTables.Contour;
  }

  /** A fully decoded contour, as lag parameters. */
  lemma DecodedAll(t: PitchTables, p: Predictor, mode: nat, iv: Interval, c: nat, first: nat, fr: seq<nat>,
                   at0: Interval, at: Interval, out: seq<int>, lag: int, frac: int)
    requires t.Wf() && WfPred(p) && mode < 3 && c < CONTOURS
    requires ContourFits(t, p, first, t.Index(c)) && at0 == Run(iv, ContourSyms(t, p, first, t.Index(c)))
    requires if p.lag < 0 then first == t.Contour(c).blocks[0]
             else first < LAG_BLOCKS && t.FirstLo(first) <= t.Index(c) <= t.FirstHi(first)
    requires Decoded(t, t.Contour(c), p, mode, at0, fr, at, out, lag, frac) && |fr| == |t.Contour(c).blocks|
    ensures LagsRead(t, p, mode, LagParams(first, c, LagsOf(t.Contour(c), fr)), iv, at, out, lag, frac)
  {
    AllLags(t, p, mode, c, fr, at0, at, out, lag, frac);
    hide AdaptiveSyms, LagModel, Admissible, ContourSyms, ContourFits, Run, Spread, PitchTables.Wf, Decoded,
      PitchTables.Contour, LagsFit, Fracs, LagsOf, WfPred, BlockSeg.Wf;
    RunAppend(iv, ContourSyms(t, p, first, t.Index(c)), AdaptiveSyms(LagModel(t, t.Contour(c), p, mode), fr));
  }

  /** Where the first segment's words are. */
  method FirstSegment(mem: SmplMem, contour: nat, ghost t: PitchTables)
    returns (ctrBase: Address, baseLag: int, segLen0: int)
    requires t.Wf() && mem == MemOf(t) && contour < CONTOURS && t.Contour(contour).Wf()
    ensures ctrBase == At32(MEM_PCFG + contour * 0x44)
    ensures baseLag == t.Contour(contour).blocks[0] && segLen0 == t.Contour(contour).seglens[0]
  {
    hide MemOf, SmplMem.I32, At32, PitchTables.Wf;
    ctrBase := At32(MEM_PCFG + contour * 0x44);
    SegmentWords(t, contour, 0, ctrBase);
    baseLag := mem.I32(At32(ctrBase + 0x1d38 + 0));
    segLen0 := mem.I32(At32(ctrBase + 0x1d58 + 0));
  }

  /** The slots of the first segment; one slot is written ahead, to be overwritten by
      the next segment if there is one. */
  method WriteFirst(blockLags: array<int>, segLen0: nat, lag: int) returns (subfrW: nat)
    requires blockLags.Length == LAG_SLOTS && segLen0 <= LAG_SLOTS
    modifies blockLags
    ensures subfrW == segLen0 && blockLags[..subfrW] == seq(segLen0, _ => lag)
  {
    subfrW := WriteSegment(blockLags, 0, segLen0, lag);
    if subfrW < LAG_SLOTS {
      blockLags[subfrW] := lag;
    }
  }

  /** The fine first lag and its slots. */
  method DecodeFirst(dec: RangeDecoder, st: LsfState, baseLag: int, segLen0: int, blockLags: array<int>,
                     ghost t: PitchTables, ghost rec: BlockSeg, ghost p: Predictor, ghost mode: nat)
    returns (readFine: bool, curLag2: int, subfrW: nat, ghost fr: seq<nat>)
    requires dec.Valid() && Readable(t, rec, p, mode) && st.prevLag == p.lag && st.prevFracLag == p.frac
    requires rec.Wf() && baseLag == rec.blocks[0] && segLen0 == rec.seglens[0]
    requires blockLags.Length == LAG_SLOTS
    modifies dec, st`prevLag, st`prevFracLag, blockLags
    ensures dec.Valid() && dec.err == old(dec.err) && subfrW <= LAG_SLOTS
    ensures readFine == FineRead(p, baseLag) && |fr| == (if readFine then 1 else 0)
    ensures Decoded(t, rec, p, mode, old(dec.At()), fr, dec.At(), blockLags[..subfrW], st.prevLag, st.prevFracLag)
  {
    ghost var iv := dec.At();
    hide *;
    RecShape(rec);
    DecodedNone(t, rec, p, mode, iv);
    fr, subfrW, curLag2 := [], 0, baseLag;
    var sym;
    readFine, sym := DecodeFine(dec, st.prevLag, baseLag, t, rec, p, mode);
    if readFine {
      curLag2 := LagOf(baseLag, sym);
      st.prevFracLag := curLag2;
      st.prevLag := baseLag;
      fr := [sym];
      FirstDecoded(t, rec, p, mode, iv, sym);
      subfrW := WriteFirst(blockLags, segLen0, curLag2);
    } else {
      assert blockLags[..0] == [];
    }
  }

  lemma FirstDecoded(t: PitchTables, rec: BlockSeg, p: Predictor, mode: nat, iv: Interval, sym: nat)
    requires Readable(t, rec, p, mode) && rec.Wf() && sym < BLOCK_SIZE
    ensures 1 <= |rec.blocks| == |rec.seglens| && rec.seglens[0] <= LAG_SLOTS
    ensures |LagTable(t, rec, p, mode, [])| == BLOCK_SIZE + 1
    ensures Decoded(t, rec, p, mode, iv, [sym], Step(iv, CdfSym(LagTable(t, rec, p, mode, []), sym)),
                    seq(rec.seglens[0], _ => LagOf(rec.blocks[0], sym)), rec.blocks[0], LagOf(rec.blocks[0], sym))
  {
    hide *;
    RecShape(rec);
    DecodedNone(t, rec, p, mode, iv);
    Room(t, rec, p, mode, iv, [], iv, [], p.lag, p.frac);
    DecodedSnoc(t, rec, p, mode, iv, [], iv, [], p.lag, p.frac, sym);
    assert [] + [sym] == [sym];
    var slots := seq(rec.seglens[0], _ => LagOf(rec.blocks[0], sym));
    assert [] + slots == slots;
  }

  lemma RecShape(seg: BlockSeg)
    requires seg.Wf()
    ensures 1 <= |seg.blocks| == |seg.seglens|
  {
  }

  /** The lag block on any byte string. */
  method DecodeLags(dec: RangeDecoder, mem: SmplMem, st: LsfState, segSel: nat, ghost t: PitchTables,
                    ghost p: Predictor)
    returns (contour: nat, blockLags: array<int>, ghost lp: LagParams)
    requires dec.Valid() && t.Wf() && mem == MemOf(t) && WfPred(p) && segSel < 3
    requires st.prevLag == p.lag && st.prevFracLag == p.frac
    modifies dec, st`prevLag, st`prevFracLag
    ensures dec.Valid() && dec.err == old(dec.err) && fresh(blockLags) && lp.contour == contour
    ensures LagsRead(t, p, segSel, lp, old(dec.At()), dec.At(), blockLags[..], st.prevLag, st.prevFracLag)
  {
    blockLags := new int[LAG_SLOTS](_ => 0);
    hide *;
    AddressValues();
    ghost var iv := dec.At();
    WindowBase(t);
    var lag, first := DecodeIndex(dec, mem, st.prevLag, t, p);
    var found := FindContour(mem, HDR_CONTOUR_MAP, lag, t);
    if found < 0 || found >= 217 {
      assert false;
    }
    contour := found;
    ghost var first1 := first;
    MadeReadable(t, contour, p, segSel);
    RecShape(t.Contour(contour));
    if p.lag < 0 {
      first1 := t.Contour(contour).blocks[0];
      FirstUnused(t, p, first, first1, lag);
    }
    ghost var at0 := dec.At();
    var ctrBase, baseLag, segLen0 := FirstSegment(mem, contour, t);
    var readFine, l2, subfrW; ghost var fr0, fr;
    readFine, l2, subfrW, fr0 := DecodeFirst(dec, st, baseLag, segLen0, blockLags, t, t.Contour(contour), p, segSel);
    var startSeg := if readFine then 1 else 0;
    subfrW, fr := DecodeSegments(dec, mem, st, ctrBase, segSel, startSeg, subfrW, l2, blockLags,
                                 t, contour, p, at0, fr0);
    DecodedAll(t, p, segSel, iv, contour, first1, fr, at0, dec.At(), blockLags[..], st.prevLag, st.prevFracLag);
    lp := LagParams(first1, contour, LagsOf(t.Contour(contour), fr));
  }

  lemma MadeReadable(t: PitchTables, c: nat, p: Predictor, mode: nat)
    requires t.Wf() && WfPred(p) && mode < 3 && c < CONTOURS
    ensures Readable(t, t.Contour(c), p, mode) && t.Contour(c).Wf()
  {
    TablesIndex(t);
  }

  /** Without a previous lag no first block is announced. */
  lemma FirstUnused(t: PitchTables, p: Predictor, f: nat, g: nat, index: int)
    requires p.lag < 0 && ContourFits(t, p, f, index)
    ensures ContourFits(t, p, g, index) && ContourSyms(t, p, f, index) == ContourSyms(t, p, g, index)
  {
  }

  // ---- the block ----

  datatype PitchParams = PitchParams(gains: seq<nat>, filts: seq<int>, lag: LagParams)

  ghost predicate WfPredictor(p: Predictor) {
    WfState(p.gain, p.filt) && WfPred(p)
  }

  ghost predicate WfPitch(cc: Tables, t: PitchTables, p: Predictor, counts: seq<nat>, pp: PitchParams) {
    && |counts| == |pp.gains| == |pp.filts| == SUBFRAMES
    && LtpFit(cc, p, counts, pp.gains, pp.filts, SUBFRAMES)
    && WfLags(t, p, pp.lag)
  }

  ghost function PitchSyms(cc: Tables, t: PitchTables, p: Predictor, counts: seq<nat>, pp: PitchParams): seq<Sym>
    requires t.Wf() && WfPred(p) && WfPitch(cc, t, p, counts, pp)
  {
    LtpSyms(cc, p, counts, pp.gains, pp.filts, SUBFRAMES) + LagSyms(t, p, LagMode(cc, pp.gains), pp.lag)
  }

  /** The predictor after a pitch block: last gain, last filter sent, last block and lag. */
  ghost function AfterPitch(cc: Tables, t: PitchTables, p: Predictor, counts: seq<nat>, pp: PitchParams): Predictor
    requires WfPitch(cc, t, p, counts, pp)
  {
    var n := |pp.lag.lags| - 1;
    Predictor(p.stage1, pp.gains[SUBFRAMES - 1], PrevFilt(p, counts, pp.filts, SUBFRAMES),
              t.Contour(pp.lag.contour).blocks[n], pp.lag.lags[n])
  }

  lemma {:induction false} LtpStates(cc: Tables, p: Predictor, counts: seq<nat>, gains: seq<nat>, filts: seq<int>,
                                     i: nat)
    requires cc.Wf() && WfState(p.gain, p.filt) && LtpFit(cc, p, counts, gains, filts, i)
    ensures WfState(PrevGain(p, gains, i), PrevFilt(p, counts, filts, i))
  {
    hide LtpFits, Tables.Wf, WfState;
    if i > 0 {
      LtpStates(cc, p, counts, gains, filts, i - 1);
      LtpNext(cc, PrevGain(p, gains, i - 1), PrevFilt(p, counts, filts, i - 1), counts[i - 1],
              gains[i - 1], filts[i - 1]);
    }
  }

  /** The predictor stays usable from block to block. */
  lemma AfterPitchWf(cc: Tables, t: PitchTables, p: Predictor, counts: seq<nat>, pp: PitchParams)
    requires cc.Wf() && t.Wf() && WfPredictor(p) && WfPitch(cc, t, p, counts, pp)
    ensures WfPredictor(AfterPitch(cc, t, p, counts, pp))
  {
    LtpStates(cc, p, counts, pp.gains, pp.filts, SUBFRAMES);
    TablesIndex(t);
    assert t.Contour(pp.lag.contour).Wf();
    hide LtpFit, PitchTables.Wf, Tables.Wf;
  }

  /** No byte string holds two different pitch blocks. */
  lemma PitchUnique(b: seq<Byte>, iv: Interval, cc: Tables, t: PitchTables, pr: Predictor, counts: seq<nat>,
                    x: PitchParams, y: PitchParams, p: seq<Sym>, q: seq<Sym>)
    requires t.Wf() && WfPred(pr) && WfPitch(cc, t, pr, counts, x) && WfPitch(cc, t, pr, counts, y)
    requires NoFilter(counts, x.filts) && NoFilter(counts, y.filts)
    requires Reads(b, iv, PitchSyms(cc, t, pr, counts, x) + p) && Reads(b, iv, PitchSyms(cc, t, pr, counts, y) + q)
    ensures x == y
  {
    hide Reads, Run, Step, LtpSyms, LagSyms, LtpFit, WfLags, PitchTables.Wf, WfPred, LagMode, NoFilter;
    var hx := LtpSyms(cc, pr, counts, x.gains, x.filts, SUBFRAMES);
    var hy := LtpSyms(cc, pr, counts, y.gains, y.filts, SUBFRAMES);
    var lx, ly := LagSyms(t, pr, LagMode(cc, x.gains), x.lag), LagSyms(t, pr, LagMode(cc, y.gains), y.lag);
    Regroup(hx, lx, p);
    Regroup(hy, ly, q);
    LtpUnique(b, iv, cc, pr, counts, SUBFRAMES, x.gains, y.gains, x.filts, y.filts, lx + p, ly + q);
    assert x.gains[..SUBFRAMES] == x.gains && y.gains[..SUBFRAMES] == y.gains;
    assert x.filts[..SUBFRAMES] == x.filts && y.filts[..SUBFRAMES] == y.filts;
    LagUnique(b, Run(iv, hx), t, pr, LagMode(cc, x.gains), x.lag, y.lag, p, q);
  }

  /** The lags of a block follow its gains and filters.  Which delta table they are sent in is decided
      by the weights of the gains: the first for a sum below 40028, the third from 56340 on. */
  lemma PitchWire(cc: Tables, t: PitchTables, p: Predictor, counts: seq<nat>, pp: PitchParams, k: nat)
    requires cc.Wf() && t.Wf() && WfPredictor(p) && WfPitch(cc, t, p, counts, pp) && k < |pp.lag.lags|
    ensures forall i :: 0 <= i < SUBFRAMES ==> pp.gains[i] < LTP_GAINS
    ensures var syms, at := PitchSyms(cc, t, p, counts, pp), SUBFRAMES + Coded(counts, SUBFRAMES);
            && at < |syms| && syms[..at] == LtpSyms(cc, p, counts, pp.gains, pp.filts, SUBFRAMES)
            && (p.lag < 0 ==> syms[at] == CdfSym(t.blocksegIdxCmf, t.blocksegs2idx[pp.lag.contour] - 1))
    ensures var syms := PitchSyms(cc, t, p, counts, pp);
            var at := SUBFRAMES + Coded(counts, SUBFRAMES) + k + if p.lag < 0 then 1 else 2;
            var w, blk := WeightSum(cc, pp.gains), t.blocksegs[pp.lag.contour].blocks[k];
            var prev, lag := if k == 0 then p.frac else pp.lag.lags[k - 1], pp.lag.lags[k];
            && at < |syms|
            && (k > 0 || (p.lag >= 0 && p.lag - 1 <= blk <= p.lag + 2) ==>
                  InStretch(t.deltaLagCmfs[if w < 40028 then 0 else if w < 56340 then 1 else 2],
                            64 * blk - prev + 127, 64 * blk - prev + 191, lag - 64 * blk, syms[at]))
  {
    hide *;
    PredictorParts(p);
    PitchParts(cc, t, p, counts, pp);
    PitchSplit(cc, t, p, counts, pp);
    AllGainsFit(cc, p, counts, pp.gains, pp.filts);
    LtpCount(cc, p, counts, pp.gains, pp.filts, SUBFRAMES);
    ModeLaw(cc, pp.gains);
    ContourWire(t, p, LagMode(cc, pp.gains), pp.lag);
    LagWire(t, p, LagMode(cc, pp.gains), pp.lag, k);
  }

  /** What the next internal frame is coded against: the last gain, the filter of the last subframe with
      pulses or else the one before the block, the last segment's block and lag. */
  lemma AfterLaw(cc: Tables, t: PitchTables, p: Predictor, counts: seq<nat>, pp: PitchParams, j: int)
    requires cc.Wf() && t.Wf() && WfPitch(cc, t, p, counts, pp)
    requires -1 <= j < SUBFRAMES && (j >= 0 ==> counts[j] > 0) && forall k :: j < k < SUBFRAMES ==> counts[k] == 0
    ensures var q, blocks := AfterPitch(cc, t, p, counts, pp), t.blocksegs[pp.lag.contour].blocks;
            && q.stage1 == p.stage1 && q.gain == pp.gains[3] && q.filt == (if j >= 0 then pp.filts[j] else p.filt)
            && blocks != [] && q.lag == blocks[|blocks| - 1] && q.frac == pp.lag.lags[|pp.lag.lags| - 1]
  {
    FilterBefore(p, counts, pp.filts, SUBFRAMES, j);
    hide PrevFilt, LtpFit;
  }

  lemma PitchSplit(cc: Tables, t: PitchTables, p: Predictor, counts: seq<nat>, pp: PitchParams)
    requires cc.Wf() && t.Wf() && WfPred(p) && WfPitch(cc, t, p, counts, pp)
    ensures |cc.acbWeights| == 2 * LTP_GAINS && SUBFRAMES == 4 && |pp.gains| == SUBFRAMES
    ensures WfLags(t, p, pp.lag) && pp.lag.contour < CONTOURS == |t.blocksegs| == |t.blocksegs2idx|
    ensures |t.blocksegs[pp.lag.contour].blocks| == |pp.lag.lags| && |t.deltaLagCmfs| == 3
    ensures PitchSyms(cc, t, p, counts, pp)
         == LtpSyms(cc, p, counts, pp.gains, pp.filts, SUBFRAMES) + LagSyms(t, p, LagMode(cc, pp.gains), pp.lag)
  {
  }

  /** What the decoder reports for an encoder's parameters: no filter where none is sent. */
  function Heard(counts: seq<nat>, pp: PitchParams): PitchParams
    requires |counts| == |pp.filts|
  {
    pp.(filts := seq(|counts|, i requires 0 <= i < |counts| => if counts[i] > 0 then pp.filts[i] else -1))
  }

  lemma HeardSyms(cc: Tables, t: PitchTables, p: Predictor, counts: seq<nat>, pp: PitchParams)
    requires t.Wf() && WfPred(p) && WfPitch(cc, t, p, counts, pp)
    ensures WfPitch(cc, t, p, counts, Heard(counts, pp)) && NoFilter(counts, Heard(counts, pp).filts)
    ensures PitchSyms(cc, t, p, counts, Heard(counts, pp)) == PitchSyms(cc, t, p, counts, pp)
    ensures AfterPitch(cc, t, p, counts, Heard(counts, pp)) == AfterPitch(cc, t, p, counts, pp)
  {
    LtpKept(cc, p, counts, SUBFRAMES, pp.gains, pp.gains, pp.filts, Heard(counts, pp).filts);
    hide PitchTables.Wf, WfPred, LagSyms, LtpSyms, LtpFit, WfLags, LagMode;
  }

  /** From iv on, the symbols of pp lead to at; afterwards the predictor is last. */
  ghost predicate PitchRead(cc: Tables, t: PitchTables, p: Predictor, counts: seq<nat>, pp: PitchParams,
                            iv: Interval, at: Interval, last: Predictor)
  {
    && t.Wf() && WfPred(p) && WfPitch(cc, t, p, counts, pp) && NoFilter(counts, pp.filts)
    && at == Run(iv, PitchSyms(cc, t, p, counts, pp))
    && last == AfterPitch(cc, t, p, counts, pp)
  }

  /** The symbols of pp have been appended; afterwards the predictor is last. */
  ghost predicate PitchWritten(cc: Tables, t: PitchTables, p: Predictor, counts: seq<nat>, pp: PitchParams,
                               before: seq<Sym>, after: seq<Sym>, last: Predictor)
  {
    && t.Wf() && WfPred(p) && WfPitch(cc, t, p, counts, pp)
    && after == before + PitchSyms(cc, t, p, counts, pp)
    && last == AfterPitch(cc, t, p, counts, pp)
  }

  lemma PredictorParts(p: Predictor)
    ensures WfPredictor(p) <==> WfState(p.gain, p.filt) && WfPred(p)
  {
  }

  lemma ModeIs(avgGain: int)
    ensures ModeOf(avgGain) == if avgGain < 10007 then 0 else if avgGain < 14085 then 1 else 2
  {
  }

  /** A pitch block, from its two halves. */
  lemma ReadHalves(cc: Tables, t: PitchTables, p: Predictor, counts: seq<nat>, pp: PitchParams, iv: Interval,
                   mid: Interval, at: Interval, last: Predictor, avgGain: int, out: seq<int>)
    requires LtpRead(cc, p, counts, pp.gains, pp.filts, iv, mid, last.gain, last.filt, avgGain)
    requires LagsRead(t, p, ModeOf(avgGain), pp.lag, mid, at, out, last.lag, last.frac)
    requires last.stage1 == p.stage1
    ensures PitchRead(cc, t, p, counts, pp, iv, at, last)
    ensures LagSlots(t, pp.lag, out)
  {
    hide LtpFit, WfLags, NoFilter, Run, LtpSyms, LagSyms, PitchTables.Wf, WfPred, Spread, LagMode, ModeOf, PrevFilt;
    RunAppend(iv, LtpSyms(cc, p, counts, pp.gains, pp.filts, SUBFRAMES), LagSyms(t, p, LagMode(cc, pp.gains), pp.lag));
  }

  lemma WrittenHalves(cc: Tables, t: PitchTables, p: Predictor, counts: seq<nat>, pp: PitchParams,
                      before: seq<Sym>, mid: seq<Sym>, after: seq<Sym>, last: Predictor, avgGain: int)
    requires LtpWritten(cc, p, counts, pp.gains, pp.filts, before, mid, last.gain, last.filt, avgGain)
    requires LagsWritten(t, p, ModeOf(avgGain), pp.lag, mid, after, last.lag, last.frac)
    requires last.stage1 == p.stage1
    ensures PitchWritten(cc, t, p, counts, pp, before, after, last)
  {
    hide LtpFit, WfLags, LtpSyms, LagSyms, PitchTables.Wf, WfPred, LagMode, ModeOf, PrevFilt;
    Regroup(before, LtpSyms(cc, p, counts, pp.gains, pp.filts, SUBFRAMES),
            LagSyms(t, p, LagMode(cc, pp.gains), pp.lag));
  }

  /** One lag for each of the eight slots. */
  ghost predicate LagSlots(t: PitchTables, lp: LagParams, laginds: seq<int>) {
    |lp.lags| == |t.Contour(lp.contour).seglens| && laginds == Spread(lp.lags, t.Contour(lp.contour).seglens)
  }

  /** What the encoder is given fits the parameters it is to write. */
  ghost predicate PitchInput(t: PitchTables, pp: PitchParams, blocksegIdx: nat, laginds: seq<nat>) {
    && blocksegIdx < CONTOURS && pp.lag.contour == blocksegIdx
    && LagsFit(t.Contour(blocksegIdx), pp.lag.lags) && pp.lag.lags != []
    && pp.lag.first == t.Contour(blocksegIdx).blocks[0]
    && LagSlots(t, pp.lag, laginds)
  }

  /** The lag half of the encoder, with its predictor update. */
  method EncodeLags(enc: RangeEncoder, t: PitchTables, st: LsfState, blocksegIdx: nat, laginds: seq<nat>, mode: nat,
                    ghost p: Predictor, ghost pp: PitchParams)
    requires enc.Valid() && t.Wf() && WfPred(p) && mode < 3 && PitchInput(t, pp, blocksegIdx, laginds)
    requires st.prevLagblk == p.lag && st.prevLagidx == p.frac
    modifies enc, enc.buf, st`prevLagblk, st`prevLagidx
    ensures enc.Valid() && enc.Misused == old(enc.Misused)
    ensures LagsWritten(t, p, mode, pp.lag, old(enc.Syms), enc.Syms, st.prevLagblk, st.prevLagidx)
  {
    PredictorIsLast(t, blocksegIdx, pp.lag.lags);
    hide RangeEncoder.Valid, LagSyms, WfPred, PitchTables.Wf, Spread, LagsPredictorAfter, WfLags, BlockSeg.Wf,
      PitchTables.Contour, LagsFit;
    EncodeLagsWire(t, enc, blocksegIdx, laginds, st.prevLagblk, st.prevLagidx, mode, p, pp.lag.lags);
    var (nblk, nidx) := LagsPredictorAfter(t, blocksegIdx, laginds);
    st.prevLagblk := nblk;
    st.prevLagidx := nidx;
  }

  lemma StateFields(st: LsfState)
    ensures var p := st.EncPred();
            p.stage1 == st.prevStage1 && p.gain == st.prevGainIdx && p.filt == st.prevFiltIdx
            && p.lag == st.prevLagblk && p.frac == st.prevLagidx
    ensures var p := st.DecPred();
            p.stage1 == st.prevStage1 && p.gain == st.prevGainIdx && p.filt == st.prevFiltIdx
            && p.lag == st.prevLag && p.frac == st.prevFracLag
  {
  }

  lemma PitchParts(cc: Tables, t: PitchTables, p: Predictor, counts: seq<nat>, pp: PitchParams)
    requires WfPitch(cc, t, p, counts, pp)
    ensures |counts| == |pp.gains| == |pp.filts| == SUBFRAMES
    ensures LtpFit(cc, p, counts, pp.gains, pp.filts, SUBFRAMES)
  {
  }

  /** Gains and filters, then the lag block: the encoder's predictor fields end where the
      decoder's will. */
  method EncodePitch(enc: RangeEncoder, cc: Tables, t: PitchTables, st: LsfState, counts: seq<nat>,
                     gains: seq<nat>, filts: seq<int>, blocksegIdx: nat, laginds: seq<nat>, ghost pp: PitchParams)
    requires enc.Valid() && cc.Wf() && t.Wf() && WfPredictor(st.EncPred())
    requires WfPitch(cc, t, st.EncPred(), counts, pp) && pp.gains == gains && pp.filts == filts
    requires PitchInput(t, pp, blocksegIdx, laginds)
    modifies enc, enc.buf, st`prevGainIdx, st`prevFiltIdx, st`prevLagblk, st`prevLagidx
    ensures enc.Valid() && enc.Misused == old(enc.Misused)
    ensures PitchWritten(cc, t, old(st.EncPred()), counts, pp, old(enc.Syms), enc.Syms, st.EncPred())
  {
    hide *;
    ghost var p := st.EncPred();
    PredictorParts(p);
    PitchParts(cc, t, p, counts, pp);
    StateFields(st);
    var avgGain := EncodeLtp(enc, cc, st, counts, gains, filts);
    ghost var mid := enc.Syms;
    var segSel := if avgGain < 10007 then 0 else if avgGain < 14085 then 1 else 2;
    ModeIs(avgGain);
    EncodeLags(enc, t, st, blocksegIdx, laginds, segSel, p, pp);
    StateFields(st);
    WrittenHalves(cc, t, p, counts, pp, old(enc.Syms), mid, enc.Syms, st.EncPred(), avgGain);
  }

  /** Reads a pitch block out of any byte string. */
  method DecodePitch(dec: RangeDecoder, cc: Tables, mem: SmplMem, st: LsfState, counts: seq<nat>, ghost t: PitchTables)
    returns (gains: seq<nat>, filts: seq<int>, contour: nat, blockLags: array<int>, ghost pp: PitchParams)
    requires dec.Valid() && cc.Wf() && t.Wf() && mem == MemOf(t) && |counts| == SUBFRAMES && WfPredictor(st.DecPred())
    modifies dec, st`prevGainIdx, st`prevFiltIdx, st`prevLag, st`prevFracLag
    ensures dec.Valid() && dec.err == old(dec.err) && fresh(blockLags)
    ensures pp.gains == gains && pp.filts == filts && pp.lag.contour == contour
    ensures PitchRead(cc, t, old(st.DecPred()), counts, pp, old(dec.At()), dec.At(), st.DecPred())
    ensures LagSlots(t, pp.lag, blockLags[..])
  {
    hide *;
    ghost var p, iv := st.DecPred(), dec.At();
    PredictorParts(p);
    StateFields(st);
    var avgGain;
    gains, filts, avgGain := DecodeLtp(dec, cc, st, counts);
    ghost var lp, mid := LagParams(0, 0, []), dec.At();
    var segSel := if avgGain < 10007 then 0 else if avgGain < 14085 then 1 else 2;
    ModeIs(avgGain);
    contour, blockLags, lp := DecodeLags(dec, mem, st, segSel, t, p);
    pp := PitchParams(gains, filts, lp);
    StateFields(st);
    ReadHalves(cc, t, p, counts, pp, iv, mid, dec.At(), st.DecPred(), avgGain, blockLags[..]);
  }
}
