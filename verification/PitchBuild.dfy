/** The pitch tables and the byte window, built from one packed seed. */
module PitchBuild {
  import opened RangeSpec
  import opened RangeDecoding
  import opened CdfTables
  import opened PitchSpec
  import opened PitchMem

  // ---- contours from their bitstream ----

  method EcDecodeUniform(dec: RangeDecoder, n: nat) returns (v: nat)
    requires dec.Valid() && 0 < n <= 1000
    modifies dec
    ensures dec.Valid() && dec.err == old(dec.err)
    ensures v < n && dec.At() == Step(old(dec.At()), UniformSym(v, n))
  {
    v := dec.Decode(n);
    ghost var s := UniformSym(v, n);
    assert InCode(dec.buf, Narrow(dec.At(), s));
    dec.Update(v, v + 1, n);
  }

  ghost predicate Pairs(blocks: seq<nat>, seglens: seq<nat>) {
    && |blocks| == |seglens|
    && forall k :: 0 <= k < |blocks| ==> blocks[k] < LAG_BLOCKS && 1 <= seglens[k] <= 4
  }

  ghost predicate Packed(seg: BlockSeg) {
    1 <= |seg.blocks| <= 6 && Pairs(seg.blocks, seg.seglens)
  }

  function PairSyms(blocks: seq<nat>, seglens: seq<nat>): (r: seq<Sym>)
    requires Pairs(blocks, seglens)
  {
    if blocks == [] then []
    else
      var n := |blocks| - 1;
      PairSyms(blocks[..n], seglens[..n]) + ([UniformSym(blocks[n], 9)] + [UniformSym(seglens[n] - 1, 4)])
  }

  function SegSyms(seg: BlockSeg): seq<Sym>
    requires Packed(seg)
  {
    [UniformSym(|seg.blocks| - 1, 6)] + PairSyms(seg.blocks, seg.seglens)
  }

  lemma PairSnoc(blocks: seq<nat>, seglens: seq<nat>, b: nat, l: nat)
    requires Pairs(blocks, seglens) && b < LAG_BLOCKS && 1 <= l <= 4
    ensures PairSyms(blocks + [b], seglens + [l])
            == PairSyms(blocks, seglens) + ([UniformSym(b, 9)] + [UniformSym(l - 1, 4)])
  {
    assert (blocks + [b])[..|blocks|] == blocks && (seglens + [l])[..|blocks|] == seglens;
  }

  lemma TwoSteps(iv: Interval, head: seq<Sym>, s: Sym, u: Sym)
    ensures Run(iv, head + ([s] + [u])) == Step(Step(Run(iv, head), s), u)
  {
    RunAppend(iv, head, [s] + [u]);
    RunAppend(Run(iv, head), [s], [u]);
    RunOne(Run(iv, head), s);
    RunOne(Step(Run(iv, head), s), u);
  }

  /** One contour: a length, then that many pairs, each within its bounds. */
  method DecodeBlockseg(dec: RangeDecoder) returns (seg: BlockSeg)
    requires dec.Valid()
    modifies dec
    ensures dec.Valid() && dec.err == old(dec.err)
    ensures Packed(seg) && dec.At() == Run(old(dec.At()), SegSyms(seg))
  {
    hide RangeDecoder.Valid, RangeDecoder.At, Run, Step, PairSyms;
    ghost var iv := dec.At();
    var v := EcDecodeUniform(dec, 6);
    ghost var iv1 := dec.At();
    var length := v + 1;
    var blocks: seq<nat>, seglens: seq<nat> := [], [];
    NoPairs();
    RunOne(iv1, Sym(0, 1, 1));
    RunOne(iv, UniformSym(v, 6));
    for j := 0 to length
      invariant dec.Valid() && dec.err == old(dec.err) && |blocks| == j && Pairs(blocks, seglens)
      invariant dec.At() == Run(iv1, PairSyms(blocks, seglens))
    {
      var b := EcDecodeUniform(dec, 9);
      var l := EcDecodeUniform(dec, 4);
      PairSnoc(blocks, seglens, b, l + 1);
      TwoSteps(iv1, PairSyms(blocks, seglens), UniformSym(b, 9), UniformSym(l, 4));
      blocks, seglens := blocks + [b], seglens + [l + 1];
    }
    seg := BlockSeg(blocks, seglens);
    RunAppend(iv, [UniformSym(v, 6)], PairSyms(blocks, seglens));
  }

  lemma NoPairs()
    ensures PairSyms([], []) == []
  {
  }

  function AllSegSyms(segs: seq<BlockSeg>): seq<Sym>
    requires forall i :: 0 <= i < |segs| ==> Packed(segs[i])
  {
    if segs == [] then [] else AllSegSyms(segs[..|segs| - 1]) + SegSyms(segs[|segs| - 1])
  }

  method DecodeBlocksegs(bitstream: seq<Byte>) returns (segs: seq<BlockSeg>)
    ensures |segs| == CONTOURS && forall i :: 0 <= i < |segs| ==> Packed(segs[i])
    ensures Reads(bitstream, START, AllSegSyms(segs))
  {
    hide RangeDecoder.Valid, RangeDecoder.At, Run, Step, SegSyms, Packed;
    var dec := new RangeDecoder(bitstream);
    segs := [];
    RunOne(START, Sym(0, 1, 1));
    for i := 0 to CONTOURS
      invariant dec.Valid() && fresh(dec) && dec.buf == bitstream && |segs| == i
      invariant forall j :: 0 <= j < i ==> Packed(segs[j])
      invariant dec.At() == Run(START, AllSegSyms(segs))
    {
      var seg := DecodeBlockseg(dec);
      RunAppend(START, AllSegSyms(segs), SegSyms(seg));
      assert (segs + [seg])[..i] == segs;
      segs := segs + [seg];
    }
    Here(dec);
  }

  lemma Here(dec: RangeDecoder)
    requires dec.Valid()
    ensures InCode(dec.buf, dec.At())
  {
  }

  // ---- both tables decode the same bitstream, so they hold the same contours ----

  lemma PairsLast(blocks: seq<nat>, seglens: seq<nat>)
    requires Pairs(blocks, seglens) && blocks != []
    ensures var n := |blocks| - 1;
            && Pairs(blocks[..n], seglens[..n]) && blocks[n] < 9 && seglens[n] - 1 < 4 && seglens[n] >= 1
            && PairSyms(blocks, seglens)
               == PairSyms(blocks[..n], seglens[..n]) + ([UniformSym(blocks[n], 9)] + [UniformSym(seglens[n] - 1, 4)])
  {
  }

  lemma {:induction false} PairsUnique(b: seq<Byte>, iv: Interval, bx: seq<nat>, lx: seq<nat>, y: seq<nat>,
                                       ly: seq<nat>, p: seq<Sym>, q: seq<Sym>)
    requires Pairs(bx, lx) && Pairs(y, ly) && |bx| == |y|
    requires Reads(b, iv, PairSyms(bx, lx) + p) && Reads(b, iv, PairSyms(y, ly) + q)
    ensures bx == y && lx == ly
    ensures Reads(b, Run(iv, PairSyms(bx, lx)), p) && Reads(b, Run(iv, PairSyms(bx, lx)), q)
    decreases |bx|
  {
    hide Reads, Run, Step, PairSyms, Pairs;
    PairsSameLength(bx, lx, y, ly);
    ReadsAfter(b, iv, PairSyms(bx, lx), p);
    ReadsAfter(b, iv, PairSyms(y, ly), q);
    if bx != [] {
      var m := |bx| - 1;
      PairsLast(bx, lx);
      PairsLast(y, ly);
      var hx, hy := PairSyms(bx[..m], lx[..m]), PairSyms(y[..m], ly[..m]);
      var ux, uy := [UniformSym(bx[m], 9)], [UniformSym(y[m], 9)];
      var vx, vy := [UniformSym(lx[m] - 1, 4)], [UniformSym(ly[m] - 1, 4)];
      TwoMore(hx, ux, vx, p);
      TwoMore(hy, uy, vy, q);
      PairsUnique(b, iv, bx[..m], lx[..m], y[..m], ly[..m], ux + (vx + p), uy + (vy + q));
      var iv1 := Run(iv, hx);
      UniformHeadUnique(b, iv1, 9, bx[m], y[m], vx + p, vy + q);
      UniformHeadUnique(b, Step(iv1, UniformSym(bx[m], 9)), 4, lx[m] - 1, ly[m] - 1, p, q);
      SameSnoc(bx, y);
      SameSnoc(lx, ly);
    }
  }

  lemma PairsSameLength(bx: seq<nat>, lx: seq<nat>, y: seq<nat>, ly: seq<nat>)
    requires Pairs(bx, lx) && Pairs(y, ly) && |bx| == |y|
    ensures |lx| == |bx| == |ly| && (bx == [] ==> lx == ly)
  {
  }

  lemma TwoMore(h: seq<Sym>, u: seq<Sym>, v: seq<Sym>, p: seq<Sym>)
    ensures (h + (u + v)) + p == h + (u + (v + p))
  {
  }

  lemma SegUnique(b: seq<Byte>, iv: Interval, x: BlockSeg, y: BlockSeg, p: seq<Sym>, q: seq<Sym>)
    requires Packed(x) && Packed(y)
    requires Reads(b, iv, SegSyms(x) + p) && Reads(b, iv, SegSyms(y) + q)
    ensures x == y
    ensures Reads(b, Run(iv, SegSyms(x)), p) && Reads(b, Run(iv, SegSyms(x)), q)
  {
    hide Reads, Run, Step, PairSyms;
    ReadsAfter(b, iv, SegSyms(x), p);
    ReadsAfter(b, iv, SegSyms(y), q);
    var n, m := |x.blocks|, |y.blocks|;
    Regroup([UniformSym(n - 1, 6)], PairSyms(x.blocks, x.seglens), p);
    Regroup([UniformSym(m - 1, 6)], PairSyms(y.blocks, y.seglens), q);
    UniformHeadUnique(b, iv, 6, n - 1, m - 1, PairSyms(x.blocks, x.seglens) + p, PairSyms(y.blocks, y.seglens) + q);
    PairsUnique(b, Step(iv, UniformSym(n - 1, 6)), x.blocks, x.seglens, y.blocks, y.seglens, p, q);
  }

  lemma {:induction false} SegsUnique(b: seq<Byte>, iv: Interval, x: seq<BlockSeg>, y: seq<BlockSeg>, p: seq<Sym>,
                                      q: seq<Sym>)
    requires |x| == |y|
    requires forall i :: 0 <= i < |x| ==> Packed(x[i])
    requires forall i :: 0 <= i < |y| ==> Packed(y[i])
    requires Reads(b, iv, AllSegSyms(x) + p) && Reads(b, iv, AllSegSyms(y) + q)
    ensures x == y
    decreases |x|
  {
    hide Reads, Run, Step, SegSyms, Packed;
    if x != [] {
      var n := |x| - 1;
      var hx, hy := AllSegSyms(x[..n]), AllSegSyms(y[..n]);
      Regroup(hx, SegSyms(x[n]), p);
      Regroup(hy, SegSyms(y[n]), q);
      SegsUnique(b, iv, x[..n], y[..n], SegSyms(x[n]) + p, SegSyms(y[n]) + q);
      ReadsAfter(b, iv, hx, SegSyms(x[n]) + p);
      ReadsAfter(b, iv, hx, SegSyms(y[n]) + q);
      SegUnique(b, Run(iv, hx), x[n], y[n], p, q);
      SameSnoc(x, y);
    }
  }

  /** Two decoders over one bitstream find the same contours. */
  lemma SameContours(bitstream: seq<Byte>, x: seq<BlockSeg>, y: seq<BlockSeg>)
    requires |x| == |y| && (forall i :: 0 <= i < |x| ==> Packed(x[i])) && (forall i :: 0 <= i < |y| ==> Packed(y[i]))
    requires Reads(bitstream, START, AllSegSyms(x)) && Reads(bitstream, START, AllSegSyms(y))
    ensures x == y
  {
    hide Reads, Packed;
    assert AllSegSyms(x) + [] == AllSegSyms(x) && AllSegSyms(y) + [] == AllSegSyms(y);
    SegsUnique(bitstream, START, x, y, [], []);
  }

  // ---- the tables of a seed ----

  datatype PitchSeed = PitchSeed(
    blocksegsBitstream: seq<Byte>, blocksegs2idx: seq<Byte>, firstblockRange: seq<Byte>,
    blocksegIdxDcmf: seq<Byte>, deltaLagDcmfs: seq<Byte>, blockTransitionDcmf: seq<Byte>)
  {
    ghost predicate Wf() {
      && |blocksegs2idx| == CONTOURS && |firstblockRange| == 2 * LAG_BLOCKS && |blocksegIdxDcmf| == CONTOURS
      && |deltaLagDcmfs| == 3 * (DELTA_ENTRIES - 1) && |blockTransitionDcmf| == LAG_BLOCKS * LAG_BLOCKS
    }
  }

  function Nats(b: seq<Byte>): (r: seq<nat>)
    ensures |r| == |b|
  {
    seq(|b|, i requires 0 <= i < |b| => b[i] as int)
  }

  function ChunkPairs(b: seq<Byte>): (r: seq<(nat, nat)>)
    ensures |r| == |b| / 2
  {
    seq(|b| / 2, i requires 0 <= i < |b| / 2 => (b[2 * i] as int, b[2 * i + 1] as int))
  }

  /** The first n slices of the given length, each expanded to a table. */
  function SlicesCdf(b: seq<Byte>, step: nat, n: nat): (r: seq<Cdf>)
    requires 0 < step <= CDF_MAX && n * step <= |b|
    ensures |r| == n && forall i :: 0 <= i < n ==> |r[i]| == step + 1 && r[i][0] == 0
  {
    seq(n, i requires 0 <= i < n => SliceCdf(b, step, n, i))
  }

  function SliceCdf(b: seq<Byte>, step: nat, n: nat, i: nat): (c: Cdf)
    requires 0 < step <= CDF_MAX && n * step <= |b| && i < n
    ensures |c| == step + 1 && c[0] == 0
  {
    SliceInside(n, step, i);
    DcmfIsCdf(b[i * step..i * step + step]);
    DcmfCdf(b[i * step..i * step + step])
  }

  lemma SliceInside(n: nat, step: nat, i: nat)
    requires i < n
    ensures 0 <= i * step && i * step + step <= n * step
  {
    assert i * step + step == (i + 1) * step;
    assert (i + 1) * step <= n * step;
  }

  function TableOf(dcmf: seq<Byte>): (c: Cdf)
    requires 0 < |dcmf| <= CDF_MAX
    ensures |c| == |dcmf| + 1 && c[0] == 0
  {
    DcmfIsCdf(dcmf);
    DcmfCdf(dcmf)
  }

  function TablesOf(s: PitchSeed, segs: seq<BlockSeg>): PitchTables
    requires s.Wf()
  {
    PitchTables(segs, Nats(s.blocksegs2idx), TableOf(s.blocksegIdxDcmf),
                SlicesCdf(s.deltaLagDcmfs, DELTA_ENTRIES - 1, 3), ChunkPairs(s.firstblockRange),
                SlicesCdf(s.blockTransitionDcmf, LAG_BLOCKS, LAG_BLOCKS))
  }

  /** Whatever the seed's bytes, the tables it expands to have the right sizes; what is
      left to ask of the seed is that its contours and index map are well formed. */
  lemma TablesSized(s: PitchSeed, segs: seq<BlockSeg>)
    requires s.Wf() && |segs| == CONTOURS
    ensures var t := TablesOf(s, segs);
            t.Wf() <==> t.WfContours() && t.WfIndex() && forall f :: 0 <= f < LAG_BLOCKS ==> t.WfRange(f)
  {
    hide DcmfCdf;
  }

  // ---- both builders ----

  /** Every table comes from its own part of the seed: the index map and the ranges byte by byte, the
      contour table from all its deltas, delta table m and transition row f from the m-th and f-th of
      equally long pieces. */
  lemma BuiltFrom(s: PitchSeed, segs: seq<BlockSeg>)
    requires s.Wf()
    ensures var t := TablesOf(s, segs);
            && t.blocksegs == segs && t.blocksegIdxCmf == DcmfCdf(s.blocksegIdxDcmf)
            && |t.blocksegs2idx| == CONTOURS && |t.firstblockRange| == LAG_BLOCKS
            && (forall c :: 0 <= c < CONTOURS ==> t.blocksegs2idx[c] == s.blocksegs2idx[c])
            && (forall f :: 0 <= f < LAG_BLOCKS ==>
                  t.firstblockRange[f] == (s.firstblockRange[2 * f] as int, s.firstblockRange[2 * f + 1] as int))
            && |t.deltaLagCmfs| == 3 && |t.blockTransitionCmf| == LAG_BLOCKS
            && (forall m :: 0 <= m < 3 ==>
                  t.deltaLagCmfs[m] == DcmfCdf(s.deltaLagDcmfs[319 * m..319 * m + 319]))
            && forall f :: 0 <= f < LAG_BLOCKS ==>
                 t.blockTransitionCmf[f] == DcmfCdf(s.blockTransitionDcmf[9 * f..9 * f + 9])
  {
    hide DcmfCdf;
  }

  method BuildPitchTables(s: PitchSeed) returns (t: PitchTables)
    requires s.Wf()
    ensures |t.blocksegs| == CONTOURS && forall i :: 0 <= i < CONTOURS ==> Packed(t.blocksegs[i])
    ensures Reads(s.blocksegsBitstream, START, AllSegSyms(t.blocksegs)) && t == TablesOf(s, t.blocksegs)
    ensures t.Wf() <==> t.WfContours() && t.WfIndex() && forall f :: 0 <= f < LAG_BLOCKS ==> t.WfRange(f)
  {
    hide Packed, AllSegSyms, Reads, TablesOf, PitchTables.Wf;
    var segs := DecodeBlocksegs(s.blocksegsBitstream);
    t := TablesOf(s, segs);
    RangesThere(s, segs);
    TablesSized(s, segs);
  }

  lemma RangesThere(s: PitchSeed, segs: seq<BlockSeg>)
    requires s.Wf()
    ensures |TablesOf(s, segs).firstblockRange| == LAG_BLOCKS && TablesOf(s, segs).blocksegs == segs
  {
  }

  /** Eight words, zeros behind those there are. */
  method AppendPadded(r: seq<Byte>, xs: seq<nat>, ghost words: seq<nat>) returns (r1: seq<Byte>)
    requires |xs| <= 8 && r == U32Bytes(words)
    ensures r1 == U32Bytes(words + Padded8(xs))
  {
    hide U32Bytes;
    r1 := r;
    assert Padded8(xs)[..0] == [] && words + [] == words;
    for i := 0 to 8
      invariant r1 == U32Bytes(words + Padded8(xs)[..i])
    {
      var v := if i < |xs| then xs[i] else 0;
      assert Padded8(xs)[..i + 1] == Padded8(xs)[..i] + [v];
      BytesSnoc(words + Padded8(xs)[..i], v);
      assert words + (Padded8(xs)[..i] + [v]) == words + Padded8(xs)[..i] + [v];
      r1 := r1 + Le4(v);
    }
    assert Padded8(xs)[..8] == Padded8(xs);
  }

  lemma PackedShort(seg: BlockSeg)
    requires Packed(seg)
    ensures |seg.blocks| <= 8 && |seg.seglens| <= 8
  {
  }

  /** The record region, word by word. */
  method RecordRegion(segs: seq<BlockSeg>) returns (r0: seq<Byte>)
    requires forall i :: 0 <= i < |segs| ==> Packed(segs[i])
    ensures r0 == U32Bytes(AllRecords(segs) + HEADER)
  {
    hide U32Bytes, AllRecords, Packed, Padded8;
    r0 := [];
    BytesStart();
    assert segs[..0] == [];
    for c := 0 to |segs|
      invariant r0 == U32Bytes(AllRecords(segs[..c]))
    {
      ghost var words := AllRecords(segs[..c]);
      var blocks, seglens := segs[c].blocks, segs[c].seglens;
      PackedShort(segs[c]);
      r0 := AppendPadded(r0, blocks, words);
      r0 := AppendPadded(r0, seglens, words + Padded8(blocks));
      BytesSnoc(words + Padded8(blocks) + Padded8(seglens), |blocks|);
      r0 := r0 + Le4(|blocks|);
      RecordsSnoc(segs, c, words);
    }
    assert segs[..|segs|] == segs;
    ghost var records := AllRecords(segs);
    assert HEADER[..0] == [] && records + [] == records;
    for i := 0 to |HEADER|
      invariant r0 == U32Bytes(records + HEADER[..i])
    {
      BytesSnoc(records + HEADER[..i], HEADER[i]);
      assert records + HEADER[..i + 1] == records + HEADER[..i] + [HEADER[i]];
      r0 := r0 + Le4(HEADER[i]);
    }
    assert HEADER[..|HEADER|] == HEADER;
  }

  lemma BytesStart()
    ensures U32Bytes([]) == [] && AllRecords([]) == [] && U16Bytes([]) == [] && Join([]) == []
  {
  }

  lemma BytesSnoc(v: seq<nat>, x: nat)
    ensures U32Bytes(v + [x]) == U32Bytes(v) + Le4(x)
  {
    assert (v + [x])[..|v|] == v;
  }

  lemma RecordsSnoc(segs: seq<BlockSeg>, c: nat, before: seq<nat>)
    requires c < |segs| && before == AllRecords(segs[..c])
    ensures ((before + Padded8(segs[c].blocks)) + Padded8(segs[c].seglens)) + [|segs[c].blocks|]
            == AllRecords(segs[..c + 1])
  {
    assert segs[..c + 1][..c] == segs[..c];
  }

  /** 16-bit values, low byte first, into a buffer allocated for them. */
  method U16ToBytes(v: seq<nat>) returns (b: array<Byte>)
    ensures fresh(b) && b[..] == U16Bytes(v)
  {
    hide U16Bytes;
    b := new Byte[2 * |v|](_ => 0);
    assert v[..0] == [];
    BytesStart();
    for i := 0 to |v|
      invariant b[..2 * i] == U16Bytes(v[..i])
    {
      b[2 * i], b[2 * i + 1] := Le2(v[i])[0], Le2(v[i])[1];
      U16Snoc(v, i);
      assert b[..2 * i + 2] == b[..2 * i] + Le2(v[i]);
    }
    assert v[..|v|] == v && b[..] == b[..2 * |v|];
  }

  lemma U16Snoc(v: seq<nat>, i: nat)
    requires i < |v|
    ensures U16Bytes(v[..i + 1]) == U16Bytes(v[..i]) + Le2(v[i])
  {
    assert v[..i + 1][..i] == v[..i];
  }

  method JoinAll(cdfs: seq<Cdf>) returns (r: seq<nat>)
    ensures r == Join(cdfs)
  {
    r := [];
    for i := 0 to |cdfs|
      invariant r == Join(cdfs[..i])
    {
      assert cdfs[..i + 1][..i] == cdfs[..i];
      r := r + cdfs[i];
    }
    assert cdfs[..|cdfs|] == cdfs;
  }

  method BoundsBytes(ps: seq<(nat, nat)>) returns (b: seq<Byte>)
    ensures b == PairBytes(ps) + [0, 0]
  {
    b := [];
    for i := 0 to |ps|
      invariant b == PairBytes(ps[..i])
    {
      assert ps[..i + 1][..i] == ps[..i];
      b := b + [Low8(ps[i].0), Low8(ps[i].1)];
    }
    assert ps[..|ps|] == ps;
    b := b + [0, 0];
  }

  /** The byte window decodes the contours afresh, and still agrees with the tables. */
  method BuildSmplMem(s: PitchSeed, ghost t: PitchTables) returns (m: SmplMem)
    requires s.Wf() && |t.blocksegs| == CONTOURS && t == TablesOf(s, t.blocksegs)
    requires forall i :: 0 <= i < CONTOURS ==> Packed(t.blocksegs[i])
    requires Reads(s.blocksegsBitstream, START, AllSegSyms(t.blocksegs))
    ensures m == MemOf(t)
  {
    hide Packed, AllSegSyms, Reads, U32Bytes, U16Bytes, Join, PairBytes, AllRecords, DcmfCdf;
    var records := DecodeBlocksegs(s.blocksegsBitstream);
    SameContours(s.blocksegsBitstream, records, t.blocksegs);
    var w := TablesOf(s, records);
    var regions: seq<Region> := [];
    var r0 := RecordRegion(records);
    regions := regions + [Region(MEM_PCFG + 0x1d38, r0)];
    var lag := U16ToBytes(w.blocksegIdxCmf);
    regions := regions + [Region(HDR_LAG_CDF, lag[..])];
    var frac := JoinAll(w.deltaLagCmfs);
    var fracBytes := U16ToBytes(frac);
    regions := regions + [Region(HDR_FRAC_BASE, fracBytes[..])];
    var delta := JoinAll(w.blockTransitionCmf);
    var deltaBytes := U16ToBytes(delta);
    regions := regions + [Region(HDR_DELTA_CDF, deltaBytes[..])];
    regions := regions + [Region(HDR_CONTOUR_MAP, MapBytes(w.blocksegs2idx))];
    var bounds := BoundsBytes(w.firstblockRange);
    regions := regions + [Region(DELTA_BOUNDS, bounds)];
    m := SmplMem(regions, MEM_GCLK);
  }
}
