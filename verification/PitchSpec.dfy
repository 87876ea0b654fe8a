/** Pitch-lag contours: the tables, and how a contour and its lags are laid out as
    symbols. */
module PitchSpec {
  import opened RangeSpec
  import opened CdfTables
  import opened CcTables
  import opened PulseSpec
  import opened Lsf

  const CONTOURS := 217
  const LAG_BLOCKS := 9
  const BLOCK_SIZE := 64
  const LAG_SLOTS := 8           // 40-sample blocks of an internal frame
  const DELTA_ENTRIES := 320

  /** A contour: which lag block each segment lies in, and how many slots it spans. */
  datatype BlockSeg = BlockSeg(blocks: seq<nat>, seglens: seq<nat>) {
    ghost predicate Wf() {
      && 1 <= |blocks| == |seglens| <= 6
      && (forall k :: 0 <= k < |blocks| ==> blocks[k] < LAG_BLOCKS && 1 <= seglens[k] <= 4)
      && Sum(seglens) == LAG_SLOTS
      && forall k :: 0 < k < |blocks| ==> SmallStep(blocks[k - 1], blocks[k])
    }
  }

  predicate SmallStep(from: int, to: int) {
    -1 <= to - from <= 2
  }

  datatype PitchTables = PitchTables(
    blocksegs: seq<BlockSeg>, blocksegs2idx: seq<nat>, blocksegIdxCmf: Cdf, deltaLagCmfs: seq<Cdf>,
    firstblockRange: seq<(nat, nat)>, blockTransitionCmf: seq<Cdf>)
  {
    ghost predicate Wf() {
      && WfContours() && WfIndex()
      && |blocksegIdxCmf| == CONTOURS + 1 && blocksegIdxCmf[0] == 0
      && |deltaLagCmfs| == 3 && (forall m :: 0 <= m < 3 ==> |deltaLagCmfs[m]| == DELTA_ENTRIES)
      && |firstblockRange| == LAG_BLOCKS && (forall f :: 0 <= f < LAG_BLOCKS ==> WfRange(f))
      && |blockTransitionCmf| == LAG_BLOCKS
      && (forall f :: 0 <= f < LAG_BLOCKS ==>
            |blockTransitionCmf[f]| == LAG_BLOCKS + 1 && blockTransitionCmf[f][0] == 0)
    }

    ghost predicate WfContours() {
      |blocksegs| == CONTOURS && forall c :: 0 <= c < CONTOURS ==> blocksegs[c].Wf()
    }

    /** Contours are numbered 1 to 217, each number once. */
    ghost predicate WfIndex() {
      && |blocksegs2idx| == CONTOURS
      && (forall c :: 0 <= c < CONTOURS ==> 1 <= blocksegs2idx[c] <= CONTOURS)
      && (forall c, d :: 0 <= c < d < CONTOURS ==> Differ(c, d))
      && |firstblockRange| == LAG_BLOCKS && |blocksegs| == CONTOURS
      && (forall c :: 0 <= c < CONTOURS ==> InFirstRange(c))
    }

    ghost predicate Differ(c: nat, d: nat)
      requires c < |blocksegs2idx| && d < |blocksegs2idx|
    {
      blocksegs2idx[c] != blocksegs2idx[d]
    }

    ghost predicate WfRange(f: nat)
      requires f < |firstblockRange|
    {
      firstblockRange[f].0 <= firstblockRange[f].1 < CONTOURS
    }

    /** The contours that start in block f have their numbers in that block's range. */
    ghost predicate InFirstRange(c: nat)
      requires c < |blocksegs| && c < |blocksegs2idx| && |firstblockRange| == LAG_BLOCKS
    {
      blocksegs[c].Wf() ==>
        var r := firstblockRange[blocksegs[c].blocks[0]];
        r.0 + 1 <= blocksegs2idx[c] <= r.1 + 1
    }

    function Contour(c: nat): BlockSeg {
      if c < |blocksegs| then blocksegs[c] else BlockSeg([], [])
    }

    /** A contour's index, counted from zero. */
    function Index(c: nat): int {
      if c < |blocksegs2idx| then blocksegs2idx[c] as int - 1 else -1
    }

    function TransitionCdf(prev: int): Cdf {
      if 0 <= prev < |blockTransitionCmf| then blockTransitionCmf[prev] else NO_TABLE
    }

    function FirstLo(f: nat): nat {
      if f < |firstblockRange| then firstblockRange[f].0 else 0
    }

    function FirstHi(f: nat): nat {
      if f < |firstblockRange| then firstblockRange[f].1 else 0
    }

    /** The index table restricted to the contours that start in block f. */
    function FirstCdf(f: nat): Cdf {
      Window(blocksegIdxCmf, FirstLo(f), FirstHi(f) - FirstLo(f) + 2)
    }

    function DeltaCdf(mode: nat, base: int): Cdf {
      if mode < |deltaLagCmfs| then Window(deltaLagCmfs[mode], base, BLOCK_SIZE + 1) else NO_TABLE
    }

    lemma IndexRange(c: nat)
      requires Wf() && c < CONTOURS
      ensures 0 <= Index(c) < CONTOURS
      ensures FirstLo(blocksegs[c].blocks[0]) <= Index(c) <= FirstHi(blocksegs[c].blocks[0])
    {
      assert InFirstRange(c);
    }

    lemma IndexInjective(c: nat, d: nat)
      requires WfIndex() && c < CONTOURS && d < CONTOURS && Index(c) == Index(d)
      ensures c == d
    {
      assert c < d ==> Differ(c, d);
      assert d < c ==> Differ(d, c);
    }

    lemma FirstSize(f: nat)
      requires Wf() && f < LAG_BLOCKS
      ensures FirstLo(f) <= FirstHi(f) < CONTOURS && |FirstCdf(f)| == FirstHi(f) - FirstLo(f) + 2
      ensures FirstCdf(f) == blocksegIdxCmf[FirstLo(f)..FirstHi(f) + 2]
    {
      assert WfRange(f);
    }
  }

  function Upto(n: nat): (s: set<int>)
    ensures |s| == n && forall c :: c in s <==> 0 <= c < n
  {
    if n == 0 then {} else Upto(n - 1) + {n - 1}
  }

  /** Every number below 217 is some contour's index: injectivity leaves no gaps. */
  lemma IndexOnto(t: PitchTables, lag: nat)
    requires t.WfIndex() && lag < CONTOURS
    ensures exists c :: 0 <= c < CONTOURS && t.Index(c) == lag
  {
    hide *;
    ImageIsAll(t);
    ImageSize(t, CONTOURS);
    assert lag in Image(t, CONTOURS);
  }

  /** The numbers of the first n contours. */
  ghost function Image(t: PitchTables, n: nat): set<int>
    requires t.WfIndex() && n <= CONTOURS
  {
    if n == 0 then {} else Image(t, n - 1) + {t.Index(n - 1)}
  }

  lemma {:induction false} ImageSize(t: PitchTables, n: nat)
    requires t.WfIndex() && n <= CONTOURS
    ensures |Image(t, n)| == n && forall x :: x in Image(t, n) ==> 0 <= x < CONTOURS
    ensures forall x :: x in Image(t, n) ==> exists c :: 0 <= c < n && t.Index(c) == x
  {
    if n > 0 {
      ImageSize(t, n - 1);
      assert 0 <= t.Index(n - 1) < CONTOURS;
      hide PitchTables.WfIndex, PitchTables.Index;
      if t.Index(n - 1) in Image(t, n - 1) {
        var c :| 0 <= c < n - 1 && t.Index(c) == t.Index(n - 1);
        t.IndexInjective(c, n - 1);
      }
    }
  }

  lemma ImageIsAll(t: PitchTables)
    requires t.WfIndex()
    ensures forall x :: x in Image(t, CONTOURS) <==> 0 <= x < CONTOURS
  {
    ImageSize(t, CONTOURS);
    hide PitchTables.WfIndex, Image, PitchTables.Index;
    SameSize(Image(t, CONTOURS), Upto(CONTOURS));
  }

  lemma SameSize(a: set<int>, b: set<int>)
    requires a <= b && |a| == |b|
    ensures a == b
  {
    assert |b - a| == |b| - |a|;
  }

  // ---- lags ----

  /** first is the block announced before the contour, when one is. */
  datatype LagParams = LagParams(first: nat, contour: nat, lags: seq<nat>)

  /** A fine lag is sent in full unless the contour starts near the previous lag. */
  function FineRead(p: Predictor, block: nat): bool {
    !(p.lag >= 0 && -1 <= block - p.lag < 3)
  }

  ghost predicate WfPred(p: Predictor) {
    p.lag < 0 || (p.lag < LAG_BLOCKS && InBlock(p.lag, p.frac))
  }

  predicate InBlock(block: int, lag: int) {
    BLOCK_SIZE * block <= lag < BLOCK_SIZE * block + BLOCK_SIZE
  }

  /** 64 equally likely values, as a table. */
  function Ramp(): (c: Cdf)
    ensures |c| == BLOCK_SIZE + 1 && forall i :: 0 <= i <= BLOCK_SIZE ==> c[i] == i
  {
    var c := seq(BLOCK_SIZE + 1, i requires 0 <= i <= BLOCK_SIZE => i);
    assert forall i, j :: 0 <= i < j < |c| ==> Below(c, i, j);
    c
  }

  lemma RampUniform(v: nat)
    requires v < BLOCK_SIZE
    ensures CdfSym(Ramp(), v) == UniformSym(v, BLOCK_SIZE)
  {
  }

  /** Each lag is sent as its offset in its block.  After the first, the table is the
      window of the delta table that starts at the distance from the previous lag. */
  ghost function LagModel(t: PitchTables, seg: BlockSeg, p: Predictor, mode: nat): Model {
    (fr: seq<nat>) => LagTable(t, seg, p, mode, fr)
  }

  function LagTable(t: PitchTables, seg: BlockSeg, p: Predictor, mode: nat, fr: seq<nat>): Cdf {
    var k := |fr|;
    if k >= |seg.blocks| then NO_TABLE
    else if k == 0 && FineRead(p, seg.blocks[0]) then Ramp()
    else t.DeltaCdf(mode, BLOCK_SIZE * seg.blocks[k] - PrevLag(seg, p, fr) + 2 * BLOCK_SIZE - 1)
  }

  function PrevLag(seg: BlockSeg, p: Predictor, fr: seq<nat>): int
    requires |fr| <= |seg.blocks|
  {
    if fr == [] then p.frac else BLOCK_SIZE * seg.blocks[|fr| - 1] + fr[|fr| - 1]
  }

  /** The block that segment k is coded against. */
  function BlockBefore(seg: BlockSeg, p: Predictor, k: nat): int
    requires k <= |seg.blocks|
  {
    if k == 0 then p.lag else seg.blocks[k - 1]
  }

  /** For a well-formed contour every window lies inside its table. */
  lemma LagTableSize(t: PitchTables, seg: BlockSeg, p: Predictor, mode: nat, fr: seq<nat>)
    requires t.Wf() && seg.Wf() && WfPred(p) && mode < 3
    requires |fr| < |seg.blocks| && (fr != [] ==> fr[|fr| - 1] < BLOCK_SIZE)
    ensures |LagTable(t, seg, p, mode, fr)| == BLOCK_SIZE + 1
  {
    var k := |fr|;
    if k > 0 {
      assert SmallStep(seg.blocks[k - 1], seg.blocks[k]);
    }
  }

  /** A lag's offset in its block. */
  function Frac(block: nat, lag: nat): (f: nat)
    requires InBlock(block, lag)
    ensures f < BLOCK_SIZE
  {
    lag - BLOCK_SIZE * block
  }

  function Fracs(seg: BlockSeg, lags: seq<nat>): (r: seq<nat>)
    requires |lags| == |seg.blocks| && forall k :: 0 <= k < |lags| ==> InBlock(seg.blocks[k], lags[k])
    ensures |r| == |lags| && forall k :: 0 <= k < |r| ==> r[k] < BLOCK_SIZE
  {
    seq(|lags|, k requires 0 <= k < |lags| => Frac(seg.blocks[k], lags[k]))
  }

  ghost predicate LagsFit(seg: BlockSeg, lags: seq<nat>) {
    |lags| == |seg.blocks| && forall k :: 0 <= k < |lags| ==> InBlock(seg.blocks[k], lags[k])
  }

  ghost predicate WfLags(t: PitchTables, p: Predictor, lp: LagParams) {
    && lp.contour < CONTOURS && LagsFit(t.Contour(lp.contour), lp.lags)
    && lp.lags != []
    && (if p.lag < 0 then lp.first == t.Contour(lp.contour).blocks[0]
        else lp.first < LAG_BLOCKS && t.FirstLo(lp.first) <= t.Index(lp.contour) <= t.FirstHi(lp.first))
  }

  lemma FracsAdmissible(t: PitchTables, seg: BlockSeg, p: Predictor, mode: nat, lags: seq<nat>)
    requires t.Wf() && seg.Wf() && WfPred(p) && mode < 3 && LagsFit(seg, lags)
    ensures Admissible(LagModel(t, seg, p, mode), Fracs(seg, lags))
  {
    hide LagTable;
    var fr := Fracs(seg, lags);
    forall i | 0 <= i < |fr| ensures fr[i] < |LagModel(t, seg, p, mode)(fr[..i])| - 1 {
      LagTableSize(t, seg, p, mode, fr[..i]);
    }
  }

  ghost predicate ContourFits(t: PitchTables, p: Predictor, first: nat, index: int) {
    if p.lag < 0 then 0 <= index < |t.blocksegIdxCmf| - 1
    else first < |t.TransitionCdf(p.lag)| - 1 && 0 <= index - t.FirstLo(first) < |t.FirstCdf(first)| - 1
  }

  /** The contour's number, relative to its first block when the previous lag is known. */
  ghost function ContourSyms(t: PitchTables, p: Predictor, first: nat, index: int): seq<Sym>
    requires ContourFits(t, p, first, index)
  {
    if p.lag < 0 then [CdfSym(t.blocksegIdxCmf, index)]
    else [CdfSym(t.TransitionCdf(p.lag), first)] + [CdfSym(t.FirstCdf(first), index - t.FirstLo(first))]
  }

  lemma ContourIsFit(t: PitchTables, p: Predictor, lp: LagParams)
    requires t.Wf() && WfPred(p) && WfLags(t, p, lp)
    ensures ContourFits(t, p, lp.first, t.Index(lp.contour))
  {
    t.IndexRange(lp.contour);
    if p.lag >= 0 {
      t.FirstSize(lp.first);
    }
  }

  ghost function LagSyms(t: PitchTables, p: Predictor, mode: nat, lp: LagParams): seq<Sym>
    requires t.Wf() && WfPred(p) && mode < 3 && WfLags(t, p, lp)
  {
    ContourIsFit(t, p, lp);
    FracsAdmissible(t, t.Contour(lp.contour), p, mode, lp.lags);
    ContourSyms(t, p, lp.first, t.Index(lp.contour))
    + AdaptiveSyms(LagModel(t, t.Contour(lp.contour), p, mode), Fracs(t.Contour(lp.contour), lp.lags))
  }

  // ---- which table each symbol is in ----

  /** Without a previous lag the contour's number is sent whole.  With one its first block is sent in the
      row of the previous block, and then the number among those of the contours of that block. */
  lemma ContourWire(t: PitchTables, p: Predictor, mode: nat, lp: LagParams)
    requires t.Wf() && WfPred(p) && mode < 3 && WfLags(t, p, lp)
    ensures |LagSyms(t, p, mode, lp)| == |lp.lags| + if p.lag < 0 then 1 else 2
    ensures p.lag < 0 ==>
              LagSyms(t, p, mode, lp)[0] == CdfSym(t.blocksegIdxCmf, t.blocksegs2idx[lp.contour] - 1)
    ensures p.lag >= 0 ==>
              && LagSyms(t, p, mode, lp)[0] == CdfSym(t.blockTransitionCmf[p.lag], lp.first)
              && var (lo, hi) := t.firstblockRange[lp.first];
                 InStretch(t.blocksegIdxCmf, lo, hi + 1, t.blocksegs2idx[lp.contour] - 1 - lo,
                           LagSyms(t, p, mode, lp)[1])
  {
    hide LagTable, CdfSym, LagsFit;
    ContourIsFit(t, p, lp);
    t.IndexRange(lp.contour);
    if p.lag >= 0 {
      t.FirstSize(lp.first);
    }
  }

  /** The lag of segment k follows the contour.  The first is sent whole when the contour does not start
      within one block below and two above the previous lag; any other is sent in the 64 entries of the
      delta table of the mode that belong to the distance from the lag before. */
  lemma LagWire(t: PitchTables, p: Predictor, mode: nat, lp: LagParams, k: nat)
    requires t.Wf() && WfPred(p) && mode < 3 && WfLags(t, p, lp) && k < |lp.lags|
    ensures var syms, at := LagSyms(t, p, mode, lp), k + if p.lag < 0 then 1 else 2;
            var blk, prev := t.blocksegs[lp.contour].blocks[k], if k == 0 then p.frac else lp.lags[k - 1];
            && at < |syms| && 0 <= lp.lags[k] - 64 * blk < 64
            && if k == 0 && (p.lag < 0 || blk < p.lag - 1 || blk > p.lag + 2) then
                 syms[at] == UniformSym(lp.lags[0] - 64 * blk, 64)
               else
                 InStretch(t.deltaLagCmfs[mode], 64 * blk - prev + 127, 64 * blk - prev + 191, lp.lags[k] - 64 * blk,
                           syms[at])
  {
    hide LagTable, CdfSym, AdaptiveSyms, ContourSyms, InStretch, Admissible, LagSyms, BlockSeg.Wf, FineRead;
    var seg := t.Contour(lp.contour);
    var fr := Fracs(seg, lp.lags);
    LagAt(t, p, mode, lp, k);
    LagStretch(t, seg, p, mode, fr, k);
    assert k > 0 ==> lp.lags[k - 1] == BLOCK_SIZE * seg.blocks[k - 1] + fr[k - 1];
    hide PitchTables.Wf, LagsFit, Fracs, Frac;
  }

  lemma LagAt(t: PitchTables, p: Predictor, mode: nat, lp: LagParams, k: nat)
    requires t.Wf() && WfPred(p) && mode < 3 && WfLags(t, p, lp) && k < |lp.lags|
    ensures t.Contour(lp.contour).Wf()
    ensures var syms, at := LagSyms(t, p, mode, lp), k + if p.lag < 0 then 1 else 2;
            var fr := Fracs(t.Contour(lp.contour), lp.lags);
            && at < |syms| && fr[k] < |LagTable(t, t.Contour(lp.contour), p, mode, fr[..k])| - 1
            && syms[at] == CdfSym(LagTable(t, t.Contour(lp.contour), p, mode, fr[..k]), fr[k])
  {
    ContourWire(t, p, mode, lp);
    var seg := t.Contour(lp.contour);
    FracsAdmissible(t, seg, p, mode, lp.lags);
    AdaptiveAt(LagModel(t, seg, p, mode), Fracs(seg, lp.lags), k);
    hide LagTable, CdfSym, AdaptiveSyms;
  }

  lemma LagStretch(t: PitchTables, seg: BlockSeg, p: Predictor, mode: nat, fr: seq<nat>, k: nat)
    requires t.Wf() && seg.Wf() && WfPred(p) && mode < 3 && k < |fr| == |seg.blocks|
    requires forall i :: 0 <= i < |fr| ==> fr[i] < BLOCK_SIZE
    ensures var blk, prev := seg.blocks[k], if k == 0 then p.frac else BLOCK_SIZE * seg.blocks[k - 1] + fr[k - 1];
            var c := LagTable(t, seg, p, mode, fr[..k]);
            && |c| == BLOCK_SIZE + 1
            && if k == 0 && (p.lag < 0 || blk < p.lag - 1 || blk > p.lag + 2) then
                 CdfSym(c, fr[0]) == UniformSym(fr[0], 64)
               else
                 InStretch(t.deltaLagCmfs[mode], 64 * blk - prev + 127, 64 * blk - prev + 191, fr[k], CdfSym(c, fr[k]))
  {
    LagTableSize(t, seg, p, mode, fr[..k]);
    if k == 0 && FineRead(p, seg.blocks[0]) {
      RampUniform(fr[0]);
    } else {
      if k > 0 {
        assert SmallStep(seg.blocks[k - 1], seg.blocks[k]);
      }
      hide CdfSym, Ramp, PitchTables.Wf;
    }
  }

  lemma ContourUnique(b: seq<Byte>, iv: Interval, t: PitchTables, pr: Predictor, f: nat, g: nat, x: int, y: int,
                      p: seq<Sym>, q: seq<Sym>)
    requires ContourFits(t, pr, f, x) && ContourFits(t, pr, g, y)
    requires Reads(b, iv, ContourSyms(t, pr, f, x) + p) && Reads(b, iv, ContourSyms(t, pr, g, y) + q)
    ensures x == y && (pr.lag >= 0 ==> f == g)
    ensures ContourSyms(t, pr, f, x) == ContourSyms(t, pr, g, y)
    ensures Reads(b, Run(iv, ContourSyms(t, pr, f, x)), p) && Reads(b, Run(iv, ContourSyms(t, pr, f, x)), q)
  {
    hide Reads, Run, Step, CdfSym, PitchTables.FirstCdf, PitchTables.FirstLo, PitchTables.TransitionCdf;
    ReadsAfter(b, iv, ContourSyms(t, pr, f, x), p);
    ReadsAfter(b, iv, ContourSyms(t, pr, g, y), q);
    if pr.lag < 0 {
      CdfHeadUnique(b, iv, t.blocksegIdxCmf, x, y, p, q);
    } else {
      var c := t.TransitionCdf(pr.lag);
      var u, v := [CdfSym(t.FirstCdf(f), x - t.FirstLo(f))], [CdfSym(t.FirstCdf(g), y - t.FirstLo(g))];
      Regroup([CdfSym(c, f)], u, p);
      Regroup([CdfSym(c, g)], v, q);
      CdfHeadUnique(b, iv, c, f, g, u + p, v + q);
      CdfHeadUnique(b, Step(iv, CdfSym(c, f)), t.FirstCdf(f), x - t.FirstLo(f), y - t.FirstLo(f), p, q);
    }
  }

  lemma FracsInjective(seg: BlockSeg, x: seq<nat>, y: seq<nat>)
    requires LagsFit(seg, x) && LagsFit(seg, y) && Fracs(seg, x) == Fracs(seg, y)
    ensures x == y
  {
    forall k | 0 <= k < |x| ensures x[k] == y[k] {
      assert Fracs(seg, x)[k] == Fracs(seg, y)[k];
    }
  }

  /** No byte string holds two different lag blocks. */
  lemma LagUnique(b: seq<Byte>, iv: Interval, t: PitchTables, pr: Predictor, mode: nat, x: LagParams, y: LagParams,
                  p: seq<Sym>, q: seq<Sym>)
    requires t.Wf() && WfPred(pr) && mode < 3 && WfLags(t, pr, x) && WfLags(t, pr, y)
    requires Reads(b, iv, LagSyms(t, pr, mode, x) + p) && Reads(b, iv, LagSyms(t, pr, mode, y) + q)
    ensures x == y
    ensures Reads(b, Run(iv, LagSyms(t, pr, mode, x)), p) && Reads(b, Run(iv, LagSyms(t, pr, mode, x)), q)
  {
    hide Reads, Run, Step, ContourSyms, ContourFits, PitchTables.Wf, LagModel, AdaptiveSyms, Admissible;
    ReadsAfter(b, iv, LagSyms(t, pr, mode, x), p);
    ReadsAfter(b, iv, LagSyms(t, pr, mode, y), q);
    TablesIndex(t);
    ContourIsFit(t, pr, x);
    ContourIsFit(t, pr, y);
    var sx, sy := t.Contour(x.contour), t.Contour(y.contour);
    FracsAdmissible(t, sx, pr, mode, x.lags);
    FracsAdmissible(t, sy, pr, mode, y.lags);
    var cx, cy := ContourSyms(t, pr, x.first, t.Index(x.contour)), ContourSyms(t, pr, y.first, t.Index(y.contour));
    var ax, ay := AdaptiveSyms(LagModel(t, sx, pr, mode), Fracs(sx, x.lags)),
                  AdaptiveSyms(LagModel(t, sy, pr, mode), Fracs(sy, y.lags));
    Regroup(cx, ax, p);
    Regroup(cy, ay, q);
    ContourUnique(b, iv, t, pr, x.first, y.first, t.Index(x.contour), t.Index(y.contour), ax + p, ay + q);
    t.IndexInjective(x.contour, y.contour);
    AdaptiveUnique(b, Run(iv, cx), LagModel(t, sx, pr, mode), Fracs(sx, x.lags), Fracs(sx, y.lags), p, q);
    FracsInjective(sx, x.lags, y.lags);
  }

  lemma TablesIndex(t: PitchTables)
    requires t.Wf()
    ensures t.WfIndex() && t.WfContours()
    ensures forall c :: 0 <= c < CONTOURS ==> t.Contour(c).Wf()
  {
  }

  // ---- one lag per slot ----

  /** Each segment's lag, repeated over its slots. */
  function Spread(lags: seq<nat>, seglens: seq<nat>): (r: seq<nat>)
    requires |lags| == |seglens|
    ensures |r| == Sum(seglens)
  {
    if lags == [] then []
    else
      var n := |lags| - 1;
      Spread(lags[..n], seglens[..n]) + seq(seglens[n], _ => lags[n])
  }

  /** Segment k holds its slots; in particular its first, when it has any. */
  lemma {:induction false} SpreadAt(lags: seq<nat>, seglens: seq<nat>, k: nat, j: nat)
    requires |lags| == |seglens| && k < |lags| && Start(seglens, k) <= j < Start(seglens, k + 1)
    ensures j < Sum(seglens) && Spread(lags, seglens)[j] == lags[k]
    decreases |lags|
  {
    var n := |lags| - 1;
    assert seglens == seglens[..n + 1];
    StartMono(seglens, k + 1, n + 1);
    if k < n {
      assert seglens[..n][..k] == seglens[..k] && seglens[..n][..k + 1] == seglens[..k + 1];
      SpreadAt(lags[..n], seglens[..n], k, j);
    }
  }
}
