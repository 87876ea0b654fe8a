/** The line-spectrum block, the first of an internal frame, and the predictor state
    that the frames of a packet share. */
module Lsf {
  import opened RangeSpec
  import opened RangeEncoding
  import opened RangeDecoding

  datatype LsfTables = LsfTables(
    sel: seq<Cdf>, match1: Cdf, match1Alt: Cdf, match0: Cdf, match0Alt: Cdf,
    stage2: seq<seq<seq<seq<Cdf>>>>, extra: Cdf)
  {
    /** Two stage-1 codebooks, and sixteen residual tables for every grid a selector can name. */
    ghost predicate Wf() {
      && |sel| == 3 && (forall i :: 0 <= i < 3 ==> |sel[i]| == 3)
      && |stage2| == 2
      && forall s :: 0 <= s < 2 ==>
           |stage2[s]| == 2 && CoversGrids(stage2[s][0]) && CoversGrids(stage2[s][1])
    }

    ghost predicate CoversGrids(residuals: seq<seq<Cdf>>) {
      && |residuals| >= |match1| - 1 && |residuals| >= |match1Alt| - 1
      && |residuals| >= |match0| - 1 && |residuals| >= |match0Alt| - 1
      && forall g :: 0 <= g < |residuals| ==> |residuals[g]| == 16
    }

    function SelCdf(row: nat): Cdf {
      if row < |sel| then sel[row] else NO_TABLE
    }

    /** The sixteen residual tables; outside the stored books there is nothing to read. */
    function Residuals(stage1: nat, config: nat, grid: nat): (r: seq<Cdf>)
      ensures |r| == 16
    {
      if stage1 < |stage2| && config < |stage2[stage1]| && grid < |stage2[stage1][config]|
         && |stage2[stage1][config][grid]| == 16
      then stage2[stage1][config][grid]
      else seq(16, _ => NO_TABLE)
    }

    /** Every grid that a selector can name is in the books, so nothing is made up. */
    lemma InBooks(stage1: nat, config: nat, m: bool, grid: nat)
      requires Wf() && stage1 < 2 && config < 2 && grid < |GridCdf(this, m, stage1)| - 1
      ensures grid < |stage2[stage1][config]|
      ensures Residuals(stage1, config, grid) == stage2[stage1][config][grid]
    {
      assert CoversGrids(stage2[stage1][config]) by {
        if config == 0 {} else {}
      }
    }
  }

  /** What one internal frame leaves behind for the next; lag and frac are the lag
      block and lag index, which encoder and decoder keep in different fields. */
  datatype Predictor = Predictor(stage1: int, gain: int, filt: int, lag: int, frac: int)

  class LsfState {
    var prevStage1: int
    var prevMatch: bool
    var havePrev: bool
    var prevGainIdx: int
    var prevFiltIdx: int
    var prevLag: int
    var prevFracLag: int
    var prevLagblk: int
    var prevLagidx: int

    constructor ()
      ensures EncPred() == Predictor(0, 0, 0, 0, 0) && DecPred() == Predictor(0, 0, 0, 0, 0)
    {
      prevStage1, prevMatch, havePrev, prevGainIdx, prevFiltIdx := 0, false, false, 0, 0;
      prevLag, prevFracLag, prevLagblk, prevLagidx := 0, 0, 0, 0;
    }

    ghost function EncPred(): Predictor reads this {
      Predictor(prevStage1, prevGainIdx, prevFiltIdx, prevLagblk, prevLagidx)
    }

    ghost function DecPred(): Predictor reads this {
      Predictor(prevStage1, prevGainIdx, prevFiltIdx, prevLag, prevFracLag)
    }
  }

  datatype LsfParams = LsfParams(stage1: nat, grid: nat, stage2: seq<nat>, extra: nat)

  function Matches(p: Predictor, intf: nat, stage1: nat): bool {
    intf != 0 && stage1 == p.stage1
  }

  /** The predictors survive only between frames of the same stage-1 codebook. */
  function AfterLsf(p: Predictor, intf: nat, stage1: nat): Predictor {
    if Matches(p, intf, stage1) then p else Predictor(stage1, -1, -1, -1, -1)
  }

  function SelRow(p: Predictor, intf: nat): (r: nat)
    ensures r < 3
  {
    if intf == 0 then 0 else if p.stage1 != 0 then 2 else 1
  }

  function GridCdf(t: LsfTables, m: bool, stage1: nat): Cdf {
    if m && stage1 != 0 then t.match1
    else if m then t.match1Alt
    else if stage1 != 0 then t.match0Alt
    else t.match0
  }

  ghost predicate WfLsfParams(t: LsfTables, p: Predictor, config: nat, intf: nat, lsf: LsfParams) {
    && lsf.stage1 < |t.SelCdf(SelRow(p, intf))| - 1
    && lsf.grid < |GridCdf(t, Matches(p, intf, lsf.stage1), lsf.stage1)| - 1
    && |lsf.stage2| == 16 && Indexes(t.Residuals(lsf.stage1, config, lsf.grid), lsf.stage2)
    && lsf.extra < |t.extra| - 1
  }

  /** Selector, grid, residuals, extra. */
  function Layout(s1: Sym, s2: Sym, mid: seq<Sym>, s4: Sym): seq<Sym> {
    [s1] + ([s2] + (mid + [s4]))
  }

  lemma LayoutRest(s1: Sym, s2: Sym, mid: seq<Sym>, s4: Sym, rest: seq<Sym>)
    ensures Layout(s1, s2, mid, s4) + rest == [s1] + ([s2] + (mid + ([s4] + rest)))
    ensures rest + Layout(s1, s2, mid, s4) == rest + [s1] + [s2] + mid + [s4]
  {
  }

  lemma LayoutRun(iv: Interval, s1: Sym, s2: Sym, mid: seq<Sym>, s4: Sym)
    ensures Run(iv, Layout(s1, s2, mid, s4)) == Step(Run(Step(Step(iv, s1), s2), mid), s4)
  {
    var tail := mid + [s4];
    RunSnoc(Step(Step(iv, s1), s2), mid, s4);
    assert ([s2] + tail)[1..] == tail;
    assert ([s1] + ([s2] + tail))[1..] == [s2] + tail;
  }

  ghost function LsfSyms(t: LsfTables, p: Predictor, config: nat, intf: nat, lsf: LsfParams): seq<Sym>
    requires WfLsfParams(t, p, config, intf, lsf)
  {
    var m := Matches(p, intf, lsf.stage1);
    Layout(CdfSym(t.SelCdf(SelRow(p, intf)), lsf.stage1),
           CdfSym(GridCdf(t, m, lsf.stage1), lsf.grid),
           TableSyms(t.Residuals(lsf.stage1, config, lsf.grid), lsf.stage2),
           CdfSym(t.extra, lsf.extra))
  }

  /** The table of every symbol of a block.  The selector's is the first at the start of a packet, the
      second after selector 0, the third after any other; the grid's is that of the selector, new or
      repeated; the sixteen residuals are in the tables of selector, rate and grid. */
  lemma LsfWire(t: LsfTables, p: Predictor, config: nat, intf: nat, lsf: LsfParams)
    requires t.Wf() && config < 2 && WfLsfParams(t, p, config, intf, lsf)
    ensures |LsfSyms(t, p, config, intf, lsf)| == 19 && lsf.stage1 < 2
    ensures intf == 0 ==> LsfSyms(t, p, config, intf, lsf)[0] == CdfSym(t.sel[0], lsf.stage1)
    ensures intf > 0 && p.stage1 == 0 ==> LsfSyms(t, p, config, intf, lsf)[0] == CdfSym(t.sel[1], lsf.stage1)
    ensures intf > 0 && p.stage1 != 0 ==> LsfSyms(t, p, config, intf, lsf)[0] == CdfSym(t.sel[2], lsf.stage1)
    ensures lsf.stage1 == 1 && intf > 0 && p.stage1 == 1 ==>
              lsf.grid < |t.match1| - 1 && LsfSyms(t, p, config, intf, lsf)[1] == CdfSym(t.match1, lsf.grid)
    ensures lsf.stage1 == 0 && intf > 0 && p.stage1 == 0 ==>
              lsf.grid < |t.match1Alt| - 1 && LsfSyms(t, p, config, intf, lsf)[1] == CdfSym(t.match1Alt, lsf.grid)
    ensures lsf.stage1 == 1 && (intf == 0 || p.stage1 != 1) ==>
              lsf.grid < |t.match0Alt| - 1 && LsfSyms(t, p, config, intf, lsf)[1] == CdfSym(t.match0Alt, lsf.grid)
    ensures lsf.stage1 == 0 && (intf == 0 || p.stage1 != 0) ==>
              lsf.grid < |t.match0| - 1 && LsfSyms(t, p, config, intf, lsf)[1] == CdfSym(t.match0, lsf.grid)
    ensures lsf.grid < |t.stage2[lsf.stage1][config]| && |t.stage2[lsf.stage1][config][lsf.grid]| == 16
    ensures forall k :: 0 <= k < 16 ==>
              && lsf.stage2[k] < |t.stage2[lsf.stage1][config][lsf.grid][k]| - 1
              && LsfSyms(t, p, config, intf, lsf)[2 + k]
                 == CdfSym(t.stage2[lsf.stage1][config][lsf.grid][k], lsf.stage2[k])
    ensures LsfSyms(t, p, config, intf, lsf)[18] == CdfSym(t.extra, lsf.extra)
  {
    var m := Matches(p, intf, lsf.stage1);
    t.InBooks(lsf.stage1, config, m, lsf.grid);
    var res := t.Residuals(lsf.stage1, config, lsf.grid);
    var mid := TableSyms(res, lsf.stage2);
    LayoutAt(CdfSym(t.SelCdf(SelRow(p, intf)), lsf.stage1), CdfSym(GridCdf(t, m, lsf.stage1), lsf.grid), mid,
             CdfSym(t.extra, lsf.extra));
    forall k | 0 <= k < 16 ensures mid[k] == CdfSym(res[k], lsf.stage2[k]) {
      TableAt(res, lsf.stage2, k);
    }
    hide TableSyms, Layout, CdfSym;
  }

  lemma LayoutAt(s1: Sym, s2: Sym, mid: seq<Sym>, s4: Sym)
    ensures var s := Layout(s1, s2, mid, s4);
            && |s| == |mid| + 3 && s[0] == s1 && s[1] == s2 && s[|mid| + 2] == s4
            && forall k :: 0 <= k < |mid| ==> s[2 + k] == mid[k]
  {
  }

  /** Each part of a block is told apart by what precedes it. */
  lemma LayoutUnique(b: seq<Byte>, iv: Interval, sel: Cdf, gx: Cdf, gy: Cdf, cx: seq<Cdf>, cy: seq<Cdf>, e: Cdf,
                     x: LsfParams, y: LsfParams, rx: seq<Sym>, ry: seq<Sym>)
    requires x.stage1 < |sel| - 1 && y.stage1 < |sel| - 1 && x.grid < |gx| - 1 && y.grid < |gy| - 1
    requires x.stage1 == y.stage1 ==> gx == gy
    requires x.stage1 == y.stage1 && x.grid == y.grid ==> cx == cy
    requires |x.stage2| == |y.stage2| && Indexes(cx, x.stage2) && Indexes(cy, y.stage2)
    requires x.extra < |e| - 1 && y.extra < |e| - 1
    requires Reads(b, iv, [CdfSym(sel, x.stage1)]
                          + ([CdfSym(gx, x.grid)] + (TableSyms(cx, x.stage2) + ([CdfSym(e, x.extra)] + rx))))
    requires Reads(b, iv, [CdfSym(sel, y.stage1)]
                          + ([CdfSym(gy, y.grid)] + (TableSyms(cy, y.stage2) + ([CdfSym(e, y.extra)] + ry))))
    ensures x == y
  {
    var sx, sy := [CdfSym(e, x.extra)] + rx, [CdfSym(e, y.extra)] + ry;
    var tx, ty := TableSyms(cx, x.stage2) + sx, TableSyms(cy, y.stage2) + sy;
    CdfHeadUnique(b, iv, sel, x.stage1, y.stage1, [CdfSym(gx, x.grid)] + tx, [CdfSym(gy, y.grid)] + ty);
    var iv1 := Step(iv, CdfSym(sel, x.stage1));
    CdfHeadUnique(b, iv1, gx, x.grid, y.grid, tx, ty);
    var iv2 := Step(iv1, CdfSym(gx, x.grid));
    TableUnique(b, iv2, cx, x.stage2, y.stage2, sx, sy);
    CdfHeadUnique(b, Run(iv2, TableSyms(cx, x.stage2)), e, x.extra, y.extra, rx, ry);
  }

  /** No byte string holds two different line-spectrum blocks. */
  lemma LsfUnique(b: seq<Byte>, iv: Interval, t: LsfTables, p: Predictor, config: nat, intf: nat,
                  x: LsfParams, y: LsfParams, rx: seq<Sym>, ry: seq<Sym>)
    requires WfLsfParams(t, p, config, intf, x) && WfLsfParams(t, p, config, intf, y)
    requires Reads(b, iv, LsfSyms(t, p, config, intf, x) + rx)
    requires Reads(b, iv, LsfSyms(t, p, config, intf, y) + ry)
    ensures x == y
  {
    var sel := t.SelCdf(SelRow(p, intf));
    var gx, gy := GridCdf(t, Matches(p, intf, x.stage1), x.stage1), GridCdf(t, Matches(p, intf, y.stage1), y.stage1);
    var cx := t.Residuals(x.stage1, config, x.grid);
    var cy := t.Residuals(y.stage1, config, y.grid);
    LayoutRest(CdfSym(sel, x.stage1), CdfSym(gx, x.grid), TableSyms(cx, x.stage2), CdfSym(t.extra, x.extra), rx);
    LayoutRest(CdfSym(sel, y.stage1), CdfSym(gy, y.grid), TableSyms(cy, y.stage2), CdfSym(t.extra, y.extra), ry);
    LayoutUnique(b, iv, sel, gx, gy, cx, cy, t.extra, x, y, rx, ry);
  }

  method EncodeLsf(enc: RangeEncoder, t: LsfTables, st: LsfState, config: nat, intf: nat, lsf: LsfParams)
    requires enc.Valid() && t.Wf() && config < 2
    requires WfLsfParams(t, st.EncPred(), config, intf, lsf)
    modifies enc, enc.buf, st
    ensures enc.Valid() && enc.Misused == old(enc.Misused)
    ensures enc.Syms == old(enc.Syms) + LsfSyms(t, old(st.EncPred()), config, intf, lsf)
    ensures st.EncPred() == AfterLsf(old(st.EncPred()), intf, lsf.stage1)
  {
    var sel := 0;
    if intf != 0 {
      sel := if st.prevStage1 != 0 then 2 else 1;
    }
    var stage1 := lsf.stage1;
    var m := AdvanceState(st, intf, stage1, true);
    t.InBooks(stage1, config, m, lsf.grid);
    var gridCdf := if m && stage1 != 0 then t.match1
                   else if m then t.match1Alt
                   else if stage1 != 0 then t.match0Alt
                   else t.match0;
    var st2 := t.stage2[stage1][config][lsf.grid];
    EncodeBlock(enc, t.sel[sel], gridCdf, st2, t.extra, lsf);
  }

  method EncodeBlock(enc: RangeEncoder, selCdf: Cdf, gridCdf: Cdf, cdfs: seq<Cdf>, extraCdf: Cdf, lsf: LsfParams)
    requires enc.Valid() && |lsf.stage2| == |cdfs| && Indexes(cdfs, lsf.stage2)
    requires lsf.stage1 < |selCdf| - 1 && lsf.grid < |gridCdf| - 1 && lsf.extra < |extraCdf| - 1
    modifies enc, enc.buf
    ensures enc.Valid() && enc.Misused == old(enc.Misused)
    ensures enc.Syms == old(enc.Syms) + Layout(CdfSym(selCdf, lsf.stage1), CdfSym(gridCdf, lsf.grid),
                                               TableSyms(cdfs, lsf.stage2), CdfSym(extraCdf, lsf.extra))
  {
    LayoutRest(CdfSym(selCdf, lsf.stage1), CdfSym(gridCdf, lsf.grid), TableSyms(cdfs, lsf.stage2),
               CdfSym(extraCdf, lsf.extra), enc.Syms);
    enc.EncodeCDF(lsf.stage1, selCdf);
    enc.EncodeCDF(lsf.grid, gridCdf);
    EncodeResiduals(enc, cdfs, lsf.stage2);
    enc.EncodeCDF(lsf.extra, extraCdf);
  }

  /** The predictor reset: the encoder also clears its own lag predictor. */
  method AdvanceState(st: LsfState, intf: nat, stage1: nat, encoder: bool) returns (m: bool)
    modifies st
    ensures m == Matches(old(st.DecPred()), intf, stage1)
    ensures st.DecPred() == AfterLsf(old(st.DecPred()), intf, stage1)
    ensures encoder ==> st.EncPred() == AfterLsf(old(st.EncPred()), intf, stage1)
    ensures st.prevMatch == m && st.havePrev
  {
    m := intf != 0 && stage1 == st.prevStage1;
    if !m {
      st.prevGainIdx := -1;
      st.prevFiltIdx := -1;
      st.prevLag := -1;
      st.prevFracLag := -1;
      if encoder {
        st.prevLagblk := -1;
        st.prevLagidx := -1;
      }
    }
    st.prevStage1 := stage1;
    st.prevMatch := m;
    st.havePrev := true;
  }

  method EncodeResiduals(enc: RangeEncoder, cdfs: seq<Cdf>, xs: seq<nat>)
    requires enc.Valid() && |xs| == |cdfs| && Indexes(cdfs, xs)
    modifies enc, enc.buf
    ensures enc.Valid() && enc.Misused == old(enc.Misused)
    ensures enc.Syms == old(enc.Syms) + TableSyms(cdfs, xs)
  {
    for k := 0 to |xs|
      invariant enc.Valid() && enc.Misused == old(enc.Misused)
      invariant enc.Syms == old(enc.Syms) + TableSyms(cdfs, xs[..k])
    {
      enc.EncodeCDF(xs[k], cdfs[k]);
      TableSlice(cdfs, xs, k);
    }
    assert xs[..|xs|] == xs;
  }

  /** Reads a line-spectrum block out of any byte string: the symbols consumed are
      those the encoder writes for the returned parameters. */
  method DecodeLsf(dec: RangeDecoder, t: LsfTables, st: LsfState, config: nat, intf: nat)
    returns (lsf: LsfParams)
    requires dec.Valid() && t.Wf() && config < 2
    modifies dec, st
    ensures dec.Valid() && dec.err == old(dec.err)
    ensures WfLsfParams(t, old(st.DecPred()), config, intf, lsf)
    ensures dec.At() == Run(old(dec.At()), LsfSyms(t, old(st.DecPred()), config, intf, lsf))
    ensures st.DecPred() == AfterLsf(old(st.DecPred()), intf, lsf.stage1)
  {
    ghost var iv: Interval := dec.At();
    var sel := 0;
    if intf != 0 {
      sel := if st.prevStage1 != 0 then 2 else 1;
    }
    var stage1 := dec.DecodeCDF(t.sel[sel]);
    ghost var s1 := CdfSym(t.sel[sel], stage1);
    var m := AdvanceState(st, intf, stage1, false);
    var gridCdf := if m && stage1 != 0 then t.match1
                   else if m then t.match1Alt
                   else if stage1 != 0 then t.match0Alt
                   else t.match0;
    var grid := dec.DecodeCDF(gridCdf);
    ghost var s2 := CdfSym(gridCdf, grid);
    t.InBooks(stage1, config, m, grid);
    var st2 := t.stage2[stage1][config][grid];
    var stage2 := DecodeResiduals(dec, st2);
    var extra := dec.DecodeCDF(t.extra);
    lsf := LsfParams(stage1, grid, stage2, extra);
    LayoutRun(iv, s1, s2, TableSyms(st2, stage2), CdfSym(t.extra, extra));
  }

  method DecodeResiduals(dec: RangeDecoder, cdfs: seq<Cdf>) returns (xs: seq<nat>)
    requires dec.Valid()
    modifies dec
    ensures dec.Valid() && dec.err == old(dec.err) && |xs| == |cdfs| && Indexes(cdfs, xs)
    ensures dec.At() == Run(old(dec.At()), TableSyms(cdfs, xs))
  {
    ghost var iv: Interval := dec.At();
    xs := [];
    for k := 0 to |cdfs|
      invariant dec.Valid() && dec.err == old(dec.err) && |xs| == k && Indexes(cdfs, xs)
      invariant dec.At() == Run(iv, TableSyms(cdfs, xs))
    {
      var x := dec.DecodeCDF(cdfs[k]);
      TableSnoc(cdfs, xs, x);
      RunSnoc(iv, TableSyms(cdfs, xs), CdfSym(cdfs[k], x));
      xs := xs + [x];
    }
  }
}
