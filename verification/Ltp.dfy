/** Long-term-prediction gains and filters, coded relative to their predecessors. */
module Ltp {
  import opened RangeSpec
  import opened RangeEncoding
  import opened RangeDecoding
  import opened FixedPoint
  import opened CcTables
  import opened PulseSpec
  import opened Lsf

  ghost function AcbCdf(cc: Tables, prev: int): Cdf {
    if -1 <= prev < LTP_GAINS && |cc.acbgains| == (LTP_GAINS + 1) * (LTP_GAINS + 1) && IsCdf(Row(cc.acbgains, prev + 1))
    then Row(cc.acbgains, prev + 1)
    else NO_TABLE
  }

  function FilterCdf(cc: Tables, prev: int): Cdf {
    if prev == -1 then cc.fcbgainsV
    else Window(cc.fcbgainsVDelta, FILTERS - 1 - prev, FILTERS + 1)
  }

  lemma LtpTables(cc: Tables, prevGain: int, prevFilt: int)
    requires cc.Wf() && -1 <= prevGain < LTP_GAINS && -1 <= prevFilt < FILTERS
    ensures AcbCdf(cc, prevGain) == cc.AcbgainRow(prevGain) && |AcbCdf(cc, prevGain)| == LTP_GAINS + 1
    ensures |FilterCdf(cc, prevFilt)| == FILTERS + 1
    ensures prevFilt >= 0 ==> FilterCdf(cc, prevFilt) == cc.FcbgainVDelta(prevFilt)
  {
    if prevFilt >= 0 {
      WindowInside(cc.fcbgainsVDelta, FILTERS - 1 - prevFilt, FILTERS + 1);
    }
  }

  // ---- layout ----

  /** One subframe: a gain always, a filter only with pulses. */
  ghost predicate LtpFits(cc: Tables, pg: int, pf: int, cnt: nat, gain: nat, filt: int) {
    gain < |AcbCdf(cc, pg)| - 1 && (cnt > 0 ==> 0 <= filt < |FilterCdf(cc, pf)| - 1)
  }

  ghost function LtpAt(cc: Tables, pg: int, pf: int, cnt: nat, gain: nat, filt: int): seq<Sym>
    requires LtpFits(cc, pg, pf, cnt, gain, filt)
  {
    [CdfSym(AcbCdf(cc, pg), gain)] + Choice(cnt > 0, FilterCdf(cc, pf), if cnt > 0 then filt else 0)
  }

  function NextFilt(pf: int, cnt: nat, filt: int): int {
    if cnt > 0 then filt else pf
  }

  /** The gain and filter that subframe i is coded against. */
  function PrevGain(p: Predictor, gains: seq<nat>, i: nat): int
    requires i <= |gains|
  {
    if i == 0 then p.gain else gains[i - 1]
  }

  function PrevFilt(p: Predictor, counts: seq<nat>, filts: seq<int>, i: nat): int
    requires i <= |counts| && i <= |filts|
  {
    if i == 0 then p.filt else NextFilt(PrevFilt(p, counts, filts, i - 1), counts[i - 1], filts[i - 1])
  }

  ghost predicate LtpFit(cc: Tables, p: Predictor, counts: seq<nat>, gains: seq<nat>, filts: seq<int>, i: nat) {
    && i <= |counts| && i <= |gains| && i <= |filts|
    && forall k :: 0 <= k < i ==>
         LtpFits(cc, PrevGain(p, gains, k), PrevFilt(p, counts, filts, k), counts[k], gains[k], filts[k])
  }

  ghost function LtpSyms(cc: Tables, p: Predictor, counts: seq<nat>, gains: seq<nat>, filts: seq<int>, i: nat): seq<Sym>
    requires LtpFit(cc, p, counts, gains, filts, i)
  {
    if i == 0 then []
    else
      var k := i - 1;
      LtpSyms(cc, p, counts, gains, filts, k)
      + LtpAt(cc, PrevGain(p, gains, k), PrevFilt(p, counts, filts, k), counts[k], gains[k], filts[k])
  }

  ghost predicate NoFilter(counts: seq<nat>, filts: seq<int>) {
    forall k :: 0 <= k < |counts| && k < |filts| && counts[k] == 0 ==> filts[k] == -1
  }

  /** The weight of a gain index in the lag-table choice. */
  function GainWeight(cc: Tables, gi: nat): (w: int)
    ensures -WEIGHT_MAX <= w <= WEIGHT_MAX
  {
    if 2 * gi + 1 < |cc.acbWeights| then
      var w0: int, w2: int := cc.acbWeights[2 * gi], cc.acbWeights[2 * gi + 1];
      w0 + 2 * w2
    else 0
  }

  const WEIGHT_MAX := 3 * 0x8000

  function Accum(cc: Tables, gains: seq<nat>, i: nat): (w: int)
    requires i <= |gains|
    ensures -WEIGHT_MAX * i <= w <= WEIGHT_MAX * i
  {
    if i == 0 then 0 else Accum(cc, gains, i - 1) + GainWeight(cc, gains[i - 1])
  }

  /** Which of the three delta-lag tables is used. */
  function LagMode(cc: Tables, gains: seq<nat>): (m: nat)
    requires |gains| == SUBFRAMES
    ensures m < 3
  {
    ModeOf(TruncDiv(Accum(cc, gains, SUBFRAMES), SUBFRAMES))
  }

  /** Division that truncates toward zero. */
  function TruncDiv(a: int, d: nat): int
    requires d > 0
  {
    if a >= 0 then a / d else -(-a / d)
  }

  function ModeOf(avgGain: int): (m: nat)
    ensures m < 3
  {
    if avgGain < 10007 then 0 else if avgGain < 14085 then 1 else 2
  }

  ghost predicate WfState(pg: int, pf: int) {
    -1 <= pg < LTP_GAINS && -1 <= pf < FILTERS
  }

  // ---- which table each symbol is in ----

  lemma LtpAtShape(cc: Tables, pg: int, pf: int, cnt: nat, gain: nat, filt: int)
    requires LtpFits(cc, pg, pf, cnt, gain, filt)
    ensures |LtpAt(cc, pg, pf, cnt, gain, filt)| == if cnt > 0 then 2 else 1
    ensures LtpAt(cc, pg, pf, cnt, gain, filt)[0] == CdfSym(AcbCdf(cc, pg), gain)
    ensures cnt > 0 ==> LtpAt(cc, pg, pf, cnt, gain, filt)[1] == CdfSym(FilterCdf(cc, pf), filt)
  {
    hide AcbCdf, FilterCdf, CdfSym;
  }

  lemma {:induction false} LtpPlace(cc: Tables, p: Predictor, counts: seq<nat>, gains: seq<nat>, filts: seq<int>,
                                    n: nat, i: nat)
    requires LtpFit(cc, p, counts, gains, filts, n) && i < n
    requires LtpFits(cc, PrevGain(p, gains, i), PrevFilt(p, counts, filts, i), counts[i], gains[i], filts[i])
    ensures |LtpSyms(cc, p, counts, gains, filts, n)| == n + Coded(counts, n)
    ensures var at, s := i + Coded(counts, i), LtpAt(cc, PrevGain(p, gains, i), PrevFilt(p, counts, filts, i),
                                                     counts[i], gains[i], filts[i]);
            at + |s| <= |LtpSyms(cc, p, counts, gains, filts, n)|
            && LtpSyms(cc, p, counts, gains, filts, n)[at..at + |s|] == s
  {
    hide AcbCdf, FilterCdf, CdfSym, PrevFilt, LtpAt, LtpFits;
    LtpCount(cc, p, counts, gains, filts, n - 1);
    var k := n - 1;
    LtpAtShape(cc, PrevGain(p, gains, k), PrevFilt(p, counts, filts, k), counts[k], gains[k], filts[k]);
    if i < k {
      LtpPlace(cc, p, counts, gains, filts, k, i);
    }
  }

  lemma {:induction false} LtpCount(cc: Tables, p: Predictor, counts: seq<nat>, gains: seq<nat>, filts: seq<int>,
                                    n: nat)
    requires LtpFit(cc, p, counts, gains, filts, n)
    ensures |LtpSyms(cc, p, counts, gains, filts, n)| == n + Coded(counts, n)
  {
    hide AcbCdf, FilterCdf, CdfSym, PrevFilt, LtpAt, LtpFits;
    if n > 0 {
      var k := n - 1;
      LtpCount(cc, p, counts, gains, filts, k);
      LtpAtShape(cc, PrevGain(p, gains, k), PrevFilt(p, counts, filts, k), counts[k], gains[k], filts[k]);
    }
  }

  /** The filter before subframe i is that of the last subframe with pulses in front of it. */
  lemma {:induction false} FilterBefore(p: Predictor, counts: seq<nat>, filts: seq<int>, i: nat, j: int)
    requires i <= |counts| && i <= |filts| && -1 <= j < i && (j >= 0 ==> counts[j] > 0)
    requires forall k :: j < k < i ==> counts[k] == 0
    ensures PrevFilt(p, counts, filts, i) == if j >= 0 then filts[j] else p.filt
  {
    if i > 0 && j < i - 1 {
      FilterBefore(p, counts, filts, i - 1, j);
    }
  }

  /** The symbol of a gain in its row of the packed gain tables. */
  ghost predicate InGainRow(cc: Tables, prev: int, gain: nat, s: Sym) {
    && -1 <= prev < 16 && gain < 16 && |cc.acbgains| == 17 * 17
    && IsCdf(cc.acbgains[17 * (prev + 1)..17 * (prev + 1) + 17])
    && s == CdfSym(cc.acbgains[17 * (prev + 1)..17 * (prev + 1) + 17], gain)
  }

  /** The symbol of a filter, without and with one before it. */
  ghost predicate InFilterTable(cc: Tables, last: int, filt: int, s: Sym) {
    && -1 <= last < 34 && 0 <= filt < 34 && |cc.fcbgainsV| == 35 && |cc.fcbgainsVDelta| == 68
    && (last == -1 ==> s == CdfSym(cc.fcbgainsV, filt))
    && (last >= 0 ==>
          && IsCdf(cc.fcbgainsVDelta[33 - last..68 - last])
          && s == CdfSym(cc.fcbgainsVDelta[33 - last..68 - last], filt))
  }

  /** The gain of subframe i is in the row that belongs to the gain before it, the first row after
      none; its filter in the table of first filters, or in the window that belongs to the last filter
      before it, that of subframe j. */
  lemma LtpWire(cc: Tables, p: Predictor, counts: seq<nat>, gains: seq<nat>, filts: seq<int>, i: nat, j: int)
    requires cc.Wf() && |counts| == |gains| == |filts| == SUBFRAMES && i < SUBFRAMES
    requires LtpFit(cc, p, counts, gains, filts, SUBFRAMES) && WfState(p.gain, p.filt)
    requires -1 <= j < i && (j >= 0 ==> counts[j] > 0) && forall k :: j < k < i ==> counts[k] == 0
    ensures var syms, at := LtpSyms(cc, p, counts, gains, filts, SUBFRAMES), i + Coded(counts, i);
            && at < |syms| && InGainRow(cc, if i == 0 then p.gain else gains[i - 1], gains[i], syms[at])
            && (counts[i] > 0 ==>
                  && at + 1 < |syms|
                  && InFilterTable(cc, if j >= 0 then filts[j] else p.filt, filts[i], syms[at + 1]))
  {
    hide *;
    LtpStates(cc, p, counts, gains, filts, i);
    FilterBefore(p, counts, filts, i, j);
    LtpPlace(cc, p, counts, gains, filts, SUBFRAMES, i);
    var pg, pf := PrevGain(p, gains, i), PrevFilt(p, counts, filts, i);
    LtpAtShape(cc, pg, pf, counts[i], gains[i], filts[i]);
    GainBefore(p, gains, i);
    InTables(cc, pg, pf, counts[i], gains[i], filts[i]);
  }

  lemma GainBefore(p: Predictor, gains: seq<nat>, i: nat)
    requires i <= |gains|
    ensures PrevGain(p, gains, i) == if i == 0 then p.gain else gains[i - 1]
  {
  }

  lemma InTables(cc: Tables, pg: int, pf: int, cnt: nat, gain: nat, filt: int)
    requires cc.Wf() && WfState(pg, pf) && LtpFits(cc, pg, pf, cnt, gain, filt)
    ensures InGainRow(cc, pg, gain, CdfSym(AcbCdf(cc, pg), gain))
    ensures cnt > 0 ==> InFilterTable(cc, pf, filt, CdfSym(FilterCdf(cc, pf), filt))
  {
    LtpTables(cc, pg, pf);
  }

  lemma {:induction false} LtpStates(cc: Tables, p: Predictor, counts: seq<nat>, gains: seq<nat>, filts: seq<int>,
                                     i: nat)
    requires cc.Wf() && LtpFit(cc, p, counts, gains, filts, SUBFRAMES) && i < SUBFRAMES
    requires WfState(p.gain, p.filt)
    ensures WfState(PrevGain(p, gains, i), PrevFilt(p, counts, filts, i))
    ensures LtpFits(cc, PrevGain(p, gains, i), PrevFilt(p, counts, filts, i), counts[i], gains[i], filts[i])
    ensures gains[i] < LTP_GAINS && (counts[i] > 0 ==> 0 <= filts[i] < FILTERS)
  {
    if i > 0 {
      LtpStates(cc, p, counts, gains, filts, i - 1);
    }
    LtpTables(cc, PrevGain(p, gains, i), PrevFilt(p, counts, filts, i));
    hide Tables.Wf, AcbCdf, FilterCdf;
  }

  lemma AllGainsFit(cc: Tables, p: Predictor, counts: seq<nat>, gains: seq<nat>, filts: seq<int>)
    requires cc.Wf() && LtpFit(cc, p, counts, gains, filts, SUBFRAMES) && WfState(p.gain, p.filt)
    ensures forall i :: 0 <= i < SUBFRAMES ==> gains[i] < LTP_GAINS
  {
    forall i | 0 <= i < SUBFRAMES ensures gains[i] < LTP_GAINS {
      LtpStates(cc, p, counts, gains, filts, i);
    }
  }

  /** Sum over the subframes of the first weight and twice the second. */
  function WeightSum(cc: Tables, gains: seq<nat>): int
    requires |cc.acbWeights| == 2 * LTP_GAINS && |gains| == SUBFRAMES
    requires forall i :: 0 <= i < SUBFRAMES ==> gains[i] < LTP_GAINS
  {
    var w: seq<int> := seq(2 * LTP_GAINS, i requires 0 <= i < 2 * LTP_GAINS => cc.acbWeights[i] as int);
    w[2 * gains[0]] + w[2 * gains[1]] + w[2 * gains[2]] + w[2 * gains[3]]
    + 2 * (w[2 * gains[0] + 1] + w[2 * gains[1] + 1] + w[2 * gains[2] + 1] + w[2 * gains[3] + 1])
  }

  /** The lags are read in the first table below an average weight of 10007, in the second below
      14085, in the third from there on. */
  lemma ModeLaw(cc: Tables, gains: seq<nat>)
    requires |cc.acbWeights| == 2 * LTP_GAINS && |gains| == SUBFRAMES
    requires forall i :: 0 <= i < SUBFRAMES ==> gains[i] < LTP_GAINS
    ensures LagMode(cc, gains) == 0 <==> WeightSum(cc, gains) < 40028
    ensures LagMode(cc, gains) == 1 <==> 40028 <= WeightSum(cc, gains) < 56340
  {
    assert Accum(cc, gains, 4) == Accum(cc, gains, 3) + GainWeight(cc, gains[3]);
    assert Accum(cc, gains, 2) == Accum(cc, gains, 1) + GainWeight(cc, gains[1]);
  }

  // ---- unique readability ----

  lemma LtpAtUnique(b: seq<Byte>, iv: Interval, cc: Tables, pg: int, pf: int, cnt: nat,
                    g: nat, h: nat, f: int, e: int, p: seq<Sym>, q: seq<Sym>)
    requires LtpFits(cc, pg, pf, cnt, g, f) && LtpFits(cc, pg, pf, cnt, h, e) && (cnt == 0 ==> f == e)
    requires Reads(b, iv, LtpAt(cc, pg, pf, cnt, g, f) + p) && Reads(b, iv, LtpAt(cc, pg, pf, cnt, h, e) + q)
    ensures g == h && f == e
    ensures Reads(b, Run(iv, LtpAt(cc, pg, pf, cnt, g, f)), p) && Reads(b, Run(iv, LtpAt(cc, pg, pf, cnt, g, f)), q)
  {
    hide Reads, Run, Step, AcbCdf, FilterCdf, CdfSym, Choice;
    ReadsAfter(b, iv, LtpAt(cc, pg, pf, cnt, g, f), p);
    ReadsAfter(b, iv, LtpAt(cc, pg, pf, cnt, h, e), q);
    var c := AcbCdf(cc, pg);
    var u, v := if cnt > 0 then f else 0, if cnt > 0 then e else 0;
    var s, t := Choice(cnt > 0, FilterCdf(cc, pf), u), Choice(cnt > 0, FilterCdf(cc, pf), v);
    Regroup([CdfSym(c, g)], s, p);
    Regroup([CdfSym(c, h)], t, q);
    CdfHeadUnique(b, iv, c, g, h, s + p, t + q);
    ChoiceUnique(b, Step(iv, CdfSym(c, g)), cnt > 0, FilterCdf(cc, pf), u, v, p, q);
  }

  lemma {:induction false} LtpUnique(b: seq<Byte>, iv: Interval, cc: Tables, pr: Predictor, counts: seq<nat>, i: nat,
                                     g: seq<nat>, h: seq<nat>, f: seq<int>, e: seq<int>, p: seq<Sym>, q: seq<Sym>)
    requires LtpFit(cc, pr, counts, g, f, i) && LtpFit(cc, pr, counts, h, e, i)
    requires NoFilter(counts, f) && NoFilter(counts, e)
    requires Reads(b, iv, LtpSyms(cc, pr, counts, g, f, i) + p) && Reads(b, iv, LtpSyms(cc, pr, counts, h, e, i) + q)
    ensures g[..i] == h[..i] && f[..i] == e[..i]
    ensures PrevFilt(pr, counts, f, i) == PrevFilt(pr, counts, e, i)
    ensures LtpSyms(cc, pr, counts, g, f, i) == LtpSyms(cc, pr, counts, h, e, i)
    ensures Reads(b, Run(iv, LtpSyms(cc, pr, counts, g, f, i)), p)
    ensures Reads(b, Run(iv, LtpSyms(cc, pr, counts, g, f, i)), q)
  {
    hide Reads, Run, Step, LtpFits, LtpAt;
    ReadsAfter(b, iv, LtpSyms(cc, pr, counts, g, f, i), p);
    ReadsAfter(b, iv, LtpSyms(cc, pr, counts, h, e, i), q);
    if i > 0 {
      var k := i - 1;
      var hx, hy := LtpSyms(cc, pr, counts, g, f, k), LtpSyms(cc, pr, counts, h, e, k);
      var sx := LtpAt(cc, PrevGain(pr, g, k), PrevFilt(pr, counts, f, k), counts[k], g[k], f[k]);
      var sy := LtpAt(cc, PrevGain(pr, h, k), PrevFilt(pr, counts, e, k), counts[k], h[k], e[k]);
      Regroup(hx, sx, p);
      Regroup(hy, sy, q);
      LtpUnique(b, iv, cc, pr, counts, k, g, h, f, e, sx + p, sy + q);
      SameGain(pr, g, h, k);
      LtpAtUnique(b, Run(iv, hx), cc, PrevGain(pr, g, k), PrevFilt(pr, counts, f, k), counts[k],
                  g[k], h[k], f[k], e[k], p, q);
      PrefixGrow(g, h, k, i);
      PrefixGrow(f, e, k, i);
    }
  }

  lemma SameGain(p: Predictor, g: seq<nat>, h: seq<nat>, k: nat)
    requires k <= |g| && k <= |h| && g[..k] == h[..k]
    ensures PrevGain(p, g, k) == PrevGain(p, h, k)
  {
    if k > 0 {
      assert g[k - 1] == g[..k][k - 1] && h[k - 1] == h[..k][k - 1];
    }
  }

  // ---- what is kept, and what is not on the wire ----

  /** Parameters that agree where they are on the wire have the same layout. */
  lemma {:induction false} LtpKept(cc: Tables, pr: Predictor, counts: seq<nat>, i: nat,
                                   g: seq<nat>, h: seq<nat>, f: seq<int>, e: seq<int>)
    requires LtpFit(cc, pr, counts, g, f, i) && i <= |h| && i <= |e|
    requires forall k :: 0 <= k < i ==> g[k] == h[k] && (counts[k] > 0 ==> f[k] == e[k])
    ensures LtpFit(cc, pr, counts, h, e, i) && LtpSyms(cc, pr, counts, g, f, i) == LtpSyms(cc, pr, counts, h, e, i)
    ensures PrevGain(pr, g, i) == PrevGain(pr, h, i) && PrevFilt(pr, counts, f, i) == PrevFilt(pr, counts, e, i)
  {
    hide LtpFits, LtpAt;
    if i > 0 {
      var k := i - 1;
      LtpKept(cc, pr, counts, k, g, h, f, e);
      LtpAtKept(cc, PrevGain(pr, g, k), PrevFilt(pr, counts, f, k), counts[k], g[k], f[k], e[k]);
    }
  }

  lemma LtpAtKept(cc: Tables, pg: int, pf: int, cnt: nat, gain: nat, f: int, e: int)
    requires LtpFits(cc, pg, pf, cnt, gain, f) && (cnt > 0 ==> f == e)
    ensures LtpFits(cc, pg, pf, cnt, gain, e) && LtpAt(cc, pg, pf, cnt, gain, f) == LtpAt(cc, pg, pf, cnt, gain, e)
  {
  }

  lemma LtpSnoc(cc: Tables, pr: Predictor, counts: seq<nat>, gains: seq<nat>, filts: seq<int>, gain: nat, filt: int)
    requires |gains| == |filts| < |counts| && LtpFit(cc, pr, counts, gains, filts, |gains|)
    requires var i := |gains|;
             LtpFits(cc, PrevGain(pr, gains, i), PrevFilt(pr, counts, filts, i), counts[i], gain, filt)
    ensures LtpFit(cc, pr, counts, gains + [gain], filts + [filt], |gains| + 1)
    ensures LtpSyms(cc, pr, counts, gains + [gain], filts + [filt], |gains| + 1)
         == LtpSyms(cc, pr, counts, gains, filts, |gains|)
            + LtpAt(cc, PrevGain(pr, gains, |gains|), PrevFilt(pr, counts, filts, |gains|), counts[|gains|], gain, filt)
    ensures PrevGain(pr, gains + [gain], |gains| + 1) == gain
    ensures PrevFilt(pr, counts, filts + [filt], |gains| + 1)
         == NextFilt(PrevFilt(pr, counts, filts, |gains|), counts[|gains|], filt)
  {
    hide LtpFits, LtpAt;
    LtpKept(cc, pr, counts, |gains|, gains, gains + [gain], filts, filts + [filt]);
    LtpFitSnoc(cc, pr, counts, gains + [gain], filts + [filt], |gains|);
  }

  lemma LtpFitSnoc(cc: Tables, pr: Predictor, counts: seq<nat>, gains: seq<nat>, filts: seq<int>, i: nat)
    requires i < |counts| && i < |gains| && i < |filts| && LtpFit(cc, pr, counts, gains, filts, i)
    requires LtpFits(cc, PrevGain(pr, gains, i), PrevFilt(pr, counts, filts, i), counts[i], gains[i], filts[i])
    ensures LtpFit(cc, pr, counts, gains, filts, i + 1)
  {
    hide LtpFits;
  }

  // ---- coding ----

  lemma LtpNext(cc: Tables, pg: int, pf: int, cnt: nat, gain: nat, filt: int)
    requires cc.Wf() && WfState(pg, pf) && LtpFits(cc, pg, pf, cnt, gain, filt)
    ensures WfState(gain, NextFilt(pf, cnt, filt)) && gain < LTP_GAINS
  {
    LtpTables(cc, pg, pf);
  }

  method EncodeLtpAt(enc: RangeEncoder, cc: Tables, pg: int, pf: int, cnt: nat, gain: nat, filt: int)
    requires enc.Valid() && cc.Wf() && WfState(pg, pf) && LtpFits(cc, pg, pf, cnt, gain, filt)
    modifies enc, enc.buf
    ensures enc.Valid() && enc.Misused == old(enc.Misused)
    ensures enc.Syms == old(enc.Syms) + LtpAt(cc, pg, pf, cnt, gain, filt)
  {
    hide RangeEncoder.Valid, IsCdf, CdfSym, AcbCdf, FilterCdf, Tables.Wf, Tables.AcbgainRow, Tables.FcbgainVDelta;
    LtpTables(cc, pg, pf);
    FilterStart(cc);
    Regroup(enc.Syms, [CdfSym(AcbCdf(cc, pg), gain)],
            Choice(cnt > 0, FilterCdf(cc, pf), if cnt > 0 then filt else 0));
    enc.EncodeCDF(gain, cc.AcbgainRow(pg));
    if cnt > 0 {
      if pf == -1 {
        enc.EncodeCDF(filt, cc.fcbgainsV);
      } else {
        enc.EncodeCDF(filt, cc.FcbgainVDelta(pf));
      }
    }
  }

  lemma FilterStart(cc: Tables)
    ensures FilterCdf(cc, -1) == cc.fcbgainsV
  {
  }

  method DecodeLtpAt(dec: RangeDecoder, cc: Tables, pg: int, pf: int, cnt: nat) returns (gain: nat, filt: int)
    requires dec.Valid() && cc.Wf() && WfState(pg, pf)
    modifies dec
    ensures dec.Valid() && dec.err == old(dec.err)
    ensures LtpFits(cc, pg, pf, cnt, gain, filt) && (cnt == 0 ==> filt == -1)
    ensures dec.At() == Run(old(dec.At()), LtpAt(cc, pg, pf, cnt, gain, filt))
  {
    hide RangeDecoder.Valid, RangeDecoder.At, Run, Step;
    hide IsCdf, CdfSym, AcbCdf, FilterCdf, Tables.Wf, Tables.AcbgainRow, Tables.FcbgainVDelta;
    ghost var iv := dec.At();
    LtpTables(cc, pg, pf);
    FilterStart(cc);
    gain := dec.DecodeCDF(cc.AcbgainRow(pg));
    ghost var s := CdfSym(AcbCdf(cc, pg), gain);
    RunOne(iv, s);
    RunOne(dec.At(), s);
    filt := -1;
    if cnt > 0 {
      if pf == -1 {
        filt := dec.DecodeCDF(cc.fcbgainsV);
      } else {
        filt := dec.DecodeCDF(cc.FcbgainVDelta(pf));
      }
      RunOne(Step(iv, s), CdfSym(FilterCdf(cc, pf), filt));
    }
    RunAppend(iv, [s], Choice(cnt > 0, FilterCdf(cc, pf), if cnt > 0 then filt else 0));
  }

  /** After the gain loop of a block with predictor p, the gain and filter state is pg, pf
      and the lag table chosen by avgGain is the one for these gains. */
  ghost predicate LtpDone(cc: Tables, p: Predictor, counts: seq<nat>, gains: seq<nat>, filts: seq<int>,
                          pg: int, pf: int, avgGain: int)
  {
    && |counts| == |gains| == |filts| == SUBFRAMES
    && LtpFit(cc, p, counts, gains, filts, SUBFRAMES)
    && pg == gains[SUBFRAMES - 1] && pf == PrevFilt(p, counts, filts, SUBFRAMES)
    && ModeOf(avgGain) == LagMode(cc, gains)
  }

  ghost predicate LtpWritten(cc: Tables, p: Predictor, counts: seq<nat>, gains: seq<nat>, filts: seq<int>,
                             before: seq<Sym>, after: seq<Sym>, pg: int, pf: int, avgGain: int)
  {
    && LtpDone(cc, p, counts, gains, filts, pg, pf, avgGain)
    && after == before + LtpSyms(cc, p, counts, gains, filts, SUBFRAMES)
  }

  ghost predicate LtpRead(cc: Tables, p: Predictor, counts: seq<nat>, gains: seq<nat>, filts: seq<int>,
                          iv: Interval, at: Interval, pg: int, pf: int, avgGain: int)
  {
    && LtpDone(cc, p, counts, gains, filts, pg, pf, avgGain) && NoFilter(counts, filts)
    && at == Run(iv, LtpSyms(cc, p, counts, gains, filts, SUBFRAMES))
  }

  /** The gain loop of the encoder; the state advances as it will in the decoder. */
  method EncodeLtp(enc: RangeEncoder, cc: Tables, st: LsfState, counts: seq<nat>, gains: seq<nat>, filts: seq<int>)
    returns (avgGain: int)
    requires enc.Valid() && cc.Wf() && |counts| == |gains| == |filts| == SUBFRAMES
    requires WfState(st.prevGainIdx, st.prevFiltIdx)
    requires LtpFit(cc, st.EncPred(), counts, gains, filts, SUBFRAMES)
    modifies enc, enc.buf, st`prevGainIdx, st`prevFiltIdx
    ensures enc.Valid() && enc.Misused == old(enc.Misused)
    ensures LtpWritten(cc, old(st.EncPred()), counts, gains, filts, old(enc.Syms), enc.Syms,
                       st.prevGainIdx, st.prevFiltIdx, avgGain)
    ensures WfState(st.prevGainIdx, st.prevFiltIdx)
  {
    hide RangeEncoder.Valid, Tables.Wf, LtpFits, LtpAt, GainWeight, WfState;
    ghost var p := st.EncPred();
    var gainAccum: I32 := 0;
    for sf := 0 to SUBFRAMES
      invariant enc.Valid() && enc.Misused == old(enc.Misused)
      invariant LtpFit(cc, p, counts, gains, filts, sf)
      invariant enc.Syms == old(enc.Syms) + LtpSyms(cc, p, counts, gains, filts, sf)
      invariant st.prevGainIdx == PrevGain(p, gains, sf) && st.prevFiltIdx == PrevFilt(p, counts, filts, sf)
      invariant WfState(st.prevGainIdx, st.prevFiltIdx)
      invariant gainAccum == Accum(cc, gains, sf)
    {
      var cnt, gi := counts[sf], gains[sf];
      EncodeLtpAt(enc, cc, st.prevGainIdx, st.prevFiltIdx, cnt, gi, filts[sf]);
      LtpNext(cc, st.prevGainIdx, st.prevFiltIdx, cnt, gi, filts[sf]);
      st.prevGainIdx := gi;
      if cnt > 0 {
        st.prevFiltIdx := filts[sf];
      }
      var w := Weights(cc, gi);
      gainAccum := gainAccum + w;
    }
    avgGain := TruncDiv(gainAccum, SUBFRAMES);
  }

  method Weights(cc: Tables, gi: nat) returns (w: I32)
    requires cc.Wf() && gi < LTP_GAINS
    ensures w == GainWeight(cc, gi)
  {
    var (a, b) := cc.AcbgainWeights(gi);
    var w0: int, w2: int := a, b;
    w := w0 + 2 * w2;
  }

  /** The gain loop of the decoder, on any byte string. */
  method DecodeLtp(dec: RangeDecoder, cc: Tables, st: LsfState, counts: seq<nat>)
    returns (gains: seq<nat>, filts: seq<int>, avgGain: int)
    requires dec.Valid() && cc.Wf() && |counts| == SUBFRAMES
    requires WfState(st.prevGainIdx, st.prevFiltIdx)
    modifies dec, st`prevGainIdx, st`prevFiltIdx
    ensures dec.Valid() && dec.err == old(dec.err)
    ensures LtpRead(cc, old(st.DecPred()), counts, gains, filts, old(dec.At()), dec.At(),
                    st.prevGainIdx, st.prevFiltIdx, avgGain)
    ensures WfState(st.prevGainIdx, st.prevFiltIdx)
  {
    hide RangeDecoder.Valid, RangeDecoder.At, Run, Step, Tables.Wf, LtpFits, LtpAt, LtpFit, LtpSyms, GainWeight,
      WfState;
    ghost var iv := dec.At();
    ghost var p := st.DecPred();
    gains, filts := [], [];
    var gainAccum: I32 := 0;
    LtpNothing(cc, p, counts);
    RunOne(iv, Sym(0, 1, 1));
    for sf := 0 to SUBFRAMES
      invariant dec.Valid() && dec.err == old(dec.err) && |gains| == |filts| == sf
      invariant LtpFit(cc, p, counts, gains, filts, sf) && NoFilter(counts, filts)
      invariant dec.At() == Run(iv, LtpSyms(cc, p, counts, gains, filts, sf))
      invariant st.prevGainIdx == PrevGain(p, gains, sf) && st.prevFiltIdx == PrevFilt(p, counts, filts, sf)
      invariant WfState(st.prevGainIdx, st.prevFiltIdx)
      invariant gainAccum == Accum(cc, gains, sf)
    {
      var cnt := counts[sf];
      var gi, fi := DecodeLtpAt(dec, cc, st.prevGainIdx, st.prevFiltIdx, cnt);
      LtpNext(cc, st.prevGainIdx, st.prevFiltIdx, cnt, gi, fi);
      LtpSnoc(cc, p, counts, gains, filts, gi, fi);
      RunAppend(iv, LtpSyms(cc, p, counts, gains, filts, sf), LtpAt(cc, st.prevGainIdx, st.prevFiltIdx, cnt, gi, fi));
      AccumKept(cc, gains, gi, sf);
      st.prevGainIdx := gi;
      if cnt > 0 {
        st.prevFiltIdx := fi;
      }
      var w := Weights(cc, gi);
      gainAccum := gainAccum + w;
      gains, filts := gains + [gi], filts + [fi];
    }
    avgGain := TruncDiv(gainAccum, SUBFRAMES);
  }

  lemma LtpNothing(cc: Tables, p: Predictor, counts: seq<nat>)
    ensures LtpFit(cc, p, counts, [], [], 0) && LtpSyms(cc, p, counts, [], [], 0) == []
  {
  }

  lemma {:induction false} AccumKept(cc: Tables, gains: seq<nat>, gain: nat, i: nat)
    requires i <= |gains|
    ensures Accum(cc, gains + [gain], i) == Accum(cc, gains, i)
  {
    if i > 0 {
      AccumKept(cc, gains, gain, i - 1);
    }
  }
}
