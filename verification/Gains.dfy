/** The gain block of unvoiced internal frames. */
module Gains {
  import opened RangeSpec
  import opened RangeEncoding
  import opened RangeDecoding
  import opened FixedPoint
  import opened CdfTables
  import opened CcTables
  import opened PulseSpec

  const GAIN_CLASS := 2
  const GAIN_FLOOR := -85

  datatype GainParams = GainParams(main: nat, delta: nat, nrgRes: seq<int>)

  /** Quantized log-gain of subframe sf. */
  function GainQ(cc: Tables, main: nat, delta: nat, sf: nat): int {
    main * cc.NrgStep(GAIN_CLASS) - 0x154000 + 16 * cc.GainRecon(sf + SUBFRAMES * delta)
  }

  /** No gain leaves 32 bits. */
  lemma GainRange(cc: Tables, main: nat, delta: nat, sf: nat)
    requires main < CDF_MAX
    ensures -0x4000_0000 < main * cc.NrgStep(GAIN_CLASS) < 0x4000_0000
    ensures -0x4100_0000 < GainQ(cc, main, delta, sf) < 0x4100_0000
  {
    StepRange(main, cc.NrgStep(GAIN_CLASS));
  }

  lemma StepRange(main: nat, step: int)
    requires main < CDF_MAX && -0x8000 <= step < 0x8000
    ensures -0x4000_0000 < main * step < 0x4000_0000
  {
    if step >= 0 {
      assert main * step <= main * 0x8000;
    } else {
      assert main * step >= main * -0x8000;
    }
  }

  /** How far the residual table is shifted down for a quiet subframe. */
  function MinOffset(gainQ: int): (r: nat)
    ensures r <= 85
  {
    var g := (gainQ + 8192) / 16384;
    if g < GAIN_FLOOR then -GAIN_FLOOR else if g < 0 then -g else 0
  }

  function Bucket(cnt: nat): (r: nat)
    ensures r < OFFSET_BUCKETS
  {
    if cnt >= 30 then 3 else cnt % 0x1_0000 / 10
  }

  /** The residual table of a subframe with cnt pulses. */
  function ResidualCdf(cc: Tables, gainQ: int, cnt: nat): Cdf {
    var row := GAIN_CLASS * OFFSET_BUCKETS + Bucket(cnt);
    if row < |cc.fcbgOffset| then Window(cc.fcbgOffset[row], MinOffset(gainQ), 92) else NO_TABLE
  }

  /** The window never leaves its table, whatever the gain. */
  lemma ResidualInside(cc: Tables, gainQ: int, cnt: nat)
    requires cc.Wf()
    ensures ResidualCdf(cc, gainQ, cnt) == cc.FcbgOffset(GAIN_CLASS, Bucket(cnt), MinOffset(gainQ))
    ensures |ResidualCdf(cc, gainQ, cnt)| == 92
  {
    var row := cc.fcbgOffset[GAIN_CLASS * OFFSET_BUCKETS + Bucket(cnt)];
    WindowInside(row, MinOffset(gainQ), 92);
  }

  ghost predicate ResidualFits(cc: Tables, main: nat, delta: nat, sf: nat, cnt: nat, r: int) {
    cnt > 0 ==> 0 <= r < |ResidualCdf(cc, GainQ(cc, main, delta, sf), cnt)| - 1
  }

  /** A residual is on the wire only for a subframe with pulses; elsewhere it may be anything, as the
      -1 that the analysis puts there. */
  ghost function ResidualAt(cc: Tables, main: nat, delta: nat, sf: nat, cnt: nat, r: int): seq<Sym>
    requires ResidualFits(cc, main, delta, sf, cnt, r)
  {
    Choice(cnt > 0, ResidualCdf(cc, GainQ(cc, main, delta, sf), cnt), if cnt > 0 then r else 0)
  }

  ghost predicate ResidualsFit(cc: Tables, main: nat, delta: nat, counts: seq<nat>, nrg: seq<int>) {
    |counts| == |nrg|
    && forall sf :: 0 <= sf < |counts| ==> ResidualFits(cc, main, delta, sf, counts[sf], nrg[sf])
  }

  /** Subframes without pulses report no residual. */
  ghost predicate Quiet(counts: seq<nat>, nrg: seq<int>) {
    |counts| == |nrg| && forall sf :: 0 <= sf < |counts| && counts[sf] == 0 ==> nrg[sf] == 0
  }

  ghost predicate WfGains(cc: Tables, counts: seq<nat>, gp: GainParams) {
    && |counts| == SUBFRAMES
    && gp.main < |cc.gain4| - 1 && gp.delta < |cc.shape4| - 1
    && ResidualsFit(cc, gp.main, gp.delta, counts, gp.nrgRes)
  }

  /** What the decoder reports for an encoder's parameters. */
  function Reported(counts: seq<nat>, gp: GainParams): GainParams
    requires |counts| == |gp.nrgRes|
  {
    gp.(nrgRes := seq(|counts|, sf requires 0 <= sf < |counts| => if counts[sf] > 0 then gp.nrgRes[sf] else 0))
  }

  ghost function ResidualSyms(cc: Tables, main: nat, delta: nat, counts: seq<nat>, nrg: seq<int>, i: nat): seq<Sym>
    requires i <= |counts| && ResidualsFit(cc, main, delta, counts, nrg)
  {
    if i == 0 then []
    else
      ResidualSyms(cc, main, delta, counts, nrg, i - 1)
      + ResidualAt(cc, main, delta, i - 1, counts[i - 1], nrg[i - 1])
  }

  ghost function GainSyms(cc: Tables, counts: seq<nat>, gp: GainParams): seq<Sym>
    requires WfGains(cc, counts, gp)
  {
    [CdfSym(cc.gain4, gp.main)]
    + ([CdfSym(cc.shape4, gp.delta)] + ResidualSyms(cc, gp.main, gp.delta, counts, gp.nrgRes, SUBFRAMES))
  }

  // ---- which table each symbol is in ----

  /** The stored window holds the step and the shape of every subframe. */
  ghost predicate Loaded(cc: Tables, delta: nat) {
    && 2 < |cc.gainRecon| <= 0x1_0000 && cc.gainReconBase % 2 == 0 && cc.gainReconBase <= 0xf35f0
    && (0xf35f0 - cc.gainReconBase) / 2 + SUBFRAMES * (delta + 1) <= |cc.gainRecon|
  }

  /** The log-gain of a subframe: steps above a floor of -85, and sixteenths of the shape. */
  function GainFrom(cc: Tables, main: nat, delta: nat, sf: nat): int
    requires 2 < |cc.gainRecon| && cc.gainReconBase <= 0xf35f0
    requires (0xf35f0 - cc.gainReconBase) / 2 + SUBFRAMES * delta + sf < |cc.gainRecon|
  {
    var step: int, shape: int :=
      cc.gainRecon[2], cc.gainRecon[(0xf35f0 - cc.gainReconBase) / 2 + SUBFRAMES * delta + sf];
    main * step - 85 * 16384 + 16 * shape
  }

  lemma GainLaw(cc: Tables, main: nat, delta: nat, sf: nat)
    requires Loaded(cc, delta) && sf < SUBFRAMES
    ensures GainQ(cc, main, delta, sf) == GainFrom(cc, main, delta, sf)
  {
    cc.GainWords(2, sf + SUBFRAMES * delta);
    hide Tables.NrgStep, Tables.GainRecon;
  }

  lemma {:induction false} ResidualPlace(cc: Tables, main: nat, delta: nat, counts: seq<nat>, nrg: seq<int>,
                                         i: nat, sf: nat)
    requires sf < i <= |counts| && ResidualsFit(cc, main, delta, counts, nrg) && counts[sf] > 0
    ensures Coded(counts, sf) < |ResidualSyms(cc, main, delta, counts, nrg, i)| == Coded(counts, i)
    ensures ResidualFits(cc, main, delta, sf, counts[sf], nrg[sf])
    ensures ResidualSyms(cc, main, delta, counts, nrg, i)[Coded(counts, sf)]
         == CdfSym(ResidualCdf(cc, GainQ(cc, main, delta, sf), counts[sf]), nrg[sf])
  {
    hide ResidualCdf, GainQ, CdfSym;
    ResidualCount(cc, main, delta, counts, nrg, i - 1);
    if sf < i - 1 {
      ResidualPlace(cc, main, delta, counts, nrg, i - 1, sf);
    }
  }

  lemma {:induction false} ResidualCount(cc: Tables, main: nat, delta: nat, counts: seq<nat>, nrg: seq<int>, i: nat)
    requires i <= |counts| && ResidualsFit(cc, main, delta, counts, nrg)
    ensures |ResidualSyms(cc, main, delta, counts, nrg, i)| == Coded(counts, i)
  {
    hide ResidualCdf, GainQ, CdfSym;
    if i > 0 {
      ResidualCount(cc, main, delta, counts, nrg, i - 1);
    }
  }

  lemma GainHead(cc: Tables, counts: seq<nat>, gp: GainParams)
    requires WfGains(cc, counts, gp)
    ensures |GainSyms(cc, counts, gp)| == 2 + Coded(counts, SUBFRAMES)
    ensures GainSyms(cc, counts, gp)[0] == CdfSym(cc.gain4, gp.main)
    ensures GainSyms(cc, counts, gp)[1] == CdfSym(cc.shape4, gp.delta)
    ensures |ResidualSyms(cc, gp.main, gp.delta, counts, gp.nrgRes, SUBFRAMES)| == Coded(counts, SUBFRAMES)
    ensures forall j :: 0 <= j < Coded(counts, SUBFRAMES) ==>
              GainSyms(cc, counts, gp)[2 + j] == ResidualSyms(cc, gp.main, gp.delta, counts, gp.nrgRes, SUBFRAMES)[j]
  {
    hide CdfSym, ResidualSyms, Coded, ResidualsFit, IsCdf;
    ResidualCount(cc, gp.main, gp.delta, counts, gp.nrgRes, SUBFRAMES);
  }

  /** A subframe's residual follows those of the subframes with pulses before it.  Its table is one of
      four by pulse count, in tens and all from thirty on; from a gain of -8192 up it is read from its
      start, and one entry further for every 16384 below, at most 85. */
  lemma ResidualWire(cc: Tables, counts: seq<nat>, gp: GainParams, sf: nat, row: nat, start: nat)
    requires cc.Wf() && WfGains(cc, counts, gp) && Loaded(cc, gp.delta) && sf < SUBFRAMES && counts[sf] > 0
    requires row < 4 && 10 * row <= counts[sf] < 0x1_0000 && (row < 3 ==> counts[sf] < 10 * row + 10)
    requires var q := GainFrom(cc, gp.main, gp.delta, sf);
             && start <= 85 && (start > 0 ==> q < 8192 - 16384 * start) && (start < 85 ==> -8192 - 16384 * start <= q)
    ensures var table, r := cc.fcbgOffset[8 + row], gp.nrgRes[sf];
            && |table| >= start + 92 && 0 <= r < 91 && IsCdf(table[start..start + 92])
            && 2 + Coded(counts, sf) < |GainSyms(cc, counts, gp)|
            && GainSyms(cc, counts, gp)[2 + Coded(counts, sf)] == CdfSym(table[start..start + 92], r)
  {
    hide GainQ, GainFrom, ResidualCdf, CdfSym, Tables.Wf, GainSyms, ResidualSyms, ResidualsFit, Coded;
    GainHead(cc, counts, gp);
    GainLaw(cc, gp.main, gp.delta, sf);
    ResidualPlace(cc, gp.main, gp.delta, counts, gp.nrgRes, SUBFRAMES, sf);
    TableBy(cc, GainQ(cc, gp.main, gp.delta, sf), counts[sf], row, start);
  }

  lemma TableBy(cc: Tables, q: int, cnt: nat, row: nat, start: nat)
    requires cc.Wf() && 0 < cnt < 0x1_0000 && row < 4 && 10 * row <= cnt && (row < 3 ==> cnt < 10 * row + 10)
    requires start <= 85 && (start > 0 ==> q < 8192 - 16384 * start) && (start < 85 ==> -8192 - 16384 * start <= q)
    ensures |cc.fcbgOffset[8 + row]| >= start + 92
    ensures ResidualCdf(cc, q, cnt) == cc.fcbgOffset[8 + row][start..start + 92]
    ensures |ResidualCdf(cc, q, cnt)| == 92
  {
    StartOf(q, start);
    ResidualInside(cc, q, cnt);
    assert Bucket(cnt) == row;
    hide MinOffset, Bucket;
  }

  lemma StartOf(q: int, start: nat)
    requires start <= 85 && (start > 0 ==> q < 8192 - 16384 * start) && (start < 85 ==> -8192 - 16384 * start <= q)
    ensures MinOffset(q) == start
  {
  }

  lemma SameResidual(cc: Tables, main: nat, delta: nat, sf: nat, cnt: nat, x: int, y: int)
    requires ResidualFits(cc, main, delta, sf, cnt, x) && (cnt > 0 ==> x == y)
    ensures ResidualFits(cc, main, delta, sf, cnt, y)
    ensures ResidualAt(cc, main, delta, sf, cnt, x) == ResidualAt(cc, main, delta, sf, cnt, y)
    ensures cnt == 0 ==> ResidualAt(cc, main, delta, sf, cnt, x) == []
  {
  }

  lemma {:induction false} SameResiduals(cc: Tables, main: nat, delta: nat, counts: seq<nat>,
                                         x: seq<int>, y: seq<int>, i: nat)
    requires i <= |counts| && ResidualsFit(cc, main, delta, counts, x) && ResidualsFit(cc, main, delta, counts, y)
    requires forall sf :: 0 <= sf < i && counts[sf] > 0 ==> x[sf] == y[sf]
    ensures ResidualSyms(cc, main, delta, counts, x, i) == ResidualSyms(cc, main, delta, counts, y, i)
  {
    hide ResidualFits, ResidualAt;
    if i > 0 {
      SameResiduals(cc, main, delta, counts, x, y, i - 1);
      SameResidual(cc, main, delta, i - 1, counts[i - 1], x[i - 1], y[i - 1]);
    }
  }

  /** What is not on the wire does not change the wire. */
  lemma ReportedSyms(cc: Tables, counts: seq<nat>, gp: GainParams)
    requires WfGains(cc, counts, gp)
    ensures WfGains(cc, counts, Reported(counts, gp)) && Quiet(counts, Reported(counts, gp).nrgRes)
    ensures GainSyms(cc, counts, Reported(counts, gp)) == GainSyms(cc, counts, gp)
  {
    SameResiduals(cc, gp.main, gp.delta, counts, gp.nrgRes, Reported(counts, gp).nrgRes, SUBFRAMES);
  }

  lemma ResidualAtUnique(b: seq<Byte>, iv: Interval, cc: Tables, main: nat, delta: nat, sf: nat, cnt: nat,
                         x: int, y: int, p: seq<Sym>, q: seq<Sym>)
    requires ResidualFits(cc, main, delta, sf, cnt, x) && ResidualFits(cc, main, delta, sf, cnt, y)
    requires cnt == 0 ==> x == y
    requires Reads(b, iv, ResidualAt(cc, main, delta, sf, cnt, x) + p)
    requires Reads(b, iv, ResidualAt(cc, main, delta, sf, cnt, y) + q)
    ensures x == y
    ensures Reads(b, Run(iv, ResidualAt(cc, main, delta, sf, cnt, x)), p)
    ensures Reads(b, Run(iv, ResidualAt(cc, main, delta, sf, cnt, x)), q)
  {
    hide Reads, Run, ResidualCdf, GainQ;
    ChoiceUnique(b, iv, cnt > 0, ResidualCdf(cc, GainQ(cc, main, delta, sf), cnt), if cnt > 0 then x else 0,
                 if cnt > 0 then y else 0, p, q);
  }

  lemma {:induction false} ResidualUnique(b: seq<Byte>, iv: Interval, cc: Tables, main: nat, delta: nat,
                                          counts: seq<nat>, i: nat, x: seq<int>, y: seq<int>, p: seq<Sym>, q: seq<Sym>)
    requires i <= |counts| && ResidualsFit(cc, main, delta, counts, x) && ResidualsFit(cc, main, delta, counts, y)
    requires Quiet(counts, x) && Quiet(counts, y)
    requires Reads(b, iv, ResidualSyms(cc, main, delta, counts, x, i) + p)
    requires Reads(b, iv, ResidualSyms(cc, main, delta, counts, y, i) + q)
    ensures x[..i] == y[..i]
    ensures ResidualSyms(cc, main, delta, counts, x, i) == ResidualSyms(cc, main, delta, counts, y, i)
    ensures Reads(b, Run(iv, ResidualSyms(cc, main, delta, counts, x, i)), p)
    ensures Reads(b, Run(iv, ResidualSyms(cc, main, delta, counts, x, i)), q)
  {
    hide Reads, Run, Step, ResidualFits, ResidualAt;
    ReadsAfter(b, iv, ResidualSyms(cc, main, delta, counts, x, i), p);
    ReadsAfter(b, iv, ResidualSyms(cc, main, delta, counts, y, i), q);
    if i > 0 {
      var n, cnt := i - 1, counts[i - 1];
      var hx, hy := ResidualSyms(cc, main, delta, counts, x, n), ResidualSyms(cc, main, delta, counts, y, n);
      var sx, sy := ResidualAt(cc, main, delta, n, cnt, x[n]), ResidualAt(cc, main, delta, n, cnt, y[n]);
      Regroup(hx, sx, p);
      Regroup(hy, sy, q);
      ResidualUnique(b, iv, cc, main, delta, counts, n, x, y, sx + p, sy + q);
      ResidualAtUnique(b, Run(iv, hx), cc, main, delta, n, cnt, x[n], y[n], p, q);
      PrefixGrow(x, y, n, i);
    }
  }

  /** No byte string holds two different gain blocks. */
  lemma GainUnique(b: seq<Byte>, iv: Interval, cc: Tables, counts: seq<nat>, x: GainParams, y: GainParams,
                   p: seq<Sym>, q: seq<Sym>)
    requires WfGains(cc, counts, x) && WfGains(cc, counts, y) && Quiet(counts, x.nrgRes) && Quiet(counts, y.nrgRes)
    requires Reads(b, iv, GainSyms(cc, counts, x) + p) && Reads(b, iv, GainSyms(cc, counts, y) + q)
    ensures x == y
  {
    hide Reads, Run, Step, CdfSym;
    var rx := ResidualSyms(cc, x.main, x.delta, counts, x.nrgRes, SUBFRAMES);
    var ry := ResidualSyms(cc, y.main, y.delta, counts, y.nrgRes, SUBFRAMES);
    var mx, my := [CdfSym(cc.gain4, x.main)], [CdfSym(cc.gain4, y.main)];
    var dx, dy := [CdfSym(cc.shape4, x.delta)], [CdfSym(cc.shape4, y.delta)];
    GainParts(mx, dx, rx, p);
    GainParts(my, dy, ry, q);
    CdfHeadUnique(b, iv, cc.gain4, x.main, y.main, dx + (rx + p), dy + (ry + q));
    var iv1 := Step(iv, CdfSym(cc.gain4, x.main));
    CdfHeadUnique(b, iv1, cc.shape4, x.delta, y.delta, rx + p, ry + q);
    ResidualUnique(b, Step(iv1, CdfSym(cc.shape4, x.delta)), cc, x.main, x.delta, counts, SUBFRAMES,
                   x.nrgRes, y.nrgRes, p, q);
    assert x.nrgRes[..SUBFRAMES] == x.nrgRes && y.nrgRes[..SUBFRAMES] == y.nrgRes;
  }

  lemma GainParts(m: seq<Sym>, d: seq<Sym>, r: seq<Sym>, p: seq<Sym>)
    ensures (m + (d + r)) + p == m + (d + (r + p))
    ensures p + (m + (d + r)) == ((p + m) + d) + r
  {
  }

  // ---- both directions ----

  /** The gains both sides derive from the two gain symbols. */
  method GainsOf(cc: Tables, main: nat, delta: nat) returns (gainQ: seq<I32>)
    requires main < CDF_MAX
    ensures |gainQ| == SUBFRAMES && forall sf :: 0 <= sf < SUBFRAMES ==> gainQ[sf] == GainQ(cc, main, delta, sf)
  {
    var off6 := SUBFRAMES * delta;
    GainRange(cc, main, delta, 0);
    var scaled: I32 := main * cc.NrgStep(GAIN_CLASS);
    var base7: I32 := scaled - 0x154000;
    gainQ := [];
    for sf := 0 to SUBFRAMES
      invariant |gainQ| == sf && forall k :: 0 <= k < sf ==> gainQ[k] == GainQ(cc, main, delta, k)
    {
      var cbv: int := cc.GainRecon(sf + off6);
      var sum: I32 := base7 + cbv * 16;
      gainQ := gainQ + [sum];
    }
  }

  lemma FewGains(cc: Tables, main: nat)
    requires cc.Wf() && main < |cc.gain4| - 1
    ensures main < CDF_MAX
  {
  }

  /** The table shift, with the clamp and sign mask spelled out. */
  method Shift(gainQ: int) returns (minOffset: nat)
    ensures minOffset == MinOffset(gainQ)
  {
    var g := (gainQ + 8192) / 16384;
    if g < GAIN_FLOOR {
      g := GAIN_FLOOR;
    }
    var negPart := if g < 0 then g else 0;
    minOffset := -negPart;
  }

  method EncodeResidual(enc: RangeEncoder, cc: Tables, gainQ: int, cnt: nat, r: int,
                        ghost main: nat, ghost delta: nat, ghost sf: nat)
    requires enc.Valid() && cc.Wf() && ResidualFits(cc, main, delta, sf, cnt, r)
    requires gainQ == GainQ(cc, main, delta, sf)
    modifies enc, enc.buf
    ensures enc.Valid() && enc.Misused == old(enc.Misused)
    ensures enc.Syms == old(enc.Syms) + ResidualAt(cc, main, delta, sf, cnt, r)
  {
    hide RangeEncoder.Valid, IsCdf, CdfSym, GainQ, MinOffset, Tables.Wf, ResidualCdf;
    if cnt > 0 {
      var minOffset := Shift(gainQ);
      ResidualInside(cc, gainQ, cnt);
      var bucket := if cnt >= 30 then 3 else cnt % 0x1_0000 / 10;
      enc.EncodeCDF(r, cc.FcbgOffset(GAIN_CLASS, bucket, minOffset));
    }
  }

  method EncodeGains(enc: RangeEncoder, cc: Tables, counts: seq<nat>, gp: GainParams)
    requires enc.Valid() && cc.Wf() && WfGains(cc, counts, gp)
    modifies enc, enc.buf
    ensures enc.Valid() && enc.Misused == old(enc.Misused)
    ensures enc.Syms == old(enc.Syms) + GainSyms(cc, counts, gp)
  {
    hide RangeEncoder.Valid, IsCdf, CdfSym, GainQ, Tables.Wf, ResidualFits, ResidualAt;
    GainParts([CdfSym(cc.gain4, gp.main)], [CdfSym(cc.shape4, gp.delta)],
              ResidualSyms(cc, gp.main, gp.delta, counts, gp.nrgRes, SUBFRAMES), enc.Syms);
    enc.EncodeCDF(gp.main, cc.gain4);
    enc.EncodeCDF(gp.delta, cc.shape4);
    FewGains(cc, gp.main);
    var gainQ := GainsOf(cc, gp.main, gp.delta);
    ghost var base := enc.Syms;
    for sf := 0 to SUBFRAMES
      invariant enc.Valid() && enc.Misused == old(enc.Misused)
      invariant enc.Syms == base + ResidualSyms(cc, gp.main, gp.delta, counts, gp.nrgRes, sf)
    {
      EncodeResidual(enc, cc, gainQ[sf], counts[sf], gp.nrgRes[sf], gp.main, gp.delta, sf);
    }
  }

  lemma FitSnoc(cc: Tables, main: nat, delta: nat, c: seq<nat>, cnt: nat, nrg: seq<int>, r: int)
    requires ResidualsFit(cc, main, delta, c, nrg) && Quiet(c, nrg)
    requires ResidualFits(cc, main, delta, |c|, cnt, r) && (cnt == 0 ==> r == 0)
    ensures ResidualsFit(cc, main, delta, c + [cnt], nrg + [r]) && Quiet(c + [cnt], nrg + [r])
  {
    hide ResidualFits;
  }

  lemma ResidualsSnoc(cc: Tables, main: nat, delta: nat, c: seq<nat>, cnt: nat, nrg: seq<int>, r: int)
    requires ResidualsFit(cc, main, delta, c, nrg) && Quiet(c, nrg)
    requires ResidualFits(cc, main, delta, |c|, cnt, r) && (cnt == 0 ==> r == 0)
    ensures ResidualsFit(cc, main, delta, c + [cnt], nrg + [r]) && Quiet(c + [cnt], nrg + [r])
    ensures ResidualSyms(cc, main, delta, c + [cnt], nrg + [r], |c| + 1)
         == ResidualSyms(cc, main, delta, c, nrg, |c|) + ResidualAt(cc, main, delta, |c|, cnt, r)
  {
    hide ResidualFits, ResidualAt;
    FitSnoc(cc, main, delta, c, cnt, nrg, r);
    ResidualsKept(cc, main, delta, c + [cnt], nrg + [r], c, nrg, |c|);
  }

  lemma {:induction false} ResidualsKept(cc: Tables, main: nat, delta: nat, c: seq<nat>, x: seq<int>,
                                         d: seq<nat>, y: seq<int>, i: nat)
    requires ResidualsFit(cc, main, delta, c, x) && ResidualsFit(cc, main, delta, d, y)
    requires i <= |c| && i <= |d| && forall k :: 0 <= k < i ==> c[k] == d[k] && x[k] == y[k]
    ensures ResidualSyms(cc, main, delta, c, x, i) == ResidualSyms(cc, main, delta, d, y, i)
  {
    hide ResidualFits, ResidualAt;
    if i > 0 {
      ResidualsKept(cc, main, delta, c, x, d, y, i - 1);
    }
  }

  method DecodeResidual(dec: RangeDecoder, cc: Tables, gainQ: int, cnt: nat,
                        ghost main: nat, ghost delta: nat, ghost sf: nat) returns (r: nat)
    requires dec.Valid() && cc.Wf() && gainQ == GainQ(cc, main, delta, sf)
    modifies dec
    ensures dec.Valid() && dec.err == old(dec.err)
    ensures ResidualFits(cc, main, delta, sf, cnt, r) && (cnt == 0 ==> r == 0)
    ensures dec.At() == Run(old(dec.At()), ResidualAt(cc, main, delta, sf, cnt, r))
  {
    hide RangeDecoder.Valid, RangeDecoder.At, IsCdf, CdfSym, GainQ, MinOffset, Tables.Wf, ResidualCdf, Run, Step;
    ghost var iv := dec.At();
    RunOne(iv, Sym(0, 1, 1));
    r := 0;
    if cnt > 0 {
      var minOffset := Shift(gainQ);
      ResidualInside(cc, gainQ, cnt);
      var bucket := if cnt >= 30 then 3 else cnt % 0x1_0000 / 10;
      r := dec.DecodeCDF(cc.FcbgOffset(GAIN_CLASS, bucket, minOffset));
      RunOne(iv, CdfSym(ResidualCdf(cc, gainQ, cnt), r));
    }
  }

  /** Reads a gain block out of any byte string. */
  method DecodeGains(dec: RangeDecoder, cc: Tables, counts: seq<nat>) returns (gp: GainParams, gainQ: seq<I32>)
    requires dec.Valid() && cc.Wf() && |counts| == SUBFRAMES
    modifies dec
    ensures dec.Valid() && dec.err == old(dec.err)
    ensures WfGains(cc, counts, gp) && Quiet(counts, gp.nrgRes)
    ensures dec.At() == Run(old(dec.At()), GainSyms(cc, counts, gp))
    ensures |gainQ| == SUBFRAMES && forall sf :: 0 <= sf < SUBFRAMES ==> gainQ[sf] == GainQ(cc, gp.main, gp.delta, sf)
  {
    hide RangeDecoder.Valid, RangeDecoder.At, IsCdf, CdfSym, GainQ, Tables.Wf, ResidualCdf;
    hide Run, Step, ResidualsFit, Quiet, ResidualSyms, ResidualFits, ResidualAt;
    ghost var iv := dec.At();
    var main := dec.DecodeCDF(cc.gain4);
    var delta := dec.DecodeCDF(cc.shape4);
    FewGains(cc, main);
    gainQ := GainsOf(cc, main, delta);
    ghost var iv2 := dec.At();
    var nrg: seq<int> := [];
    NoResiduals(cc, main, delta);
    RunOne(iv2, Sym(0, 1, 1));
    assert counts[..0] == [];
    for sf := 0 to SUBFRAMES
      invariant dec.Valid() && dec.err == old(dec.err) && |nrg| == sf
      invariant ResidualsFit(cc, main, delta, counts[..sf], nrg) && Quiet(counts[..sf], nrg)
      invariant dec.At() == Run(iv2, ResidualSyms(cc, main, delta, counts[..sf], nrg, sf))
    {
      var cnt := counts[sf];
      ghost var syms := ResidualSyms(cc, main, delta, counts[..sf], nrg, sf);
      var r := DecodeResidual(dec, cc, gainQ[sf], cnt, main, delta, sf);
      RunAppend(iv2, syms, ResidualAt(cc, main, delta, sf, cnt, r));
      ResidualsSnoc(cc, main, delta, counts[..sf], cnt, nrg, r);
      assert counts[..sf + 1] == counts[..sf] + [cnt];
      nrg := nrg + [r];
    }
    assert counts[..SUBFRAMES] == counts;
    gp := GainParams(main, delta, nrg);
    GainRun(iv, CdfSym(cc.gain4, main), CdfSym(cc.shape4, delta),
            ResidualSyms(cc, main, delta, counts, nrg, SUBFRAMES));
  }

  lemma NoResiduals(cc: Tables, main: nat, delta: nat)
    ensures ResidualsFit(cc, main, delta, [], []) && Quiet([], [])
    ensures ResidualSyms(cc, main, delta, [], [], 0) == []
  {
  }

  lemma GainRun(iv: Interval, s: Sym, t: Sym, r: seq<Sym>)
    ensures Run(iv, [s] + ([t] + r)) == Run(Step(Step(iv, s), t), r)
  {
    RunAppend(iv, [s], [t] + r);
    RunOne(iv, s);
    RunAppend(Step(iv, s), [t], r);
    RunOne(Step(iv, s), t);
  }
}
