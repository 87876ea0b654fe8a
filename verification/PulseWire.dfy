/** Which table every symbol of an excitation block is in, and what a sign bit means. */
module PulseWire {
  import opened Arithmetic
  import opened RangeSpec
  import opened RangeEncoding
  import opened CdfTables
  import opened CcTables
  import opened PulseSpec
  import opened PulseVector

  // ---- the count ----

  /** The prior falls in a straight line: one part less for every pulse more, and almost twice the
      weight of one pulse for none. */
  lemma CountLaw(total: nat)
    requires total <= COUNT_MAX
    ensures CountSym(total).ft == 13521
    ensures total > 0 ==> CountSym(total).fh - CountSym(total).fl == 163 - total
    ensures total == 0 ==> CountSym(total).fl == 0 && CountSym(total).fh == 321
  {
    assert Tri(COUNT_MAX, COUNT_MAX) == 13521;
    if total > 0 {
      TriStep(total);
    }
  }

  lemma TriStep(k: int)
    requires k >= 1
    ensures var a, b := (k - 1) * (k - 2), (k - 2) * (k - 3); a - b == 2 * (k - 2) && a % 2 == b % 2 == 0
    ensures Tri(k, COUNT_MAX) - Tri(k - 1, COUNT_MAX) == 163 - k
  {
    Even(k - 2);
    Even(k - 3);
  }

  lemma Even(m: int)
    ensures (m + 1) * m % 2 == 0
  {
    if m % 2 == 0 {
      DoubledFactor(m, m / 2, m + 1);
      Twice((m + 1) * m, m / 2 * (m + 1));
    } else {
      DoubledFactor(m + 1, (m + 1) / 2, m);
      Twice((m + 1) * m, (m + 1) / 2 * m);
    }
  }

  lemma Twice(x: int, h: int)
    requires x == 2 * h
    ensures x % 2 == 0
  {
  }

  // ---- the splits ----

  /** The symbol that says how many of total are in the first half: that of their number, above the least
      that leaves no half more than eighty, in the table of the total. */
  ghost predicate FirstSent(cc: Tables, total: nat, first: int, s: Sym) {
    && 0 < total < 160 && |cc.splitCmfs| == 159
    && InStretch(cc.splitCmfs[total - 1], 0, |cc.splitCmfs[total - 1]| - 1, first - Excess(total, 80), s)
  }

  /** The symbol that says how many of a half are in its first subframe: in the middle of the table of
      the half's count, where no subframe has more than forty. */
  ghost predicate HalfSent(cc: Tables, count: nat, first: int, s: Sym) {
    && 0 < count < 80 && |cc.splitCmfs| == 159
    && InStretch(cc.splitCmfs[count - 1], Excess(count, 40), count - Excess(count, 40) + 1,
                 first - Excess(count, 40), s)
  }

  /** The total is split over the halves, each half over two subframes; what leaves no choice is not
      sent. */
  ghost predicate SplitsSent(cc: Tables, subfr: seq<nat>, syms: seq<Sym>)
    requires |subfr| == 4
  {
    var first, second := subfr[0] + subfr[1], subfr[2] + subfr[3];
    var a, b := if 0 < first + second < 160 then 1 else 0, if 0 < first < 80 then 1 else 0;
    && |syms| == a + b + (if 0 < second < 80 then 1 else 0)
    && (0 < first + second < 160 ==> FirstSent(cc, first + second, first, syms[0]))
    && (0 < first < 80 ==> HalfSent(cc, first, subfr[0], syms[a]))
    && (0 < second < 80 ==> HalfSent(cc, second, subfr[2], syms[a + b]))
  }

  lemma SplitWire(cc: Tables, subfr: seq<nat>)
    requires cc.Wf() && |subfr| == SUBFRAMES && SplitsFit(cc, subfr)
    ensures |subfr| == 4 && SplitsSent(cc, subfr, CountSyms(cc, subfr))
  {
    assert |subfr| == 4;
    hide *;
    var x, y, z := CountParts(cc, subfr);
    Assembled(cc, subfr, x, y, z);
  }

  ghost predicate FirstPart(cc: Tables, total: nat, first: nat, x: seq<Sym>) {
    |x| == (if 0 < total < 160 then 1 else 0) && (x != [] ==> FirstSent(cc, total, first, x[0]))
  }

  ghost predicate HalfPart(cc: Tables, count: nat, first: nat, x: seq<Sym>) {
    |x| == (if 0 < count < 80 then 1 else 0) && (x != [] ==> HalfSent(cc, count, first, x[0]))
  }

  ghost predicate InParts(cc: Tables, subfr: seq<nat>, x: seq<Sym>, y: seq<Sym>, z: seq<Sym>)
    requires |subfr| == 4
  {
    && FirstPart(cc, subfr[0] + subfr[1] + (subfr[2] + subfr[3]), subfr[0] + subfr[1], x)
    && HalfPart(cc, subfr[0] + subfr[1], subfr[0], y) && HalfPart(cc, subfr[2] + subfr[3], subfr[2], z)
  }

  lemma Assembled(cc: Tables, subfr: seq<nat>, x: seq<Sym>, y: seq<Sym>, z: seq<Sym>)
    requires |subfr| == 4 && InParts(cc, subfr, x, y, z)
    ensures SplitsSent(cc, subfr, x + (y + z))
  {
    hide FirstSent, HalfSent;
  }

  lemma CountParts(cc: Tables, subfr: seq<nat>) returns (x: seq<Sym>, y: seq<Sym>, z: seq<Sym>)
    requires cc.Wf() && |subfr| == SUBFRAMES && SplitsFit(cc, subfr)
    ensures |subfr| == 4 && InParts(cc, subfr, x, y, z) && CountSyms(cc, subfr) == x + (y + z)
  {
    hide SplitFits, HalfFits, SplitSyms, HalfSyms, Tables.HalfCdf, Tables.SplitCmf, IsCdf, Tables.Wf, FirstPart,
      HalfPart;
    var first, second := subfr[0] + subfr[1], subfr[2] + subfr[3];
    FirstAt(cc, first + second, first);
    HalfAt(cc, first, subfr[0]);
    HalfAt(cc, second, subfr[2]);
    x := SplitSyms(cc.SplitCmf(first + second), first + second, first);
    y, z := HalfSyms(cc.HalfCdf(first), first, subfr[0]), HalfSyms(cc.HalfCdf(second), second, subfr[2]);
  }

  lemma FirstAt(cc: Tables, total: nat, first: nat)
    requires cc.Wf() && SplitFits(cc.SplitCmf(total), total, first)
    ensures FirstPart(cc, total, first, SplitSyms(cc.SplitCmf(total), total, first))
  {
    if 0 < total < 160 {
      cc.SplitSizes(total);
      var c := cc.splitCmfs[total - 1];
      assert c[0..|c|] == c;
    }
    hide CdfSym;
  }

  lemma HalfAt(cc: Tables, count: nat, first: nat)
    requires cc.Wf() && HalfFits(cc.HalfCdf(count), count, first)
    ensures HalfPart(cc, count, first, HalfSyms(cc.HalfCdf(count), count, first))
  {
    if 0 < count < 80 {
      cc.SplitSizes(count);
    }
    hide CdfSym, Tables.HalfCdf;
  }

  // ---- the runs ----

  lemma {:induction false} MagPlace(cc: Tables, subfr: seq<nat>, runs: seq<nat>, n: nat, i: nat, k: nat)
    requires i < n <= |subfr| && WfRuns(cc, subfr, runs, n) && k < subfr[i]
    ensures |MagSyms(cc, subfr, runs, n)| == Start(subfr, n) && Start(subfr, i) + k < Start(subfr, n) <= |runs|
    ensures Start(subfr, i + 1) <= |runs| && Admissible(RunModel(cc, subfr[i]), RunsOf(subfr, runs, i))
    ensures MagSyms(cc, subfr, runs, n)[Start(subfr, i) + k]
         == AdaptiveSyms(RunModel(cc, subfr[i]), RunsOf(subfr, runs, i))[k]
  {
    hide RunModel, AdaptiveSyms, Start, Admissible, RunsOf;
    StartStep(subfr, n - 1);
    StartStep(subfr, i);
    StartMono(subfr, n - 1, n);
    StartMono(subfr, i + 1, n);
    MagCount(cc, subfr, runs, n - 1);
    if i < n - 1 {
      MagPlace(cc, subfr, runs, n - 1, i, k);
    }
  }

  lemma {:induction false} MagCount(cc: Tables, subfr: seq<nat>, runs: seq<nat>, n: nat)
    requires n <= |subfr| && WfRuns(cc, subfr, runs, n)
    ensures |MagSyms(cc, subfr, runs, n)| == Start(subfr, n)
  {
    hide RunModel, AdaptiveSyms, Admissible, RunsOf;
    if n > 0 {
      StartStep(subfr, n - 1);
      StartMono(subfr, n - 1, n);
      MagCount(cc, subfr, runs, n - 1);
    }
  }

  /** Run k of subframe i is sent in the table for the pulses still to come and the next multiple of eight
      of the samples left, from the entry on at which as many samples are left as there are. */
  lemma RunWire(cc: Tables, subfr: seq<nat>, runs: seq<nat>, i: nat, k: nat)
    requires cc.Wf() && |subfr| == SUBFRAMES && i < SUBFRAMES && WfRuns(cc, subfr, runs, SUBFRAMES)
    requires k < subfr[i] <= MAX_PULSES
    ensures Start(subfr, i + 1) <= |runs| && Start(subfr, i) + k < |MagSyms(cc, subfr, runs, SUBFRAMES)|
    ensures var mine := RunsOf(subfr, runs, i);
            var left := 80 - Sum(mine[..k]);
            && 1 <= left <= 80
            && var oct := (left + 7) / 8;
               InStretch(cc.runlen[oct - 1].cmfs[subfr[i] - k - 1], 8 * oct - left, 8 * oct, mine[k],
                         MagSyms(cc, subfr, runs, SUBFRAMES)[Start(subfr, i) + k])
  {
    hide *;
    Sizes(cc);
    MagPlace(cc, subfr, runs, SUBFRAMES, i, k);
    var mine := RunsOf(subfr, runs, i);
    RunsInSubframe(cc, subfr[i], mine);
    SumMono(mine, k);
    AdaptiveAt(RunModel(cc, subfr[i]), mine, k);
    RunModelAt(cc, subfr[i], mine, k);
    RunAt(cc, 80 - Sum(mine[..k]), subfr[i] - k, mine[k]);
  }

  lemma Sizes(cc: Tables)
    requires cc.Wf()
    ensures RunsSized(cc) && SUBFRAMES == 4 && SUBFR_LEN == 80 && MAX_PULSES == 40
    ensures |cc.runlen| == 20 && forall b :: 0 <= b < 20 ==> |cc.runlen[b].cmfs| == 40
  {
    WfRunsSized(cc);
    forall b | 0 <= b < 20 ensures |cc.runlen[b].cmfs| == 40 {
      assert RunlenFits(cc.runlen[b], (b + 1) * RUNLEN_STEP);
    }
  }

  lemma RunModelAt(cc: Tables, cnt: nat, runs: seq<nat>, k: nat)
    requires k < |runs| && Admissible(RunModel(cc, cnt), runs)
    ensures RunModel(cc, cnt)(runs[..k]) == cc.RunCdf(80 - Sum(runs[..k]), cnt - k)
    ensures runs[k] < |cc.RunCdf(80 - Sum(runs[..k]), cnt - k)| - 1
  {
    hide Tables.RunCdf, Sum;
  }

  lemma {:induction false} SumMono(w: seq<nat>, k: nat)
    requires k <= |w|
    ensures Sum(w[..k]) <= Sum(w)
  {
    if k < |w| {
      SumMono(w[..|w| - 1], k);
      assert w[..|w| - 1][..k] == w[..k];
    } else {
      assert w[..k] == w;
    }
  }

  lemma RunAt(cc: Tables, left: nat, c: nat, run: nat)
    requires cc.Wf() && 1 <= left <= 80 && 1 <= c <= MAX_PULSES && run < |cc.RunCdf(left, c)| - 1
    ensures var oct := (left + 7) / 8;
            && |cc.runlen| == RUNLEN_TABLES && |cc.runlen[oct - 1].cmfs| == MAX_PULSES
            && InStretch(cc.runlen[oct - 1].cmfs[c - 1], 8 * oct - left, 8 * oct, run, CdfSym(cc.RunCdf(left, c), run))
  {
    cc.RunSizes(left, c);
    var oct := (left + 7) / 8;
    assert RunlenFits(cc.runlen[oct - 1], oct * RUNLEN_STEP);
    WindowInside(cc.runlen[oct - 1].cmfs[c - 1], 8 * oct - left, left + 1);
    hide CdfSym;
  }

  // ---- the signs ----

  /** Fifteen signs to a symbol, the rest in the last. */
  lemma {:induction false} SignWire(n: nat, signs: seq<RawBits>, j: nat)
    requires WfSigns(n, signs, |signs|) && j < |signs|
    ensures signs[j].nbits == if n - 15 * j >= 15 then 15 else n - 15 * j
    ensures signs[j].sym < Pow2(signs[j].nbits) <= CODE_BOT
    ensures SignSyms(n, signs)[j] == UniformSym(signs[j].sym, Pow2(signs[j].nbits))
  {
    RawTotal(signs[j].nbits);
    if j < |signs| - 1 {
      SignWire(n, signs[..|signs| - 1], j);
    }
    hide UniformSym, Pow2;
  }

  /** The first pulse has the highest bit of its symbol, and a set bit is a positive pulse. */
  lemma SignMeaning(v: seq<int>, q: nat)
    requires |v| == INTF_LEN && q < |Peaks(0, v)|
    ensures var raw := ParamsOf(v).signSyms;
            && q / 15 < |raw| && q % 15 < raw[q / 15].nbits
            && (raw[q / 15].sym / Pow2(raw[q / 15].nbits - 1 - q % 15) % 2 == 1 <==> Peaks(0, v)[q].val > 0)
  {
    hide Peaks, Batches, Pow2;
    var signs := Positive(Peaks(0, v));
    BatchesSign(signs, q);
    BatchesWf(signs);
  }

  /** Count, splits, runs and signs follow each other. */
  lemma BlockWire(cc: Tables, pp: PulseParams)
    requires WfPulses(cc, pp)
    ensures var s, a := PulseSyms(cc, pp), 1 + |CountSyms(cc, pp.subfr)|;
            && s != [] && s[0] == CountSym(pp.total) && Stands(s, 1, CountSyms(cc, pp.subfr))
            && Stands(s, a, MagSyms(cc, pp.subfr, pp.magRuns, SUBFRAMES))
            && Stands(s, a + |pp.magRuns|, SignSyms(Positions(pp.subfr, pp.magRuns, SUBFRAMES), pp.signSyms))
  {
    hide *;
    BlockParts(cc, pp);
    FourParts(CountSym(pp.total), CountSyms(cc, pp.subfr), MagSyms(cc, pp.subfr, pp.magRuns, SUBFRAMES),
              SignSyms(Positions(pp.subfr, pp.magRuns, SUBFRAMES), pp.signSyms));
  }

  lemma BlockParts(cc: Tables, pp: PulseParams)
    requires WfPulses(cc, pp)
    ensures pp.total <= COUNT_MAX && |pp.subfr| == SUBFRAMES && SplitsFit(cc, pp.subfr)
    ensures WfRuns(cc, pp.subfr, pp.magRuns, SUBFRAMES) && |pp.magRuns| >= Start(pp.subfr, SUBFRAMES)
    ensures WfSigns(Positions(pp.subfr, pp.magRuns, SUBFRAMES), pp.signSyms, |pp.signSyms|)
    ensures |MagSyms(cc, pp.subfr, pp.magRuns, SUBFRAMES)| == |pp.magRuns|
    ensures PulseSyms(cc, pp)
         == [CountSym(pp.total)]
            + (CountSyms(cc, pp.subfr)
               + (MagSyms(cc, pp.subfr, pp.magRuns, SUBFRAMES)
                  + SignSyms(Positions(pp.subfr, pp.magRuns, SUBFRAMES), pp.signSyms)))
  {
    MagCount(cc, pp.subfr, pp.magRuns, SUBFRAMES);
    hide CountSyms, MagSyms, SignSyms, CountSym, Positions, WfRuns, SplitsFit, WfSigns;
  }

  lemma FourParts(c: Sym, x: seq<Sym>, y: seq<Sym>, z: seq<Sym>)
    ensures var s := [c] + (x + (y + z));
            s != [] && s[0] == c && Stands(s, 1, x) && Stands(s, 1 + |x|, y) && Stands(s, 1 + |x| + |y|, z)
  {
    var s := [c] + (x + (y + z));
    StandsParts([c], x + (y + z));
    StandsParts(x, y + z);
    StandsParts(y, z);
    assert |[c]| == 1;
    hide Stands;
    StandsIn(s, 1, x + (y + z), 0, x);
    StandsIn(s, 1, x + (y + z), |x|, y + z);
    StandsIn(s, 1 + |x|, y + z, 0, y);
    StandsIn(s, 1 + |x|, y + z, |y|, z);
  }
}
