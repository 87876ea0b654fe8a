/** The excitation block of a low-rate frame, as the decoder reads it: the count comes from a
    table, a subframe holds at most eight pulses, and a split that gives two subframes more
    than sixteen is refused and leaves the block empty. */
module PulseLow {
  import opened RangeSpec
  import opened RangeDecoding
  import opened CcTables
  import opened PulseSpec
  import opened PulseVector
  import opened PulseCoding
  import opened RunCoding
  import opened PulseBlock

  const LOW_CAP := 8

  /** Block capacity for a frame class at the low rate. */
  function LowLen4k(s1: nat): (r: int)
    requires s1 < 2
    ensures r / SUBFRAMES == LOW_CAP
  {
    PulseCountByte(3 + 1 + s1) * INTF_LEN / 320
  }

  // ---- layout ----

  /** The table that divides the total over the two halves.  Its lower end is that of the low
      rate, its upper end still that of the high rate. */
  function FirstCdf(cc: Tables, total: nat): Cdf {
    var low, lo := Excess(total, 2 * LOW_CAP), Excess(total, 2 * MAX_PULSES);
    Window(cc.SplitCmf(total), low - lo, total - lo - low + 2)
  }

  ghost predicate FirstFits(cc: Tables, total: nat, first: nat) {
    var low, lo := Excess(total, 2 * LOW_CAP), Excess(total, 2 * MAX_PULSES);
    if low < total - lo then low <= first <= total - lo && first - low < |FirstCdf(cc, total)| - 1 else first == low
  }

  ghost function FirstSyms(cc: Tables, total: nat, first: nat): seq<Sym>
    requires FirstFits(cc, total, first)
  {
    var low, lo := Excess(total, 2 * LOW_CAP), Excess(total, 2 * MAX_PULSES);
    Choice(low < total - lo, FirstCdf(cc, total), first - low)
  }

  /** What the bytes say of the counts: the total, the first half, and the first quarters of both
      halves.  A first half that is too large has no quarters. */
  datatype LowCounts = LowCounts(total: nat, first: nat, s0: nat, s2: nat) {
    predicate Refused() { first > 2 * LOW_CAP }

    /** The counts of the four subframes. */
    function Subfr(): (r: seq<int>)
      ensures |r| == SUBFRAMES
    {
      if Refused() then [0, 0, 0, 0] else [s0, first - s0, s2, total - first - s2]
    }
  }

  ghost predicate WfLow(cc: Tables, s1: nat, c: LowCounts) {
    && s1 < 2 && 1 + s1 < |cc.nPulse| && c.total < |cc.nPulse[1 + s1]| - 1
    && FirstFits(cc, c.total, c.first) && c.first <= c.total
    && (!c.Refused() ==> CappedFits(cc, c.first, LOW_CAP, c.s0))
    && CappedFits(cc, c.total - c.first, LOW_CAP, c.s2)
  }

  ghost function LowSyms(cc: Tables, s1: nat, c: LowCounts): seq<Sym>
    requires WfLow(cc, s1, c)
  {
    [CdfSym(cc.nPulse[1 + s1], c.total)]
    + (FirstSyms(cc, c.total, c.first)
       + (RestSyms(cc, c)
          + CappedSyms(cc, c.total - c.first, LOW_CAP, c.s2)))
  }

  /** Four counts of at most eight that add up to the total, unless the split is refused; it is refused
      only for totals above sixteen. */
  lemma LowConserves(cc: Tables, s1: nat, c: LowCounts)
    requires WfLow(cc, s1, c)
    ensures forall i :: 0 <= i < SUBFRAMES ==> 0 <= c.Subfr()[i] <= LOW_CAP
    ensures c.Subfr()[0] + c.Subfr()[1] + c.Subfr()[2] + c.Subfr()[3] == if c.Refused() then 0 else c.total
    ensures c.Refused() ==> c.total > 2 * LOW_CAP
    ensures !c.Refused() ==> c.total <= 4 * LOW_CAP
  {
    FirstRange(cc, c.total, c.first);
  }

  lemma FirstRange(cc: Tables, total: nat, first: nat)
    requires FirstFits(cc, total, first)
    ensures first <= total && total - first <= 2 * LOW_CAP
  {
  }

  /** A total can be refused exactly when it is above sixteen: the upper end of the first half is not
      that of the low rate. */
  lemma Refusable(cc: Tables, total: nat)
    requires cc.Wf()
    ensures (exists first: nat :: FirstFits(cc, total, first) && first > 2 * LOW_CAP) <==> total > 2 * LOW_CAP
  {
    FirstSizes(cc, total);
    var low, lo := Excess(total, 2 * LOW_CAP), Excess(total, 2 * MAX_PULSES);
    var top := if low < total - lo then total - lo else low;
    assert FirstFits(cc, total, top);
    if exists first: nat :: FirstFits(cc, total, first) && first > 2 * LOW_CAP {
      var first: nat :| FirstFits(cc, total, first) && first > 2 * LOW_CAP;
      FirstRange(cc, total, first);
    }
  }

  // ---- reading ----

  lemma FirstSizes(cc: Tables, total: nat)
    requires cc.Wf()
    ensures var low, lo := Excess(total, 2 * LOW_CAP), Excess(total, 2 * MAX_PULSES);
            low <= total && lo <= low
            && (low < total - lo ==> |FirstCdf(cc, total)| == total - lo - low + 2)
  {
    var low, lo := Excess(total, 2 * LOW_CAP), Excess(total, 2 * MAX_PULSES);
    if low < total - lo {
      cc.SplitSizes(total);
    }
  }

  method DecodeLowFirst(dec: RangeDecoder, cc: Tables, total: nat, subfrLen16: nat) returns (sum: nat)
    requires dec.Valid() && cc.Wf() && subfrLen16 == LOW_CAP
    modifies dec
    ensures dec.Valid() && dec.err == old(dec.err) && FirstFits(cc, total, sum)
    ensures dec.At() == Run(old(dec.At()), FirstSyms(cc, total, sum))
  {
    hide RangeDecoder.Valid, RangeDecoder.At, IsCdf, Run, Step, CdfSym, Window, Tables.SplitCmf, Tables.Wf;
    FirstSizes(cc, total);
    sum := if total > subfrLen16 * 2 then total - subfrLen16 * 2 else 0;
    var lo := if total > 80 then total - 80 else 0;
    assert sum == Excess(total, 2 * LOW_CAP) && lo == Excess(total, 2 * MAX_PULSES);
    RunThree(dec.At(), [], [], []);
    var hiBound := total - lo;
    if sum < hiBound {
      var cdf := Window(cc.SplitCmf(total), sum - lo, hiBound - sum + 2);
      var k := dec.DecodeCDF(cdf);
      RunOne(old(dec.At()), CdfSym(cdf, k));
      sum := sum + k;
    }
  }

  lemma CappedNothing(cc: Tables, cap: nat)
    ensures CappedFits(cc, 0, cap, 0) && CappedSyms(cc, 0, cap, 0) == []
  {
  }

  ghost function RestSyms(cc: Tables, c: LowCounts): seq<Sym>
    requires !c.Refused() ==> CappedFits(cc, c.first, LOW_CAP, c.s0)
  {
    if c.Refused() then [] else CappedSyms(cc, c.first, LOW_CAP, c.s0)
  }

  /** The quarters of both halves. */
  method DecodeLowQuarters(dec: RangeDecoder, cc: Tables, total: nat, sum: nat, subfrLen16: nat)
    returns (split: seq<int>, ghost c: LowCounts, ghost mid: Interval)
    requires dec.Valid() && cc.Wf() && subfrLen16 == LOW_CAP && sum <= total && total - sum <= 2 * LOW_CAP
    modifies dec
    ensures dec.Valid() && dec.err == old(dec.err)
    ensures c.total == total && c.first == sum && split == c.Subfr()
    ensures !c.Refused() ==> CappedFits(cc, sum, LOW_CAP, c.s0)
    ensures mid == Run(old(dec.At()), RestSyms(cc, c)) && CappedFits(cc, total - sum, LOW_CAP, c.s2)
    ensures dec.At() == Run(mid, CappedSyms(cc, total - sum, LOW_CAP, c.s2))
  {
    hide RangeDecoder.Valid, RangeDecoder.At, Run, Tables.Wf, CappedFits, CappedSyms;
    RunNothing(dec.At());
    var s0 := DecodeQuarter(dec, cc, sum, subfrLen16);
    mid := dec.At();
    var s2 := DecodeQuarter(dec, cc, total - sum, subfrLen16);
    c := LowCounts(total, sum, if s0 == -1 then 0 else s0, s2);
    split := if s0 == -1 || s2 == -1 then [0, 0, 0, 0] else [s0, sum - s0, s2, total - sum - s2];
  }

  /** The first of two subframes, if they hold anything. */
  method DecodeQuarter(dec: RangeDecoder, cc: Tables, count: nat, granularity: nat) returns (s0: int)
    requires dec.Valid() && cc.Wf() && granularity == LOW_CAP
    modifies dec
    ensures dec.Valid() && dec.err == old(dec.err)
    ensures count > 2 * granularity ==> s0 == -1 && dec.At() == old(dec.At())
    ensures count <= 2 * granularity ==>
              && s0 >= 0 && CappedFits(cc, count, granularity, s0)
              && dec.At() == Run(old(dec.At()), CappedSyms(cc, count, granularity, s0))
  {
    hide RangeDecoder.Valid, RangeDecoder.At, Run, Tables.Wf, CappedFits, CappedSyms;
    CappedNothing(cc, LOW_CAP);
    RunNothing(dec.At());
    s0 := 0;
    if count > 0 {
      s0 := DecodeSplit(dec, cc, count, granularity);
    }
  }

  method DecodeLowCounts(dec: RangeDecoder, cc: Tables, s1: nat) returns (split: seq<int>, ghost c: LowCounts)
    requires dec.Valid() && cc.Wf() && s1 < 2
    modifies dec
    ensures dec.Valid() && dec.err == old(dec.err)
    ensures WfLow(cc, s1, c) && split == c.Subfr()
    ensures dec.At() == Run(old(dec.At()), LowSyms(cc, s1, c))
  {
    var subfrLen16 := LowLen4k(s1) / SUBFRAMES;
    assert |cc.nPulse| == 3;
    hide RangeDecoder.Valid, RangeDecoder.At, IsCdf, Run, Step, Tables.Wf, CdfSym;
    hide FirstFits, FirstSyms, CappedFits, CappedSyms, RestSyms, LowSyms, LowCounts.Subfr;
    ghost var iv := dec.At();
    var total := dec.DecodeCDF(cc.nPulse[1 + s1]);
    ghost var iv1 := dec.At();
    var sum := DecodeLowFirst(dec, cc, total, subfrLen16);
    FirstRange(cc, total, sum);
    ghost var iv2 := dec.At();
    ghost var iv3;
    split, c, iv3 := DecodeLowQuarters(dec, cc, total, sum, subfrLen16);
    LowMade(cc, s1, c, iv, iv1, iv2, iv3, dec.At());
  }

  lemma RunNothing(iv: Interval)
    ensures Run(iv, []) == iv
  {
  }

  lemma LowMade(cc: Tables, s1: nat, c: LowCounts, iv: Interval, iv1: Interval, iv2: Interval, iv3: Interval,
                at: Interval)
    requires WfLow(cc, s1, c)
    requires iv1 == Step(iv, CdfSym(cc.nPulse[1 + s1], c.total)) && iv2 == Run(iv1, FirstSyms(cc, c.total, c.first))
    requires iv3 == Run(iv2, RestSyms(cc, c))
    requires at == Run(iv3, CappedSyms(cc, c.total - c.first, LOW_CAP, c.s2))
    ensures at == Run(iv, LowSyms(cc, s1, c))
  {
    hide FirstSyms, CappedSyms, RestSyms, Step, CdfSym;
    LowRun(iv, CdfSym(cc.nPulse[1 + s1], c.total), FirstSyms(cc, c.total, c.first),
           RestSyms(cc, c), CappedSyms(cc, c.total - c.first, LOW_CAP, c.s2));
    hide Run;
  }

  lemma LowRun(iv: Interval, t: Sym, f: seq<Sym>, h: seq<Sym>, k: seq<Sym>)
    ensures Run(iv, [t] + (f + (h + k))) == Run(Run(Run(Step(iv, t), f), h), k)
    ensures Run(iv, []) == iv
  {
    PulseRun(iv, t, f, h, k);
  }

  lemma LowSplitsFit(cc: Tables, s1: nat, c: LowCounts, split: seq<nat>)
    requires cc.Wf() && WfLow(cc, s1, c) && split == c.Subfr()
    ensures SplitsFit(cc, split) && RunsSized(cc) && forall i :: 0 <= i < SUBFRAMES ==> split[i] <= LOW_CAP
    ensures Start(split, SUBFRAMES) == (if c.Refused() then 0 else c.total) <= COUNT_MAX
  {
    LowConserves(cc, s1, c);
    TotalOfFour(split);
    hide SplitsFit, Tables.Wf, WfLow;
    SplitsFitCounts(cc, split);
    WfRunsSized(cc);
  }

  /** Reads a low-rate excitation block out of any byte string.  The block is one that the high rate
      could have written, of at most eight units a subframe; in every subframe the absolute
      values add up to the count read. */
  method DecodeLowPulses(dec: RangeDecoder, cc: Tables, s1: nat)
    returns (pp: PulseParams, pulses: array<int>, ghost c: LowCounts)
    requires dec.Valid() && cc.Wf() && s1 < 2
    modifies dec
    ensures dec.Valid() && dec.err == old(dec.err) && fresh(pulses)
    ensures WfLow(cc, s1, c) && WfPulses(cc, pp) && pp.subfr == c.Subfr()
    ensures dec.At() == Run(old(dec.At()), LowSyms(cc, s1, c)
                              + (MagSyms(cc, pp.subfr, pp.magRuns, SUBFRAMES)
                                 + SignSyms(Positions(pp.subfr, pp.magRuns, SUBFRAMES), pp.signSyms)))
    ensures Placeable(pp) && pulses[..] == Reconstruct(pp) && Norms(pulses[..]) == pp.subfr
  {
    hide RangeDecoder.Valid, RangeDecoder.At, Run, Step, MagSyms, SignSyms, Positions, WfRuns, SplitsFit, WfLow;
    hide Tables.Wf, Start, WfSigns, Place, AllSpots, Signed, RunsSized, LowSyms, LowCounts.Subfr, Norms;
    ghost var iv := dec.At();
    pulses := new int[INTF_LEN](_ => 0);
    PlaceNone(INTF_LEN);
    var counts;
    counts, c := DecodeLowCounts(dec, cc, s1);
    LowConserves(cc, s1, c);
    assert forall i :: 0 <= i < |counts| ==> counts[i] >= 0;
    var split: seq<nat> := counts;
    LowSplitsFit(cc, s1, c, split);
    var magRuns, posList, magList := DecodeMagnitudes(dec, cc, split);
    var signSyms, vals := DecodeSigns(dec, magList);
    pp := PulseParams(Start(split, SUBFRAMES), split, magRuns, signSyms);
    SignLength(|magList|, signSyms);
    RunThree(iv, LowSyms(cc, s1, c), MagSyms(cc, split, magRuns, SUBFRAMES), SignSyms(|magList|, signSyms));
    SpotsPlaceable(cc, pp);
    Scatter(pulses, posList, vals);
    BlockRoundTrip(cc, pp);
  }
}
