/** The excitation block on the wire: the encoder that replays block parameters and
    the decoder that rebuilds the pulse vector from any byte string. */
module PulseCoding {
  import opened RangeSpec
  import opened RangeEncoding
  import opened RangeDecoding
  import opened CcTables
  import opened PulseSpec
  import opened PulseVector

  /** Block capacity for a frame class, as both sides compute it. */
  function FrameLen4k(s1: nat): (r: int)
    requires s1 < 2
    ensures r == COUNT_MAX && r / SUBFRAMES == MAX_PULSES
  {
    PulseCountByte(1 + s1) * INTF_LEN / 320
  }

  // ---- pulse count ----

  lemma TriHere(k: nat)
    requires k <= COUNT_MAX
    ensures TriWrapped(k, COUNT_MAX) == Tri(k, COUNT_MAX) > 0
  {
    TriIsTri(k, COUNT_MAX);
  }

  function NonZero(x: nat): nat {
    if x == 0 then 1 else x
  }

  method EncodeCount(enc: RangeEncoder, s1: nat, total: nat)
    requires enc.Valid() && s1 < 2 && total <= COUNT_MAX
    modifies enc, enc.buf
    ensures enc.Valid() && enc.Misused == old(enc.Misused)
    ensures enc.Syms == old(enc.Syms) + [CountSym(total)]
  {
    hide Tri, TriWrapped;
    var l := FrameLen4k(s1);
    TriHere(l);
    TriHere(total);
    CountOrder(total);
    TriBelowBot(l);
    var ft := NonZero(TriWrapped(l, l));
    var fl := 0;
    if total > 0 {
      TriHere(total - 1);
      fl := TriWrapped(total - 1, l);
    }
    var fh := TriWrapped(total, l);
    enc.Encode(fl, fh, ft);
  }

  lemma TriBelowBot(l: nat)
    requires l == COUNT_MAX
    ensures Tri(l, l) <= CODE_BOT
  {
    CountOrder(l);
  }

  /** Searches the triangular prior.  Every frequency lies in one interval, so the
      search always ends at a count. */
  method FindCount(l: nat, val: nat) returns (k: nat, prevCum: nat)
    requires l == COUNT_MAX && val < Tri(COUNT_MAX, COUNT_MAX)
    ensures k <= COUNT_MAX && prevCum == CountSym(k).fl <= val < CountSym(k).fh
  {
    hide Tri, TriWrapped;
    var limit := l + 1;
    prevCum, k := 0, 0;
    while k != limit
      invariant k <= limit && prevCum == (if k == 0 then 0 else Tri(k - 1, COUNT_MAX)) && prevCum <= val
      decreases limit - k
    {
      TriHere(k);
      CountOrder(k);
      var cum := TriWrapped(k, l);
      if prevCum <= val < cum {
        return;
      }
      prevCum := cum;
      k := k + 1;
    }
  }

  method DecodeCount(dec: RangeDecoder, s1: nat) returns (total: nat)
    requires dec.Valid() && s1 < 2
    modifies dec
    ensures dec.Valid() && dec.err == old(dec.err)
    ensures total <= COUNT_MAX && dec.At() == Step(old(dec.At()), CountSym(total))
  {
    hide Tri, TriWrapped;
    var l := FrameLen4k(s1);
    TriHere(l);
    TriBelowBot(l);
    var ft := NonZero(TriWrapped(l, l));
    var val := dec.Decode(ft);
    var k, prevCum := FindCount(l, val);
    TriHere(k);
    ghost var sym := CountSym(k);
    assert InCode(dec.buf, Narrow(dec.At(), sym));
    dec.Update(prevCum, TriWrapped(k, l), ft);
    total := k;
  }

  // ---- split ----

  lemma WholeWindow(c: Cdf)
    ensures Window(c, 0, |c|) == c
  {
    assert c[0..|c|] == c;
  }

  method EncodeSplit(enc: RangeEncoder, cc: Tables, count: nat, granularity: nat, s0: nat)
    requires enc.Valid() && count <= 2 * granularity && granularity == MAX_PULSES
    requires HalfFits(cc.HalfCdf(count), count, s0)
    modifies enc, enc.buf
    ensures enc.Valid() && enc.Misused == old(enc.Misused)
    ensures enc.Syms == old(enc.Syms) + HalfSyms(cc.HalfCdf(count), count, s0)
  {
    hide RangeEncoder.Valid, IsCdf, Window, Tables.SplitCmf;
    var lo := if granularity < count then granularity else count;
    var minSplit := if count > granularity then count - granularity else 0;
    if lo < minSplit || minSplit == lo {
      return;
    }
    var cdf := Window(cc.SplitCmf(count), minSplit, lo - minSplit + 2);
    enc.EncodeCDF(s0 - minSplit, cdf);
  }

  /** The table that splits count pulses over two subframes of at most cap each. */
  function CappedCdf(cc: Tables, count: nat, cap: nat): Cdf {
    var lo := Excess(count, cap);
    Window(cc.SplitCmf(count), lo, count - 2 * lo + 2)
  }

  ghost predicate CappedFits(cc: Tables, count: nat, cap: nat, first: nat) {
    var lo := Excess(count, cap);
    lo <= first <= count - lo && (0 < count < 2 * cap ==> first - lo < |CappedCdf(cc, count, cap)| - 1)
  }

  ghost function CappedSyms(cc: Tables, count: nat, cap: nat, first: nat): seq<Sym>
    requires CappedFits(cc, count, cap, first)
  {
    Choice(0 < count < 2 * cap, CappedCdf(cc, count, cap), first - Excess(count, cap))
  }

  lemma CappedIsHalf(cc: Tables, count: nat, first: nat)
    ensures CappedFits(cc, count, MAX_PULSES, first) <==> HalfFits(cc.HalfCdf(count), count, first)
    ensures CappedFits(cc, count, MAX_PULSES, first) ==>
              CappedSyms(cc, count, MAX_PULSES, first) == HalfSyms(cc.HalfCdf(count), count, first)
  {
  }

  lemma CappedSizes(cc: Tables, count: nat, cap: nat)
    requires cc.Wf() && 0 < count < 2 * cap && cap <= MAX_PULSES
    ensures |CappedCdf(cc, count, cap)| == count - 2 * Excess(count, cap) + 2
  {
    cc.SplitSizes(count);
  }

  /** A count over two subframes' capacity is refused with -1. */
  method DecodeSplit(dec: RangeDecoder, cc: Tables, count: nat, granularity: nat) returns (s0: int)
    requires dec.Valid() && cc.Wf() && 0 < granularity <= MAX_PULSES
    modifies dec
    ensures dec.Valid() && dec.err == old(dec.err)
    ensures count > 2 * granularity ==> s0 == -1 && dec.At() == old(dec.At())
    ensures count <= 2 * granularity ==>
              && s0 >= 0 && CappedFits(cc, count, granularity, s0)
              && dec.At() == Run(old(dec.At()), CappedSyms(cc, count, granularity, s0))
  {
    hide RangeDecoder.Valid, RangeDecoder.At, IsCdf, Run, Step, CdfSym, Window, Tables.SplitCmf, Tables.Wf;
    var lo := if granularity < count then granularity else count;
    var minSplit := if count > granularity then count - granularity else 0;
    if lo < minSplit {
      return -1;
    }
    RunOne(dec.At(), Sym(0, 1, 1));
    if minSplit == lo {
      return minSplit;
    }
    CappedSizes(cc, count, granularity);
    var cdf := Window(cc.SplitCmf(count), minSplit, lo - minSplit + 2);
    ghost var iv: Interval := dec.At();
    var k := dec.DecodeCDF(cdf);
    s0 := k + minSplit;
    RunOne(iv, CdfSym(cdf, k));
  }

  /** The parts of a count block, and the table windows they are read through. */
  lemma CountParts(cc: Tables, subfr: seq<nat>, total: nat)
    requires cc.Wf() && |subfr| == SUBFRAMES && total == Start(subfr, SUBFRAMES) <= COUNT_MAX
    requires SplitsFit(cc, subfr)
    ensures var first := subfr[0] + subfr[1];
            && total == first + (subfr[2] + subfr[3])
            && SplitFits(cc.SplitCmf(total), total, first)
            && HalfFits(cc.HalfCdf(first), first, subfr[0])
            && HalfFits(cc.HalfCdf(total - first), total - first, subfr[2])
            && first <= 2 * MAX_PULSES && total - first <= 2 * MAX_PULSES
            && CountSyms(cc, subfr) == SplitSyms(cc.SplitCmf(total), total, first)
                 + (HalfSyms(cc.HalfCdf(first), first, subfr[0])
                    + HalfSyms(cc.HalfCdf(total - first), total - first, subfr[2]))
  {
    hide Tables.HalfCdf, HalfFits, HalfSyms, SplitSyms, Start;
    TotalOfFour(subfr);
    SplitFitsCount(cc, total, subfr[0] + subfr[1]);
  }

  lemma SplitWindow(cc: Tables, total: nat)
    requires cc.Wf() && total <= COUNT_MAX
    ensures var lo := Excess(total, 2 * MAX_PULSES);
            lo < total - lo ==> Window(cc.SplitCmf(total), 0, total - lo - lo + 2) == cc.SplitCmf(total)
  {
    if 1 <= total <= SPLIT_TABLES {
      cc.SplitSizes(total);
      WholeWindow(cc.SplitCmf(total));
    }
  }

  /** The split of the total over halves and quarters. */
  method EncodeCounts(enc: RangeEncoder, cc: Tables, total: nat, subfr: seq<nat>, subfrLen16: nat)
    requires enc.Valid() && cc.Wf() && |subfr| == SUBFRAMES && subfrLen16 == MAX_PULSES
    requires total == Start(subfr, SUBFRAMES) <= COUNT_MAX && SplitsFit(cc, subfr)
    modifies enc, enc.buf
    ensures enc.Valid() && enc.Misused == old(enc.Misused)
    ensures enc.Syms == old(enc.Syms) + CountSyms(cc, subfr)
  {
    hide Start, SplitsFit, CountSyms, Tables.HalfCdf, Tables.SplitCmf, Tables.Wf, HalfFits, HalfSyms;
    hide RangeEncoder.Valid, IsCdf, Window, TablesFor, CdfSym;
    HalfNothing(cc.HalfCdf(0));
    CountParts(cc, subfr, total);
    SplitWindow(cc, total);
    var finalSum := subfr[0] + subfr[1];
    var initSum := if total > subfrLen16 * 2 then total - subfrLen16 * 2 else 0;
    var lo := if total > 80 then total - 80 else 0;
    assert initSum == lo == Excess(total, 2 * MAX_PULSES);
    var hiBound := total - lo;
    JoinThree(enc.Syms, SplitSyms(cc.SplitCmf(total), total, finalSum),
              HalfSyms(cc.HalfCdf(finalSum), finalSum, subfr[0]),
              HalfSyms(cc.HalfCdf(total - finalSum), total - finalSum, subfr[2]));
    if initSum < hiBound {
      var cdf := Window(cc.SplitCmf(total), initSum - lo, hiBound - initSum + 2);
      enc.EncodeCDF(finalSum - initSum, cdf);
    }
    if finalSum > 0 {
      EncodeSplit(enc, cc, finalSum, subfrLen16, subfr[0]);
    }
    if finalSum < total {
      EncodeSplit(enc, cc, total - finalSum, subfrLen16, subfr[2]);
    }
  }

  lemma HalfNothing(c: Cdf)
    ensures HalfFits(c, 0, 0) && HalfSyms(c, 0, 0) == []
    ensures forall x: nat :: HalfFits(c, 0, x) ==> x == 0
  {
  }

  lemma JoinThree(a: seq<Sym>, s: seq<Sym>, h: seq<Sym>, k: seq<Sym>)
    ensures a + (s + (h + k)) == ((a + s) + h) + k
    ensures s == [] ==> a + s == a
    ensures h == [] ==> (a + s) + h == a + s
    ensures k == [] ==> ((a + s) + h) + k == (a + s) + h
  {
  }

  lemma RunThree(iv: Interval, s: seq<Sym>, h: seq<Sym>, k: seq<Sym>)
    ensures Run(iv, s + (h + k)) == Run(Run(Run(iv, s), h), k)
    ensures Run(iv, []) == iv
  {
    RunAppend(iv, s, h + k);
    RunAppend(Run(iv, s), h, k);
  }

  lemma CountsJoin(cc: Tables, total: nat, first: nat, s0: nat, s2: nat)
    requires cc.Wf() && first <= total <= COUNT_MAX
    requires SplitFits(cc.SplitCmf(total), total, first)
    requires HalfFits(cc.HalfCdf(first), first, s0) && HalfFits(cc.HalfCdf(total - first), total - first, s2)
    ensures s0 <= first && s2 <= total - first
    ensures var subfr := [s0, first - s0, s2, total - first - s2];
            && Start(subfr, SUBFRAMES) == total && SplitsFit(cc, subfr)
            && CountSyms(cc, subfr) == SplitSyms(cc.SplitCmf(total), total, first)
                 + (HalfSyms(cc.HalfCdf(first), first, s0)
                    + HalfSyms(cc.HalfCdf(total - first), total - first, s2))
  {
    hide Tables.HalfCdf, Tables.SplitCmf, HalfSyms, SplitSyms, Start;
    TotalOfFour([s0, first - s0, s2, total - first - s2]);
  }

  lemma HalvesBounded(cc: Tables, total: nat, first: nat)
    requires cc.Wf() && first <= total <= COUNT_MAX && SplitFits(cc.SplitCmf(total), total, first)
    ensures first <= 2 * MAX_PULSES && total - first <= 2 * MAX_PULSES
  {
    SplitFitsCount(cc, total, first);
  }

  /** First-half pulses, coded when the total leaves a choice. */
  method DecodeFirst(dec: RangeDecoder, cc: Tables, total: nat, subfrLen16: nat) returns (sum: nat)
    requires dec.Valid() && cc.Wf() && total <= COUNT_MAX && subfrLen16 == MAX_PULSES
    modifies dec
    ensures dec.Valid() && dec.err == old(dec.err)
    ensures sum <= total && SplitFits(cc.SplitCmf(total), total, sum)
    ensures dec.At() == Run(old(dec.At()), SplitSyms(cc.SplitCmf(total), total, sum))
  {
    hide RangeDecoder.Valid, RangeDecoder.At, IsCdf, Run, Step, CdfSym, Window, Tables.SplitCmf, Tables.Wf;
    SplitWindow(cc, total);
    sum := if total > subfrLen16 * 2 then total - subfrLen16 * 2 else 0;
    var lo := if total > 80 then total - 80 else 0;
    assert sum == lo == Excess(total, 2 * MAX_PULSES);
    RunThree(dec.At(), [], [], []);
    var hiBound := total - lo;
    if sum < hiBound {
      FirstSizes(cc, total);
      var cdf := Window(cc.SplitCmf(total), sum - lo, hiBound - sum + 2);
      var k := dec.DecodeCDF(cdf);
      RunOne(old(dec.At()), CdfSym(cdf, k));
      sum := sum + k;
    }
  }

  lemma FirstSizes(cc: Tables, total: nat)
    requires cc.Wf() && total <= COUNT_MAX
    ensures var lo := Excess(total, 2 * MAX_PULSES);
            lo < total - lo ==> |cc.SplitCmf(total)| == total - lo - lo + 2
  {
    if 1 <= total <= SPLIT_TABLES {
      cc.SplitSizes(total);
    }
  }

  method DecodeCounts(dec: RangeDecoder, cc: Tables, total: nat, subfrLen16: nat) returns (split: seq<nat>)
    requires dec.Valid() && cc.Wf() && total <= COUNT_MAX && subfrLen16 == MAX_PULSES
    modifies dec
    ensures dec.Valid() && dec.err == old(dec.err)
    ensures |split| == SUBFRAMES && Start(split, SUBFRAMES) == total && SplitsFit(cc, split)
    ensures dec.At() == Run(old(dec.At()), CountSyms(cc, split))
  {
    hide RangeDecoder.Valid, RangeDecoder.At, IsCdf, Run, Step, Tables.SplitCmf, Tables.HalfCdf, Tables.Wf;
    hide SplitFits, SplitSyms, HalfFits, HalfSyms, SplitsFit, CountSyms, Start, CappedFits, CappedSyms;
    ghost var iv := dec.At();
    var sum := DecodeFirst(dec, cc, total, subfrLen16);
    HalvesBounded(cc, total, sum);
    HalfNothing(cc.HalfCdf(0));
    var s0, s1, s2, s3 := 0, 0, 0, 0;
    RunThree(dec.At(), [], [], []);
    if sum > 0 {
      s0 := DecodeSplit(dec, cc, sum, subfrLen16);
      CappedIsHalf(cc, sum, s0);
      s1 := sum - s0;
    }
    RunThree(dec.At(), [], [], []);
    if sum < total {
      s2 := DecodeSplit(dec, cc, total - sum, subfrLen16);
      CappedIsHalf(cc, total - sum, s2);
      s3 := total - sum - s2;
    }
    CountsJoin(cc, total, sum, s0, s2);
    if s0 == -1 || s2 == -1 {
      s0, s1, s2, s3 := 0, 0, 0, 0;
    }
    RunThree(iv, SplitSyms(cc.SplitCmf(total), total, sum), HalfSyms(cc.HalfCdf(sum), sum, s0),
             HalfSyms(cc.HalfCdf(total - sum), total - sum, s2));
    split := [s0, s1, s2, s3];
  }
}
