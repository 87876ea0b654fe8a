/** Run lengths and signs on the wire. */
module RunCoding {
  import opened RangeSpec
  import opened RangeEncoding
  import opened RangeDecoding
  import opened CdfTables
  import opened CcTables
  import opened PulseSpec
  import opened PulseVector

  // ---- run lengths of one subframe ----

  lemma RunsSnoc(cc: Tables, cnt: nat, runs: seq<nat>, m: nat)
    requires |runs| < cnt && Admissible(RunModel(cc, cnt), runs)
    requires m < |cc.RunCdf(SUBFR_LEN - Sum(runs), cnt - |runs|)| - 1
    ensures Admissible(RunModel(cc, cnt), runs + [m])
    ensures AdaptiveSyms(RunModel(cc, cnt), runs + [m])
         == AdaptiveSyms(RunModel(cc, cnt), runs) + [CdfSym(cc.RunCdf(SUBFR_LEN - Sum(runs), cnt - |runs|), m)]
  {
    hide Tables.RunCdf, CdfSym, Sum, Admissible, AdaptiveSyms;
    assert RunModel(cc, cnt)(runs) == cc.RunCdf(SUBFR_LEN - Sum(runs), cnt - |runs|);
    AdaptiveSnoc(RunModel(cc, cnt), runs, m);
  }

  lemma RunsEmpty(cc: Tables, cnt: nat)
    ensures Admissible(RunModel(cc, cnt), []) && AdaptiveSyms(RunModel(cc, cnt), []) == []
    ensures forall base: nat :: Walk(base, []) == Spots([], [])
    ensures Sum([]) == 0
  {
  }

  /** A subframe's share of the run lengths: a table for every distance left. */
  lemma RunStep(cc: Tables, cnt: nat, runs: seq<nat>, k: nat)
    requires k < |runs| == cnt && Admissible(RunModel(cc, cnt), runs)
    ensures Admissible(RunModel(cc, cnt), runs[..k]) && Admissible(RunModel(cc, cnt), runs[..k + 1])
    ensures Sum(runs[..k + 1]) == Sum(runs[..k]) + runs[k]
    ensures runs[k] < |cc.RunCdf(SUBFR_LEN - Sum(runs[..k]), cnt - k)| - 1
    ensures AdaptiveSyms(RunModel(cc, cnt), runs[..k + 1])
         == AdaptiveSyms(RunModel(cc, cnt), runs[..k])
            + [CdfSym(cc.RunCdf(SUBFR_LEN - Sum(runs[..k]), cnt - k), runs[k])]
  {
    hide AdaptiveSyms, Sum, Tables.RunCdf, CdfSym;
    AdmissiblePrefix(RunModel(cc, cnt), runs, k);
    assert RunModel(cc, cnt)(runs[..k]) == cc.RunCdf(SUBFR_LEN - Sum(runs[..k]), cnt - k);
    hide Admissible, RunModel;
    SumPrefix(runs, k);
    assert runs[..k + 1] == runs[..k] + [runs[k]];
    RunsSnoc(cc, cnt, runs[..k], runs[k]);
  }

  method EncodeRuns(enc: RangeEncoder, cc: Tables, cnt: nat, magRuns: seq<nat>, magIdx: nat)
    requires enc.Valid() && magIdx + cnt <= |magRuns|
    requires Admissible(RunModel(cc, cnt), magRuns[magIdx..magIdx + cnt])
    modifies enc, enc.buf
    ensures enc.Valid() && enc.Misused == old(enc.Misused)
    ensures enc.Syms == old(enc.Syms) + AdaptiveSyms(RunModel(cc, cnt), magRuns[magIdx..magIdx + cnt])
  {
    hide RangeEncoder.Valid, IsCdf, CdfSym, Tables.RunCdf, AdaptiveSyms, Admissible, RunModel, Sum;
    ghost var runs := magRuns[magIdx..magIdx + cnt];
    RunsEmpty(cc, cnt);
    var pos: int := SUBFR_LEN;
    var c := cnt;
    var k := 0;
    assert runs[..0] == [];
    while k < cnt
      invariant k <= cnt && c == cnt - k
      invariant pos == SUBFR_LEN - Sum(runs[..k])
      invariant enc.Valid() && enc.Misused == old(enc.Misused)
      invariant Admissible(RunModel(cc, cnt), runs[..k])
      invariant enc.Syms == old(enc.Syms) + AdaptiveSyms(RunModel(cc, cnt), runs[..k])
    {
      RunStep(cc, cnt, runs, k);
      var m := magRuns[magIdx + k];
      enc.EncodeCDF(m, cc.RunCdf(pos, c));
      if m > 0 || k == 0 {
        pos := pos - m;
      }
      c := c - 1;
      k := k + 1;
      RunPrefix(cc, cnt, runs, k);
    }
    assert runs[..cnt] == runs;
  }

  lemma RunPrefix(cc: Tables, cnt: nat, runs: seq<nat>, k: nat)
    requires k <= |runs| && Admissible(RunModel(cc, cnt), runs)
    ensures Admissible(RunModel(cc, cnt), runs[..k])
  {
    AdmissiblePrefix(RunModel(cc, cnt), runs, k);
  }

  lemma RunRoom(cc: Tables, cnt: nat, runs: seq<nat>)
    requires RunsSized(cc) && |runs| < cnt <= MAX_PULSES && Admissible(RunModel(cc, cnt), runs)
    ensures var pos := SUBFR_LEN - Sum(runs);
            1 <= pos <= SUBFR_LEN && |cc.RunCdf(pos, cnt - |runs|)| == pos + 1
  {
    RunsInSubframe(cc, cnt, runs);
  }

  lemma JoinSpots(a: Spots, s: Spots, at: nat, isNew: bool)
    requires |a.pos| == |a.mag| && |s.pos| == |s.mag| && (isNew || s.mag != [])
    ensures a.pos + Extend(s, at, isNew).pos == if isNew then (a.pos + s.pos) + [at] else a.pos + s.pos
    ensures a.mag + Extend(s, at, isNew).mag
         == if isNew then (a.mag + s.mag) + [1]
            else (a.mag + s.mag)[|a.mag| + |s.mag| - 1 := (a.mag + s.mag)[|a.mag| + |s.mag| - 1] + 1]
  {
  }

  /** Reads the run lengths of one subframe and follows them. */
  method DecodeRuns(dec: RangeDecoder, cc: Tables, cnt: nat, basePos: nat, before: Spots)
    returns (runs: seq<nat>, posList: seq<nat>, magList: seq<nat>)
    requires dec.Valid() && RunsSized(cc) && cnt <= MAX_PULSES && |before.pos| == |before.mag|
    modifies dec
    ensures dec.Valid() && dec.err == old(dec.err)
    ensures |runs| == cnt && Admissible(RunModel(cc, cnt), runs)
    ensures dec.At() == Run(old(dec.At()), AdaptiveSyms(RunModel(cc, cnt), runs))
    ensures posList == before.pos + Walk(basePos, runs).pos
    ensures magList == before.mag + Walk(basePos, runs).mag
  {
    hide RangeDecoder.Valid, RangeDecoder.At, IsCdf, CdfSym, Tables.RunCdf, AdaptiveSyms, Admissible, RunModel;
    hide Sum, Walk, Run, Step, RunsSized, Extend;
    ghost var iv := dec.At();
    RunsEmpty(cc, cnt);
    RunOne(iv, Sym(0, 1, 1));
    runs, posList, magList := [], before.pos, before.mag;
    var runPos, pos: int, c, k := basePos, SUBFR_LEN, cnt, 0;
    ghost var s := Spots([], []);
    while k < cnt
      invariant |runs| == k <= cnt && c == cnt - k
      invariant pos == SUBFR_LEN - Sum(runs) && runPos == basePos + Sum(runs)
      invariant dec.Valid() && dec.err == old(dec.err)
      invariant Admissible(RunModel(cc, cnt), runs)
      invariant dec.At() == Run(iv, AdaptiveSyms(RunModel(cc, cnt), runs))
      invariant s == Walk(basePos, runs) && |s.pos| == |s.mag| && (k > 0 ==> s.mag != [])
      invariant posList == before.pos + s.pos && magList == before.mag + s.mag
    {
      RunRoom(cc, cnt, runs);
      assert pos >= 0;
      var cdf := cc.RunCdf(pos, c);
      var m := dec.DecodeCDF(cdf);
      RunsSnoc(cc, cnt, runs, m);
      RunSnoc(iv, AdaptiveSyms(RunModel(cc, cnt), runs), CdfSym(cdf, m));
      WalkSnoc(basePos, runs, m);
      var isNew := m > 0 || k == 0;
      JoinSpots(before, s, runPos + m, isNew);
      ExtendSize(s, runPos + m, isNew);
      s := Extend(s, runPos + m, isNew);
      runs := runs + [m];
      if isNew {
        runPos := runPos + m;
        posList := posList + [runPos];
        magList := magList + [1];
        pos := pos - m;
      } else if |posList| - 1 >= 0 {
        var pulseIdx := |posList| - 1;
        magList := magList[pulseIdx := magList[pulseIdx] + 1];
      }
      c := c - 1;
      k := k + 1;
    }
  }

  lemma ExtendSize(s: Spots, at: nat, isNew: bool)
    requires |s.pos| == |s.mag| && (isNew || s.mag != [])
    ensures var e := Extend(s, at, isNew); |e.pos| == |e.mag| > 0
  {
  }

  // ---- all four subframes ----

  method EncodeMagnitudes(enc: RangeEncoder, cc: Tables, subfr: seq<nat>, magRuns: seq<nat>)
    requires enc.Valid() && |subfr| == SUBFRAMES && WfRuns(cc, subfr, magRuns, SUBFRAMES)
    modifies enc, enc.buf
    ensures enc.Valid() && enc.Misused == old(enc.Misused)
    ensures enc.Syms == old(enc.Syms) + MagSyms(cc, subfr, magRuns, SUBFRAMES)
  {
    hide RangeEncoder.Valid, AdaptiveSyms, Admissible, RunModel, Sum, Start;
    var magIdx := 0;
    MagStart(cc, subfr, magRuns);
    for sf := 0 to SUBFRAMES
      invariant magIdx == Start(subfr, sf)
      invariant enc.Valid() && enc.Misused == old(enc.Misused)
      invariant WfRuns(cc, subfr, magRuns, sf)
      invariant enc.Syms == old(enc.Syms) + MagSyms(cc, subfr, magRuns, sf)
    {
      MagStep(cc, subfr, magRuns, sf);
      var cnt := subfr[sf];
      if cnt > 0 {
        EncodeRuns(enc, cc, cnt, magRuns, magIdx);
        magIdx := magIdx + cnt;
      }
    }
  }

  lemma MagStart(cc: Tables, subfr: seq<nat>, runs: seq<nat>)
    ensures Start(subfr, 0) == 0 && WfRuns(cc, subfr, runs, 0) && MagSyms(cc, subfr, runs, 0) == []
    ensures AllSpots(subfr, runs, 0) == Spots([], [])
  {
  }

  lemma MagStep(cc: Tables, subfr: seq<nat>, runs: seq<nat>, sf: nat)
    requires sf < |subfr| && WfRuns(cc, subfr, runs, |subfr|)
    ensures Start(subfr, sf + 1) == Start(subfr, sf) + subfr[sf] <= |runs|
    ensures WfRuns(cc, subfr, runs, sf) && WfRuns(cc, subfr, runs, sf + 1)
    ensures var own := runs[Start(subfr, sf)..Start(subfr, sf) + subfr[sf]];
            && Admissible(RunModel(cc, subfr[sf]), own)
            && MagSyms(cc, subfr, runs, sf + 1)
               == MagSyms(cc, subfr, runs, sf) + AdaptiveSyms(RunModel(cc, subfr[sf]), own)
            && (subfr[sf] == 0 ==> AdaptiveSyms(RunModel(cc, subfr[sf]), own) == [])
  {
    hide Admissible, RunModel, Sum;
    StartMono(subfr, sf, |subfr|);
    StartMono(subfr, sf + 1, |subfr|);
    StartStep(subfr, sf);
    assert Admissible(RunModel(cc, subfr[sf]), RunsOf(subfr, runs, sf));
  }

  lemma SliceKept<T>(x: seq<T>, y: seq<T>, a: nat, e: nat)
    requires a <= e <= |x|
    ensures (x + y)[a..e] == x[a..e]
  {
  }

  /** Growing the list of run lengths by a subframe leaves the earlier ones alone. */
  lemma {:induction false} RunsKept(cc: Tables, subfr: seq<nat>, runs: seq<nat>, more: seq<nat>, i: nat)
    requires i <= |subfr| && WfRuns(cc, subfr, runs, i)
    ensures WfRuns(cc, subfr, runs + more, i)
    ensures MagSyms(cc, subfr, runs + more, i) == MagSyms(cc, subfr, runs, i)
    ensures AllSpots(subfr, runs + more, i) == AllSpots(subfr, runs, i)
  {
    hide Admissible, RunModel, Sum, AdaptiveSyms, Walk;
    forall k | 0 <= k < i
      ensures Start(subfr, k + 1) <= |runs|
      ensures RunsOf(subfr, runs + more, k) == RunsOf(subfr, runs, k)
    {
      StartMono(subfr, k + 1, i);
      StartStep(subfr, k);
      SliceKept(runs, more, Start(subfr, k), Start(subfr, k + 1));
    }
    if i > 0 {
      StartMono(subfr, i - 1, i);
      RunsKept(cc, subfr, runs, more, i - 1);
    }
  }

  lemma RunsGrow(cc: Tables, subfr: seq<nat>, runs: seq<nat>, more: seq<nat>, i: nat)
    requires i < |subfr| && WfRuns(cc, subfr, runs, i)
    requires |runs| == Start(subfr, i) && |more| == subfr[i] && Admissible(RunModel(cc, subfr[i]), more)
    ensures |runs + more| == Start(subfr, i + 1) && WfRuns(cc, subfr, runs + more, i + 1)
    ensures MagSyms(cc, subfr, runs + more, i + 1)
         == MagSyms(cc, subfr, runs, i) + AdaptiveSyms(RunModel(cc, subfr[i]), more)
    ensures var a, w := AllSpots(subfr, runs, i), Walk(SUBFR_LEN * i, more);
            AllSpots(subfr, runs + more, i + 1) == Spots(a.pos + w.pos, a.mag + w.mag)
  {
    hide Admissible, RunModel, Sum, AdaptiveSyms, Walk;
    StartStep(subfr, i);
    RunsKept(cc, subfr, runs, more, i);
    assert RunsOf(subfr, runs + more, i) == more;
    forall k | 0 <= k < i + 1
      ensures Start(subfr, k + 1) <= |runs + more|
      ensures Admissible(RunModel(cc, subfr[k]), RunsOf(subfr, runs + more, k))
    {
      StartMono(subfr, k + 1, i + 1);
    }
  }

  /** The magnitude block: positions and magnitudes as the run lengths name them. */
  method DecodeMagnitudes(dec: RangeDecoder, cc: Tables, split: seq<nat>)
    returns (magRuns: seq<nat>, posList: seq<nat>, magList: seq<nat>)
    requires dec.Valid() && RunsSized(cc) && |split| == SUBFRAMES
    requires forall i :: 0 <= i < SUBFRAMES ==> split[i] <= MAX_PULSES
    modifies dec
    ensures dec.Valid() && dec.err == old(dec.err)
    ensures |magRuns| == Start(split, SUBFRAMES) && WfRuns(cc, split, magRuns, SUBFRAMES)
    ensures dec.At() == Run(old(dec.At()), MagSyms(cc, split, magRuns, SUBFRAMES))
    ensures Spots(posList, magList) == AllSpots(split, magRuns, SUBFRAMES)
  {
    hide RangeDecoder.Valid, RangeDecoder.At, AdaptiveSyms, Admissible, RunModel, RunsSized;
    hide Sum, Walk, Run, Step, Start, AllSpots, MagSyms, WfRuns;
    ghost var iv := dec.At();
    magRuns, posList, magList := [], [], [];
    MagStart(cc, split, magRuns);
    RunOne(iv, Sym(0, 1, 1));
    for sf := 0 to SUBFRAMES
      invariant |magRuns| == Start(split, sf) && WfRuns(cc, split, magRuns, sf)
      invariant dec.Valid() && dec.err == old(dec.err)
      invariant dec.At() == Run(iv, MagSyms(cc, split, magRuns, sf))
      invariant Spots(posList, magList) == AllSpots(split, magRuns, sf) && |posList| == |magList|
    {
      var cnt := split[sf];
      ghost var prev := magRuns;
      ghost var syms := MagSyms(cc, split, prev, sf);
      if cnt <= 0 {
        SubframeOfNone(cc, split, magRuns, sf);
      } else {
        var runs: seq<nat>;
        runs, posList, magList := DecodeRuns(dec, cc, cnt, SUBFR_LEN * sf, Spots(posList, magList));
        RunsGrow(cc, split, prev, runs, sf);
        RunAppend(iv, syms, AdaptiveSyms(RunModel(cc, cnt), runs));
        magRuns := magRuns + runs;
      }
    }
  }

  lemma SubframeOfNone(cc: Tables, subfr: seq<nat>, runs: seq<nat>, i: nat)
    requires i < |subfr| && subfr[i] == 0 && |runs| == Start(subfr, i) && WfRuns(cc, subfr, runs, i)
    ensures |runs| == Start(subfr, i + 1) && WfRuns(cc, subfr, runs, i + 1)
    ensures MagSyms(cc, subfr, runs, i + 1) == MagSyms(cc, subfr, runs, i)
    ensures AllSpots(subfr, runs, i + 1) == AllSpots(subfr, runs, i)
  {
    RunsEmpty(cc, 0);
    RunsGrow(cc, subfr, runs, [], i);
    assert runs + [] == runs;
  }
}
