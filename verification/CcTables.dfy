/** The gain, filter and pulse tables of the codec, and how they are looked up. */
module CcTables {
  import opened RangeSpec
  import opened FixedPoint
  import opened CdfTables

  const MAX_PULSES := 40          // per subframe
  const SPLIT_TABLES := 159
  const RUNLEN_TABLES := 20
  const RUNLEN_STEP := 8
  const OFFSET_STEPS := 176
  const OFFSET_BUCKETS := 4
  const LTP_GAINS := 16
  const FILTERS := 34

  datatype RunlenCmfs = RunlenCmfs(maxSamples: nat, cmfs: seq<Cdf>)

  datatype Tables = Tables(
    gain4: Cdf, shape4: Cdf, fcbgOffset: seq<Cdf>, acbgains: seq<nat>,
    fcbgainsV: Cdf, fcbgainsVDelta: Cdf, acbWeights: seq<I16>, acbgainsLr: seq<nat>, acbWeightsLr: seq<I16>,
    gainRecon: seq<I16>, gainReconBase: nat, nPulse: seq<Cdf>, splitCmfs: seq<Cdf>, runlen: seq<RunlenCmfs>)
  {
    ghost predicate Wf() {
      && |gain4| <= CDF_MAX + 1 && |shape4| <= CDF_MAX + 1
      && |fcbgOffset| >= 12 && (forall i :: 0 <= i < |fcbgOffset| ==> |fcbgOffset[i]| == OFFSET_STEPS + 1)
      && GainRows(acbgains) && GainRows(acbgainsLr) && |acbWeights| == |acbWeightsLr| == 2 * LTP_GAINS
      && |fcbgainsV| == FILTERS + 1 && |fcbgainsVDelta| == 2 * FILTERS
      && |nPulse| == 3
      && |splitCmfs| == SPLIT_TABLES
      && (forall i :: 0 <= i < SPLIT_TABLES ==> |splitCmfs[i]| == SplitSize(i + 1))
      && |runlen| == RUNLEN_TABLES
      && (forall i :: 0 <= i < RUNLEN_TABLES ==> RunlenFits(runlen[i], (i + 1) * RUNLEN_STEP))
    }

    /** The tables as a frame of the given rate sees them: the low rate has its own gains and
        weights of the long-term prediction. */
    function For(config: nat): Tables {
      if config == 0 then this else this.(acbgains := acbgainsLr, acbWeights := acbWeightsLr)
    }

    lemma ForWf(config: nat)
      requires Wf()
      ensures For(config).Wf()
    {
    }

    /** Nothing can be read where no table is stored. */
    function SplitCmf(total: nat): Cdf {
      if 1 <= total <= |splitCmfs| then splitCmfs[total - 1] else NO_TABLE
    }

    function HalfCdf(count: nat): Cdf {
      var lo := Excess(count, MAX_PULSES);
      Window(SplitCmf(count), lo, count - 2 * lo + 2)
    }

    /** The run-length table for c pulses in the last pos samples of a subframe. */
    function RunCdf(pos: int, c: int): Cdf {
      var oct := (pos + 7) / 8;
      if 1 <= oct <= |runlen| && 1 <= c <= |runlen[oct - 1].cmfs| then
        Window(runlen[oct - 1].cmfs[c - 1], runlen[oct - 1].maxSamples - pos, pos + 1)
      else NO_TABLE
    }

    lemma SplitSizes(total: nat)
      requires Wf() && 1 <= total <= SPLIT_TABLES
      ensures |SplitCmf(total)| == SplitSize(total)
      ensures total < 80 ==> |HalfCdf(total)| == total - 2 * Excess(total, MAX_PULSES) + 2
      ensures var excess := Excess(total, MAX_PULSES);
              total < 80 ==> HalfCdf(total) == SplitCmf(total)[excess..total - excess + 2]
    {
    }

    /** Every run-length window the decoder asks for lies inside its table. */
    lemma RunSizes(pos: nat, c: nat)
      requires Wf() && 1 <= pos <= 8 * RUNLEN_TABLES && 1 <= c <= MAX_PULSES
      ensures |RunCdf(pos, c)| == pos + 1
      ensures RunCdf(pos, c) == CdfWindowOf(runlen[(pos + 7) / 8 - 1].cmfs[c - 1],
                                            runlen[(pos + 7) / 8 - 1].maxSamples - pos, pos + 1)
    {
      var bucket := runlen[(pos + 7) / 8 - 1];
      assert RunlenFits(bucket, (pos + 7) / 8 * 8);
      WindowInside(bucket.cmfs[c - 1], bucket.maxSamples - pos, pos + 1);
    }

    /** The window of offset table (tableIx, bucket) that starts at minOffset. */
    function FcbgOffset(tableIx: nat, bucket: nat, minOffset: nat): (r: Cdf)
      requires Wf() && tableIx <= 2 && bucket < OFFSET_BUCKETS && minOffset <= 85
      ensures |r| == 92
    {
      var row := fcbgOffset[tableIx * OFFSET_BUCKETS + bucket];
      CdfWindow(row, minOffset, 92);
      row[minOffset..minOffset + 92]
    }

    function AcbgainRow(prev: int): (r: Cdf)
      requires Wf() && -1 <= prev < LTP_GAINS
      ensures |r| == LTP_GAINS + 1
    {
      Row(acbgains, prev + 1)
    }

    function AcbgainWeights(gi: nat): (I16, I16)
      requires Wf() && gi < LTP_GAINS
    {
      (acbWeights[gi * 2], acbWeights[gi * 2 + 1])
    }

    function FcbgainVDelta(prevFilt: nat): (r: Cdf)
      requires Wf() && prevFilt < FILTERS
      ensures |r| == FILTERS + 1
    {
      CdfWindow(fcbgainsVDelta, FILTERS - 1 - prevFilt, FILTERS + 1);
      fcbgainsVDelta[FILTERS - 1 - prevFilt..2 * FILTERS - prevFilt]
    }

    /** Reads outside the stored window yield zero. */
    function GainReconAt(addr: int): I16 {
      var off := (addr - gainReconBase) % 0x1_0000_0000;
      if off % 2 == 0 && off / 2 < |gainRecon| then gainRecon[off / 2] else 0
    }

    function NrgStep(cfg: nat): I16 {
      GainReconAt(gainReconBase + cfg * 2)
    }

    function GainRecon(idx: nat): I16 {
      GainReconAt(0xf35f0 + idx * 2)
    }

    /** The words the gains are made of: word cfg of the stored window is the step, and those of the
        shapes start at the shapes' own address. */
    lemma GainWords(cfg: nat, idx: nat)
      requires cfg < |gainRecon| <= 0x1_0000 && gainReconBase % 2 == 0 && gainReconBase <= 0xf35f0
      requires (0xf35f0 - gainReconBase) / 2 + idx < |gainRecon|
      ensures NrgStep(cfg) == gainRecon[cfg]
      ensures GainRecon(idx) == gainRecon[(0xf35f0 - gainReconBase) / 2 + idx]
    {
    }
  }

  /** Rows laid end to end, each of them a table. */
  ghost predicate GainRows(flat: seq<nat>) {
    && |flat| == (LTP_GAINS + 1) * (LTP_GAINS + 1)
    && forall r :: 0 <= r <= LTP_GAINS ==> IsCdf(Row(flat, r))
  }

  function Row(flat: seq<nat>, r: nat): (s: seq<nat>)
    requires |flat| == (LTP_GAINS + 1) * (LTP_GAINS + 1) && r <= LTP_GAINS
    ensures |s| == LTP_GAINS + 1
  {
    flat[r * (LTP_GAINS + 1)..(r + 1) * (LTP_GAINS + 1)]
  }

  ghost predicate RunlenFits(r: RunlenCmfs, samples: nat) {
    && r.maxSamples == samples && |r.cmfs| == MAX_PULSES
    && forall c :: 0 <= c < MAX_PULSES ==> |r.cmfs[c]| == samples + 1
  }

  /** n entries of base from start on, provided they are there. */
  function Window(base: Cdf, start: int, n: int): Cdf {
    if 0 <= start && 2 <= n && start + n <= |base| then
      CdfWindow(base, start, n);
      base[start..start + n]
    else NO_TABLE
  }

  /** Inside the table this is the zero-filling window of the decoder. */
  lemma WindowInside(base: Cdf, start: nat, n: nat)
    requires 2 <= n && start + n <= |base|
    ensures Window(base, start, n) == base[start..start + n] == CdfWindowOf(base, start, n)
  {
    assert CdfWindowOf(base, start, n) == base[start..start + n];
  }

  function Excess(n: nat, cap: nat): nat {
    if n > cap then n - cap else 0
  }

  /** Entries of the table that splits n pulses over two halves of at most 80. */
  function SplitSize(n: nat): (r: nat)
    requires n <= SPLIT_TABLES
    ensures r >= 2
  {
    var minSplit := if n > 80 then n - 80 else 0;
    n - 2 * minSplit + 2
  }
}
