/** The tables of the codec from their seed: packed tables are expanded, the split and run-length
    tables computed.  The seed's contents are parameters; only their lengths are fixed. */
module CcBuild {
  import opened RangeSpec
  import opened FixedPoint
  import opened CdfTables
  import opened CcTables
  import opened PulseWeights
  import opened RunWeights

  datatype Seed = Seed(
    gain4: seq<Byte>, shape4: seq<Byte>, fcbgOffset: seq<Byte>, acbgains: seq<Byte>, acbgainsLr: seq<Byte>,
    fcbgainsV: seq<Byte>, fcbgainsVDelta: seq<Byte>, acbWeights: seq<I16>, acbWeightsLr: seq<I16>,
    gainRecon: seq<Byte>, gainReconBase: nat, nPulses: seq<seq<Byte>>)
  {
    ghost predicate Wf() {
      && 0 < |gain4| <= CDF_MAX && 0 < |shape4| <= CDF_MAX
      && |fcbgOffset| / OFFSET_STEPS >= 12
      && |acbgains| == |acbgainsLr| == (LTP_GAINS + 1) * LTP_GAINS
      && |fcbgainsV| == FILTERS && |fcbgainsVDelta| == 2 * FILTERS - 1
      && |acbWeights| == |acbWeightsLr| == 2 * LTP_GAINS
      && |nPulses| == 3 && (forall i :: 0 <= i < 3 ==> 0 < |nPulses[i]| <= CDF_MAX)
    }
  }

  /** One table for every complete chunk of step deltas. */
  function Chunks(b: seq<Byte>, step: nat): (r: seq<Cdf>)
    requires 0 < step <= CDF_MAX
    ensures forall i :: 0 <= i < |r| ==> |r[i]| == step + 1
    decreases |b|
  {
    if |b| < step then [] else [Table(b[..step])] + Chunks(b[step..], step)
  }

  lemma {:induction false} ChunkCount(b: seq<Byte>, step: nat, n: nat)
    requires 0 < step <= CDF_MAX && n * step <= |b| < (n + 1) * step
    ensures |Chunks(b, step)| == n
    decreases |b|
  {
    if n == 0 {
    } else {
      assert n * step == (n - 1) * step + step;
      ChunkCount(b[step..], step, n - 1);
    }
  }

  /** The rows of the long-term gain tables, laid end to end. */
  function Flatten(rows: seq<Cdf>): (r: seq<nat>)
    requires forall i :: 0 <= i < |rows| ==> |rows[i]| == LTP_GAINS + 1
    ensures |r| == |rows| * (LTP_GAINS + 1)
  {
    if rows == [] then [] else rows[0] + Flatten(rows[1..])
  }

  lemma {:induction false} FlattenRow(rows: seq<Cdf>, i: nat)
    requires forall k :: 0 <= k < |rows| ==> |rows[k]| == LTP_GAINS + 1
    requires i < |rows|
    ensures Flatten(rows)[i * (LTP_GAINS + 1)..(i + 1) * (LTP_GAINS + 1)] == rows[i]
  {
    if i > 0 {
      FlattenRow(rows[1..], i - 1);
      var f := Flatten(rows[1..]);
      assert Flatten(rows) == rows[0] + f;
      assert Flatten(rows)[i * (LTP_GAINS + 1)..(i + 1) * (LTP_GAINS + 1)]
          == f[(i - 1) * (LTP_GAINS + 1)..i * (LTP_GAINS + 1)];
    }
  }

  /** Pairs of bytes as signed numbers, the low byte first. */
  function Words16(b: seq<Byte>): (r: seq<I16>)
    ensures |r| == |b| / 2
  {
    seq(|b| / 2, i requires 0 <= i < |b| / 2 => Signed16(b[2 * i], b[2 * i + 1]))
  }

  function Signed16(low: nat, high: nat): I16
    requires low < 256 && high < 256
  {
    var u := low + 256 * high;
    if u < 0x8000 then u else u - 0x1_0000
  }

  function Build(s: Seed): Tables
    requires s.Wf()
  {
    Tables(
      Table(s.gain4), Table(s.shape4), Chunks(s.fcbgOffset, OFFSET_STEPS),
      Flatten(Chunks(s.acbgains, LTP_GAINS)), Table(s.fcbgainsV), Table(s.fcbgainsVDelta),
      s.acbWeights, Flatten(Chunks(s.acbgainsLr, LTP_GAINS)), s.acbWeightsLr, Words16(s.gainRecon), s.gainReconBase,
      [Table(s.nPulses[0]), Table(s.nPulses[1]), Table(s.nPulses[2])],
      seq(SPLIT_TABLES, i requires 0 <= i < SPLIT_TABLES => SplitTable(i + 1)),
      seq(RUNLEN_TABLES, i requires 0 <= i < RUNLEN_TABLES => RunlenOf((i + 1) * RUNLEN_STEP)))
  }

  /** Every table the decoder can index after a build gives each symbol a width. */
  lemma BuildIsWf(s: Seed)
    requires s.Wf()
    ensures Build(s).Wf()
  {
    hide Table, SplitTable, RunlenOf, Chunks, Words16, GainRows, Flatten;
    ChunkCount(s.fcbgOffset, OFFSET_STEPS, |s.fcbgOffset| / OFFSET_STEPS);
    RowsAreTables(s.acbgains);
    RowsAreTables(s.acbgainsLr);
  }

  /** Table k is that of the k-th chunk. */
  lemma {:induction false} ChunkAt(b: seq<Byte>, step: nat, k: nat)
    requires 0 < step <= CDF_MAX && (k + 1) * step <= |b|
    ensures 0 <= k * step && k < |Chunks(b, step)| && Chunks(b, step)[k] == DcmfCdf(b[k * step..k * step + step])
    decreases k
  {
    hide DcmfCdf;
    ChunkRoom(step, k);
    if k > 0 {
      ChunkRoom(step, k - 1);
      ChunkAt(b[step..], step, k - 1);
      LaterChunk(b, step, (k - 1) * step);
    }
  }

  lemma ChunkRoom(step: nat, k: nat)
    ensures 0 <= k * step && (k + 1) * step == k * step + step
  {
  }

  lemma LaterChunk(b: seq<Byte>, step: nat, at: nat)
    requires at + step + step <= |b|
    ensures b[step..][at..at + step] == b[at + step..at + step + step]
  {
  }

  /** Two bytes are a number in two's complement, the low byte first. */
  lemma TwosComplement(b: seq<Byte>, i: nat)
    requires 2 * i + 1 < |b|
    ensures Words16(b)[i] as int % 0x1_0000 == 256 * b[2 * i + 1] as int + b[2 * i]
  {
  }

  /** Every table comes from its own part of the seed. */
  lemma BuiltFrom(s: Seed)
    requires s.Wf()
    ensures var t := Build(s);
            && t.gain4 == DcmfCdf(s.gain4) && t.shape4 == DcmfCdf(s.shape4)
            && t.fcbgainsV == DcmfCdf(s.fcbgainsV) && t.fcbgainsVDelta == DcmfCdf(s.fcbgainsVDelta)
            && t.acbWeights == s.acbWeights && t.acbWeightsLr == s.acbWeightsLr && t.gainReconBase == s.gainReconBase
            && t.gainRecon == Words16(s.gainRecon)
            && forall i :: 0 <= i < 3 ==> t.nPulse[i] == DcmfCdf(s.nPulses[i])
    ensures forall n :: 1 <= n <= SPLIT_TABLES ==>
              Sum(SplitPdf(n)) > 0 && Build(s).splitCmfs[n - 1] == PdfCdf(SplitPdf(n))
    ensures forall i :: 0 <= i < RUNLEN_TABLES ==> Build(s).runlen[i] == RunlenOf(8 * i + 8)
  {
    hide DcmfCdf, PdfCdf, Sum, RunlenOf, SplitPdf, Words16, Chunks, Flatten;
    forall n | 1 <= n <= SPLIT_TABLES
      ensures Sum(SplitPdf(n)) > 0 && Build(s).splitCmfs[n - 1] == PdfCdf(SplitPdf(n))
    {
      SplitPdfWeighs(n);
    }
  }

  /** Row r of the offsets and of the gains of either rate is that of the r-th chunk of its deltas. */
  lemma BuiltRows(s: Seed, r: nat)
    requires s.Wf()
    ensures r < 12 ==> r < |Build(s).fcbgOffset|
                       && Build(s).fcbgOffset[r] == DcmfCdf(s.fcbgOffset[176 * r..176 * r + 176])
    ensures r <= LTP_GAINS ==>
              && |Build(s).acbgains| == |Build(s).acbgainsLr| == 289
              && Build(s).acbgains[17 * r..17 * r + 17] == DcmfCdf(s.acbgains[16 * r..16 * r + 16])
              && Build(s).acbgainsLr[17 * r..17 * r + 17] == DcmfCdf(s.acbgainsLr[16 * r..16 * r + 16])
  {
    hide DcmfCdf, Chunks, Flatten, SplitTable, RunlenOf, Words16, Table;
    if r < 12 {
      ChunkAt(s.fcbgOffset, OFFSET_STEPS, r);
    }
    if r <= LTP_GAINS {
      GainRowIs(s.acbgains, r);
      GainRowIs(s.acbgainsLr, r);
    }
  }

  lemma GainRowIs(b: seq<Byte>, r: nat)
    requires |b| == (LTP_GAINS + 1) * LTP_GAINS && r <= LTP_GAINS
    ensures |Flatten(Chunks(b, LTP_GAINS))| == 289
    ensures Flatten(Chunks(b, LTP_GAINS))[17 * r..17 * r + 17] == DcmfCdf(b[16 * r..16 * r + 16])
  {
    hide DcmfCdf, Chunks, Flatten, Table;
    ChunkCount(b, LTP_GAINS, LTP_GAINS + 1);
    ChunkAt(b, LTP_GAINS, r);
    FlattenRow(Chunks(b, LTP_GAINS), r);
  }

  lemma RowsAreTables(b: seq<Byte>)
    requires |b| == (LTP_GAINS + 1) * LTP_GAINS
    ensures GainRows(Flatten(Chunks(b, LTP_GAINS)))
  {
    var rows := Chunks(b, LTP_GAINS);
    ChunkCount(b, LTP_GAINS, LTP_GAINS + 1);
    var flat := Flatten(rows);
    forall r | 0 <= r <= LTP_GAINS ensures IsCdf(Row(flat, r)) {
      FlattenRow(rows, r);
    }
  }

  // ---- the loops ----

  method CcDcmf(dcmf: seq<Byte>) returns (c: seq<nat>)
    requires 0 < |dcmf| <= CDF_MAX
    ensures c == Table(dcmf)
  {
    var cmf := new U16[|dcmf| + 1](_ => 0);
    CelpDcmfToCmf(dcmf, cmf);
    c := cmf[..];
  }

  method CcDcmfChunks(b: seq<Byte>, step: nat) returns (out: seq<Cdf>)
    requires 0 < step <= CDF_MAX
    ensures out == Chunks(b, step)
  {
    hide Table;
    out := [];
    var i := 0;
    assert b[0..] == b;
    while i + step <= |b|
      invariant i <= |b| && Chunks(b, step) == out + Chunks(b[i..], step)
    {
      assert b[i..][..step] == b[i..i + step] && b[i..][step..] == b[i + step..];
      var row := CcDcmf(b[i..i + step]);
      out := out + [row];
      i := i + step;
    }
  }

  /** The rows of the long-term gains, appended to each other. */
  method GainTable(b: seq<Byte>) returns (flat: seq<nat>)
    ensures flat == Flatten(Chunks(b, LTP_GAINS))
  {
    hide Table;
    flat := [];
    var i := 0;
    assert b[0..] == b;
    while i + LTP_GAINS <= |b|
      invariant i <= |b| && Flatten(Chunks(b, LTP_GAINS)) == flat + Flatten(Chunks(b[i..], LTP_GAINS))
    {
      assert b[i..][..LTP_GAINS] == b[i..i + LTP_GAINS] && b[i..][LTP_GAINS..] == b[i + LTP_GAINS..];
      var row := CcDcmf(b[i..i + LTP_GAINS]);
      FlattenCons(Table(b[i..i + LTP_GAINS]), Chunks(b[i + LTP_GAINS..], LTP_GAINS));
      flat := flat + row;
      i := i + LTP_GAINS;
    }
  }

  lemma FlattenCons(row: Cdf, rows: seq<Cdf>)
    requires |row| == LTP_GAINS + 1 && forall i :: 0 <= i < |rows| ==> |rows[i]| == LTP_GAINS + 1
    ensures Flatten([row] + rows) == row + Flatten(rows)
  {
    assert ([row] + rows)[1..] == rows;
  }

  method GainReconWords(b: seq<Byte>) returns (out: seq<I16>)
    ensures out == Words16(b)
  {
    out := [];
    var i := 0;
    while i + 1 < |b|
      invariant i == 2 * |out| && i <= |b| && out == Words16(b)[..|out|]
    {
      out := out + [Signed16(b[i], b[i + 1])];
      i := i + 2;
    }
  }

  method RunlenTables() returns (runlen: seq<RunlenCmfs>)
    ensures |runlen| == RUNLEN_TABLES
    ensures forall i :: 0 <= i < RUNLEN_TABLES ==> runlen[i] == RunlenOf((i + 1) * RUNLEN_STEP)
  {
    hide RunlenOf;
    runlen := [];
    for oct := 1 to RUNLEN_TABLES + 1
      invariant |runlen| == oct - 1
      invariant forall i :: 0 <= i < |runlen| ==> runlen[i] == RunlenOf((i + 1) * RUNLEN_STEP)
    {
      var r := CreateRunlenTable(oct * RUNLEN_STEP);
      runlen := runlen + [r];
    }
  }

  method BuildTables(s: Seed) returns (t: Tables)
    requires s.Wf()
    ensures t == Build(s) && t.Wf()
  {
    hide Table, RunlenOf, SplitTable, Chunks, Flatten, Words16, Tables.Wf;
    var gain4 := CcDcmf(s.gain4);
    var shape4 := CcDcmf(s.shape4);
    var fcbgOffset := CcDcmfChunks(s.fcbgOffset, OFFSET_STEPS);
    var fcbgainsV := CcDcmf(s.fcbgainsV);
    var fcbgainsVDelta := CcDcmf(s.fcbgainsVDelta);
    var acbgains := GainTable(s.acbgains);
    var acbgainsLr := GainTable(s.acbgainsLr);
    var gainRecon := GainReconWords(s.gainRecon);
    var bgn := CcDcmf(s.nPulses[0]);
    var uv := CcDcmf(s.nPulses[1]);
    var v := CcDcmf(s.nPulses[2]);
    var splitCmfs := CreateSplitCmfs();
    var runlen := RunlenTables();
    t := Tables(gain4, shape4, fcbgOffset, acbgains, fcbgainsV, fcbgainsVDelta, s.acbWeights, acbgainsLr,
                s.acbWeightsLr, gainRecon, s.gainReconBase, [bgn, uv, v], splitCmfs, runlen);
    BuildIsWf(s);
  }
}
