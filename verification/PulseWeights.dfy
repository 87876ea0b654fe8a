/** The weights behind the split tables, in integer arithmetic.  No quotient has a zero divisor, no
    weight is negative, and every table has weight. */
module PulseWeights {
  import opened Arithmetic
  import opened FixedPoint
  import opened RangeSpec
  import opened CdfTables
  import opened CcTables
  import opened Factorials

  const ONE_Q30 := 0x4000_0000

  // ---- odds ----

  /** About the logarithm of the odds of k pulses of n in one half. */
  function SplitLog(k: nat, n: nat): I32
    requires k <= n <= SPLIT_TABLES
  {
    Stirling(n) - Stirling(k) - Stirling(n - k) - n * 0x8000
  }

  function ProbSplit(k: nat, n: nat): (r: nat)
    requires k <= n <= SPLIT_TABLES
    ensures r <= ONE_Q30
  {
    var tmp := SplitLog(k, n);
    SplitLogNegative(k, n);
    if tmp == 0 then ONE_Q30
    else
      Share(Log2Lin(-tmp / 256));
      ONE_Q30 / Log2Lin(-tmp / 256)
  }

  lemma Share(d: int)
    requires d >= 1
    ensures 0 <= ONE_Q30 / d <= ONE_Q30 && (d <= ONE_Q30 ==> ONE_Q30 / d >= 1)
  {
  }

  /** The odds of a split are at most even, all errors included. */
  lemma SplitLogNegative(k: nat, n: nat)
    requires k <= n <= SPLIT_TABLES
    ensures SplitLog(k, n) <= 0
  {
    hide *;
    SplitLogParts(k, n);
    CupIsConvex(k, n - k);
  }

  /** Those of an even split are better than one in 2^30. */
  lemma EvenSplit(n: nat)
    requires 1 <= n <= SPLIT_TABLES
    ensures SplitLog(n / 2, n) >= -0xE_0000
  {
    assert SPLIT_TABLES == MOST;
    hide *;
    Halves(n);
    SplitLogParts(n / 2, n);
    CupIsTight(n);
  }

  lemma SplitLogParts(k: nat, n: nat)
    requires k <= n <= SPLIT_TABLES
    ensures n > 0 ==> SplitLog(k, n) <= Cup(n, 2) - Cup(k, 1) - Cup(n - k, 1)
    ensures 0 < k < n ==> SplitLog(k, n) >= Cup(n, 1) - Cup(k, 2) - Cup(n - k, 2) - 2 * n * 0x8000
    ensures k == 0 ==> SplitLog(k, n) + n * 0x8000 == 0
  {
    hide Cup, Stirling;
    NoPulses();
    StirlingCupped(n);
    StirlingCupped(k);
    StirlingCupped(n - k);
  }

  lemma NoPulses()
    ensures Stirling(0) == 0
  {
  }

  lemma Halves(n: nat)
    ensures 0 <= n / 2 <= n && (n >= 2 ==> 0 < n / 2 < n) && (n == 1 ==> n / 2 == 0)
  {
  }

  /** That a half gets nothing is weighted by the odds of as many tosses, and so is that it gets all: one in
      2^n, exactly. */
  lemma AllInOneHalf(n: nat)
    requires 1 <= n <= 30
    ensures ProbSplit(0, n) == ProbSplit(n, n) == Pow2(30 - n)
  {
    hide *;
    NoneLog(n);
    AntilogLaw(128 * n);
    Octaves(n);
    Pow2Sum(n, 30 - n);
    Thirtieth();
    WholeShare(Pow2(n), Pow2(30 - n));
  }

  lemma NoneLog(n: nat)
    requires 1 <= n <= 30
    ensures n <= SPLIT_TABLES && Log2Lin(128 * n) != 0
    ensures ProbSplit(0, n) == ProbSplit(n, n) == ONE_Q30 / Log2Lin(128 * n)
  {
    hide Stirling, Log2Lin;
    NoPulses();
    assert SplitLog(0, n) == SplitLog(n, n) == -(n * 0x8000);
    EighthBits(n);
    hide SplitLog;
  }

  lemma EighthBits(n: nat)
    ensures n * 0x8000 / 256 == 128 * n
  {
  }

  lemma Octaves(n: nat)
    ensures 128 * n / 128 == n && 128 * n % 128 == 0
  {
  }

  lemma Thirtieth()
    ensures Pow2(30) == ONE_Q30
  {
    PowHigh();
  }

  lemma WholeShare(a: nat, b: nat)
    requires a >= 1 && a * b == ONE_Q30
    ensures ONE_Q30 / a == b
  {
    var q := ONE_Q30 / a;
    assert a * q <= a * b < a * (q + 1);
    if q < b { Ordered(a, q + 1, b); }
    if b < q { Ordered(a, b + 1, q); }
  }

  // ---- tables ----

  /** The weights of the splits that leave neither half more than it can hold. */
  function SplitPdf(n: nat): (p: seq<nat>)
    requires 1 <= n <= SPLIT_TABLES
    ensures |p| == SplitSize(n) - 1
  {
    var least := Excess(n, 2 * MAX_PULSES);
    seq<nat>(n - 2 * least + 1, i requires 0 <= i < n - 2 * least + 1 => ProbSplit(least + i, n))
  }

  lemma SplitPdfWeighs(n: nat)
    requires 1 <= n <= SPLIT_TABLES
    ensures Sum(SplitPdf(n)) > 0
  {
    hide ProbSplit, Sum;
    EvenWeighs(n);
    Halves(n);
    SumPositive(SplitPdf(n), n / 2 - Excess(n, 2 * MAX_PULSES));
  }

  lemma EvenWeighs(n: nat)
    requires 1 <= n <= SPLIT_TABLES
    ensures ProbSplit(n / 2, n) >= 1
  {
    hide SplitLog, Log2Lin;
    EvenSplit(n);
    Halves(n);
    SplitLogNegative(n / 2, n);
    var x := -SplitLog(n / 2, n) / 256;
    assert 0 <= x <= 3839;
    Share(Log2Lin(x));
  }

  /** The table that divides n pulses over two halves. */
  function SplitTable(n: nat): (c: Cdf)
    requires 1 <= n <= SPLIT_TABLES
    ensures |c| == SplitSize(n)
  {
    SplitPdfWeighs(n);
    PdfTable(SplitPdf(n))
  }

  /** The tables of all totals. */
  method CreateSplitCmfs() returns (out: seq<seq<nat>>)
    ensures |out| == SPLIT_TABLES && forall i :: 0 <= i < SPLIT_TABLES ==> out[i] == SplitTable(i + 1)
  {
    out := [];
    for numPulses := 1 to SPLIT_TABLES + 1
      invariant |out| == numPulses - 1 && forall i :: 0 <= i < |out| ==> out[i] == SplitTable(i + 1)
    {
      var cmf := CreateSplitCmf(numPulses);
      out := out + [cmf];
    }
  }

  method CreateSplitCmf(numPulses: nat) returns (cmf: seq<nat>)
    requires 1 <= numPulses <= SPLIT_TABLES
    ensures cmf == SplitTable(numPulses)
  {
    hide PdfCdf, Sum, ProbSplit;
    var minSplit := if numPulses > 2 * MAX_PULSES then numPulses - 2 * MAX_PULSES else 0;
    var maxSplit := numPulses - minSplit;
    var p: seq<nat> := [];
    for k := minSplit to maxSplit + 1
      invariant p == SplitPdf(numPulses)[..k - minSplit]
    {
      p := p + [ProbSplit(k, numPulses)];
    }
    assert p == SplitPdf(numPulses);
    SplitPdfWeighs(numPulses);
    var table := PdfToCmf(p);
    cmf := table[..];
  }
}
