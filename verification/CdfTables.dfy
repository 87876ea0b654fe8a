/** Expansion of packed probability tables into cumulative tables: the three DCMF
    expanders and the PDF normalizer all compute Expand, whose result gives every
    symbol a positive width and keeps the total within 32767. */
module CdfTables {
  import opened RangeSpec
  import opened FixedPoint

  type U16 = x: int | 0 <= x < 0x1_0000

  const CDF_MAX := 32767

  function Sum(w: seq<nat>): nat {
    if w == [] then 0 else Sum(w[..|w| - 1]) + w[|w| - 1]
  }

  lemma {:induction false} SumPositive(w: seq<nat>, i: nat)
    requires i < |w| && w[i] > 0
    ensures Sum(w) > 0
  {
    if i < |w| - 1 {
      SumPositive(w[..|w| - 1], i);
    }
  }

  /** Cumulative counts: each weight is scaled by k/s, truncated, and raised by one. */
  function Expand(w: seq<nat>, k: nat, s: nat): (c: seq<nat>)
    requires s > 0
    ensures |c| == |w| + 1
  {
    if w == [] then [0]
    else
      var c := Expand(w[..|w| - 1], k, s);
      c + [c[|w| - 1] + w[|w| - 1] * k / s + 1]
  }

  lemma {:induction false} ExpandPrefix(w: seq<nat>, k: nat, s: nat, i: nat)
    requires s > 0 && i <= |w|
    ensures Expand(w, k, s)[..i + 1] == Expand(w[..i], k, s)
  {
    if i < |w| {
      ExpandPrefix(w[..|w| - 1], k, s, i);
      assert w[..|w| - 1][..i] == w[..i];
    } else {
      assert w[..i] == w;
    }
  }

  lemma {:induction false} ExpandIncreases(w: seq<nat>, k: nat, s: nat, i: nat, j: nat)
    requires s > 0 && i < j <= |w|
    ensures Expand(w, k, s)[i] < Expand(w, k, s)[j]
  {
    QuotientNonNegative(w[|w| - 1] * k, s);
    if j < |w| || i < j - 1 {
      var v := w[..|w| - 1];
      if j < |w| {
        ExpandIncreases(v, k, s, i, j);
      } else {
        ExpandIncreases(v, k, s, i, j - 1);
      }
    }
  }

  lemma QuotientNonNegative(a: nat, s: nat)
    requires s > 0
    ensures a / s >= 0 && s * (a / s) <= a
  {
  }

  /** Truncation never lets the running total run ahead of its share of k. */
  lemma {:induction false} ExpandShare(w: seq<nat>, k: nat, s: nat)
    requires s > 0
    ensures Expand(w, k, s)[|w|] >= |w|
    ensures s * (Expand(w, k, s)[|w|] - |w|) <= Sum(w) * k
  {
    if w != [] {
      var v, x := w[..|w| - 1], w[|w| - 1];
      ExpandShare(v, k, s);
      QuotientNonNegative(x * k, s);
      var t := Expand(v, k, s)[|v|] - |v|;
      assert s * (t + x * k / s) == s * t + s * (x * k / s);
      assert (Sum(v) + x) * k == Sum(v) * k + x * k;
    }
  }

  /** Every expansion is a usable table with total at most k + |w|. */
  lemma ExpandIsCdf(w: seq<nat>, k: nat)
    requires w != [] && Sum(w) > 0 && k + |w| <= 0xffff
    ensures var c := Expand(w, k, Sum(w));
            IsCdf(c) && c[0] == 0 && c[|w|] <= k + |w|
  {
    var s := Sum(w);
    var c := Expand(w, k, s);
    ExpandShare(w, k, s);
    if c[|w|] - |w| > k {
      StrictScale(s, c[|w|] - |w|, k);
    }
    ExpandPrefix(w, k, s, 0);
    assert c[0] == c[..1][0];
    forall i, j | 0 <= i < j < |c| ensures Below(c, i, j) {
      ExpandIncreases(w, k, s, i, j);
    }
  }

  lemma StrictScale(s: nat, a: int, b: int)
    requires s > 0 && a > b
    ensures s * a > s * b
  {
    assert s * a == s * b + s * (a - b);
  }

  // ---- delta tables ----

  function Weight(d: Byte): (w: nat)
    ensures 1 <= w <= 65535
  {
    assert (d + 1) * (d + 1) >= 1;
    if (d + 1) * (d + 1) > 65535 then 65535 else (d + 1) * (d + 1)
  }

  function Weights(dcmf: seq<Byte>): (w: seq<nat>)
    ensures |w| == |dcmf|
  {
    seq(|dcmf|, i requires 0 <= i < |dcmf| => Weight(dcmf[i]))
  }

  lemma {:induction false} WeightSum(dcmf: seq<Byte>)
    ensures |dcmf| <= Sum(Weights(dcmf)) <= 65535 * |dcmf|
  {
    if dcmf != [] {
      var d := dcmf[..|dcmf| - 1];
      WeightSum(d);
      assert Weights(dcmf)[..|dcmf| - 1] == Weights(d);
    }
  }

  /** The cumulative table a delta table stands for. */
  function DcmfCdf(dcmf: seq<Byte>): (c: seq<nat>)
    requires 0 < |dcmf| <= CDF_MAX
    ensures |c| == |dcmf| + 1
  {
    WeightSum(dcmf);
    Expand(Weights(dcmf), CDF_MAX - |dcmf|, Sum(Weights(dcmf)))
  }

  lemma DcmfIsCdf(dcmf: seq<Byte>)
    requires 0 < |dcmf| <= CDF_MAX
    ensures IsCdf(DcmfCdf(dcmf)) && DcmfCdf(dcmf)[0] == 0 && DcmfCdf(dcmf)[|dcmf|] <= CDF_MAX
  {
    WeightSum(dcmf);
    ExpandIsCdf(Weights(dcmf), CDF_MAX - |dcmf|);
  }

  lemma SumPrefix(w: seq<nat>, i: nat)
    requires i < |w|
    ensures Sum(w[..i + 1]) == Sum(w[..i]) + w[i]
  {
    assert w[..i + 1][..i] == w[..i];
  }

  lemma ExpandAt(w: seq<nat>, k: nat, s: nat, i: nat)
    requires s > 0 && i < |w|
    ensures Expand(w, k, s)[i + 1] == Expand(w, k, s)[i] + w[i] * k / s + 1
  {
    ExpandPrefix(w, k, s, i + 1);
    ExpandPrefix(w, k, s, i);
    assert w[..i + 1][..i] == w[..i];
    assert Expand(w, k, s)[..i + 2][i] == Expand(w, k, s)[i];
    assert Expand(w, k, s)[..i + 1][i] == Expand(w, k, s)[i];
  }

  /** Every symbol gets its share of what is left of 32767 after one part each, cut to a whole number, and
      one part: its weight is the square of its delta and one, at most 65535, out of the sum of all. */
  lemma DcmfShares(dcmf: seq<Byte>, i: nat)
    requires 0 < |dcmf| <= CDF_MAX && i < |dcmf|
    ensures var c, sum, d: int := DcmfCdf(dcmf), Sum(Weights(dcmf)), dcmf[i];
            var w, left := if d == 255 then 65535 else (d + 1) * (d + 1), 32767 - |dcmf|;
            && Weights(dcmf)[i] == w
            && (c[i + 1] - c[i] - 1) * sum <= w * left < (c[i + 1] - c[i]) * sum
  {
    WeightSum(dcmf);
    WeightIs(dcmf[i]);
    ExpandAt(Weights(dcmf), CDF_MAX - |dcmf|, Sum(Weights(dcmf)), i);
    var c := DcmfCdf(dcmf);
    assert Weights(dcmf)[i] == Weight(dcmf[i]);
    hide *;
    StepAround(Weights(dcmf)[i], CDF_MAX - |dcmf|, Sum(Weights(dcmf)), c[i], c[i + 1]);
  }

  lemma StepAround(w: nat, left: nat, sum: nat, lo: int, hi: int)
    requires sum > 0 && hi == lo + w * left / sum + 1
    ensures (hi - lo - 1) * sum <= w * left < (hi - lo) * sum
  {
    QuotientAround(w * left, sum);
  }

  lemma WeightIs(d: int)
    requires 0 <= d < 256
    ensures Weight(d) == if d == 255 then 65535 else (d + 1) * (d + 1)
  {
    Ordered(d + 1, d + 1, 256);
    if d <= 254 {
      Ordered(d + 1, d + 1, 255);
    }
  }

  lemma QuotientAround(a: nat, s: nat)
    requires s > 0
    ensures a / s * s <= a < (a / s + 1) * s
  {
  }

  lemma ExpandBounded(w: seq<nat>, k: nat, i: nat)
    requires Sum(w) > 0 && k + |w| <= CDF_MAX && i <= |w| && w != []
    ensures 0 <= Expand(w, k, Sum(w))[i] <= CDF_MAX
  {
    ExpandIsCdf(w, k);
    CdfOrder(Expand(w, k, Sum(w)), 0, i);
    CdfOrder(Expand(w, k, Sum(w)), i, |w|);
  }

  lemma SquareFits(x: nat)
    requires x <= 256
    ensures x * x <= 0x1_0000
  {
    assert x * x <= x * 256;
  }

  /** The 32-bit products and sums of the expanders stay in range. */
  lemma ProductsFit(w: nat, n: nat)
    requires w <= 65535 && n <= CDF_MAX
    ensures w * (CDF_MAX - n) < 0x8000_0000 && n * 65535 < 0x8000_0000
  {
    assert w * (CDF_MAX - n) <= 65535 * (CDF_MAX - n);
  }

  /** A weight's share of the room left by n forced increments, truncated.  The
      product fits 32 bits. */
  function Share(w: U16, n: nat, s: nat): int
    requires 0 < s && n <= CDF_MAX
  {
    ProductsFit(w, n);
    var scaled: I32 := w * (CDF_MAX - n);
    scaled / s
  }

  /** One accumulation step of an expander, in the ranges it is computed in. */
  lemma DcmfStep(dcmf: seq<Byte>, i: nat)
    requires i < |dcmf| <= CDF_MAX
    ensures var c, s := DcmfCdf(dcmf), Sum(Weights(dcmf));
            0 < s && c[i + 1] == c[i] + Share(Weight(dcmf[i]), |dcmf|, s) + 1 && 0 <= c[i + 1] <= CDF_MAX
  {
    WeightSum(dcmf);
    var w := Weights(dcmf);
    ExpandAt(w, CDF_MAX - |dcmf|, Sum(w), i);
    ExpandBounded(w, CDF_MAX - |dcmf|, i + 1);
  }

  /** The first pass: squared weights go into cmf[1..]. */
  method SquareDeltas(dcmf: seq<Byte>, cmf: array<U16>) returns (sum: I32)
    requires 0 < |dcmf| <= CDF_MAX && cmf.Length == |dcmf| + 1
    modifies cmf
    ensures sum == Sum(Weights(dcmf))
    ensures forall i :: 1 <= i <= |dcmf| ==> cmf[i] == Weight(dcmf[i - 1])
  {
    ghost var w := Weights(dcmf);
    sum := 0;
    var n := 0;
    while n < |dcmf|
      invariant 0 <= n <= |dcmf| && sum == Sum(w[..n]) && sum <= n * 65535
      invariant forall i :: 1 <= i <= n ==> cmf[i] == w[i - 1]
    {
      var tmp: I32 := dcmf[n] as int + 1;
      SquareFits(tmp);
      tmp := tmp * tmp;
      if tmp > 65535 {
        tmp := 65535;
      }
      cmf[n + 1] := tmp;
      ProductsFit(tmp, n + 1);
      SumPrefix(w, n);
      sum := sum + tmp;
      n := n + 1;
    }
    assert w[..|dcmf|] == w;
  }

  /** Squares the shifted deltas into cmf, then accumulates in place. */
  method CelpDcmfToCmf(dcmf: seq<Byte>, cmf: array<U16>)
    requires 0 < |dcmf| <= CDF_MAX && cmf.Length == |dcmf| + 1
    modifies cmf
    ensures cmf[..] == DcmfCdf(dcmf)
  {
    var len := |dcmf|;
    var sum := SquareDeltas(dcmf, cmf);
    hide DcmfCdf, Weights, Weight, Sum, IsCdf, Share;
    ghost var c := DcmfCdf(dcmf);
    DcmfIsCdf(dcmf);
    cmf[0] := 0;
    var n := 1;
    while n < len + 1
      invariant 1 <= n <= len + 1
      invariant forall i :: 0 <= i < n ==> cmf[i] == c[i]
      invariant forall i :: n <= i <= len ==> cmf[i] == Weight(dcmf[i - 1])
    {
      DcmfStep(dcmf, n - 1);
      cmf[n] := cmf[n - 1] + Share(cmf[n], len, sum) + 1;
      n := n + 1;
    }
  }

  /** The line-spectrum expander allocates its table and sums in 64 bits. */
  method LsfDcmfToCmf(dcmf: seq<Byte>) returns (cmf: array<U16>)
    requires 0 < |dcmf| <= CDF_MAX
    ensures fresh(cmf) && cmf[..] == DcmfCdf(dcmf)
  {
    var n := |dcmf|;
    cmf := new U16[n + 1](_ => 0);
    ghost var w := Weights(dcmf);
    var sum := 0;
    for i := 0 to n
      invariant sum == Sum(w[..i])
      invariant forall k :: 1 <= k <= i ==> cmf[k] == w[k - 1]
    {
      var tmp: I32 := dcmf[i] as int + 1;
      SquareFits(tmp);
      tmp := tmp * tmp;
      if tmp > 65535 {
        tmp := 65535;
      }
      cmf[i + 1] := tmp;
      SumPrefix(w, i);
      sum := sum + tmp;
    }
    assert w[..n] == w;
    WeightSum(dcmf);
    hide DcmfCdf, Sum, IsCdf, Share;
    ghost var c := DcmfCdf(dcmf);
    DcmfIsCdf(dcmf);
    cmf[0] := 0;
    for i := 1 to n + 1
      invariant forall k :: 0 <= k < i ==> cmf[k] == c[k]
      invariant forall k :: i <= k <= n ==> cmf[k] == w[k - 1]
    {
      var prev := cmf[i - 1];
      DcmfStep(dcmf, i - 1);
      var add := Share(cmf[i], n, sum) + 1;
      cmf[i] := prev + add;
    }
  }

  /** The pitch expander overwrites its own weights, in 32-bit cells. */
  method PitchDcmfToCmf(dcmf: seq<Byte>) returns (cmf: array<int>)
    requires 0 < |dcmf| <= CDF_MAX
    ensures fresh(cmf) && cmf[..] == DcmfCdf(dcmf)
  {
    var n := |dcmf|;
    cmf := new int[n + 1](_ => 0);
    ghost var w := Weights(dcmf);
    var sum := 0;
    for i := 0 to n
      invariant sum == Sum(w[..i])
      invariant forall k :: 1 <= k <= i ==> cmf[k] == w[k - 1]
    {
      var tmp: I32 := dcmf[i] as int + 1;
      SquareFits(tmp);
      tmp := tmp * tmp;
      if tmp > 65535 {
        tmp := 65535;
      }
      cmf[i + 1] := tmp;
      SumPrefix(w, i);
      sum := sum + tmp;
    }
    assert w[..n] == w;
    WeightSum(dcmf);
    hide DcmfCdf, Sum, IsCdf, Share;
    ghost var c := DcmfCdf(dcmf);
    DcmfIsCdf(dcmf);
    cmf[0] := 0;
    for i := 1 to n + 1
      invariant forall k :: 0 <= k < i ==> cmf[k] == c[k]
      invariant forall k :: i <= k <= n ==> cmf[k] == w[k - 1]
    {
      DcmfStep(dcmf, i - 1);
      cmf[i] := cmf[i - 1] + (Share(cmf[i], n, sum) + 1);
    }
  }

  // ---- probability tables ----

  function PdfCdf(pdf: seq<nat>): (c: seq<nat>)
    requires 0 < |pdf| <= CDF_MAX && Sum(pdf) > 0
    ensures |c| == |pdf| + 1
  {
    Expand(pdf, CDF_MAX - |pdf|, Sum(pdf))
  }

  lemma PdfIsCdf(pdf: seq<nat>)
    requires 0 < |pdf| <= CDF_MAX && Sum(pdf) > 0
    ensures IsCdf(PdfCdf(pdf)) && PdfCdf(pdf)[0] == 0 && PdfCdf(pdf)[|pdf|] <= CDF_MAX
  {
    ExpandIsCdf(pdf, CDF_MAX - |pdf|);
  }

  method PdfToCmf(pdf: seq<nat>) returns (cmf: array<U16>)
    requires 0 < |pdf| <= CDF_MAX && Sum(pdf) > 0
    ensures fresh(cmf) && cmf[..] == PdfCdf(pdf)
  {
    var n := |pdf|;
    var sump := 0;
    for i := 0 to n
      invariant sump == Sum(pdf[..i])
    {
      SumPrefix(pdf, i);
      sump := sump + pdf[i];
    }
    assert pdf[..n] == pdf;
    cmf := new U16[n + 1](_ => 0);
    ghost var c := PdfCdf(pdf);
    PdfIsCdf(pdf);
    for i := 0 to n
      invariant forall k :: 0 <= k <= i ==> cmf[k] == c[k]
    {
      ExpandAt(pdf, CDF_MAX - n, sump, i);
      ExpandBounded(pdf, CDF_MAX - n, i + 1);
      var p := pdf[i] * (CDF_MAX - n) / sump + 1;
      cmf[i + 1] := cmf[i] + p;
    }
  }

  // ---- as tables ----

  /** The table of packed deltas. */
  function Table(dcmf: seq<Byte>): (c: Cdf)
    requires 0 < |dcmf| <= CDF_MAX
    ensures |c| == |dcmf| + 1
  {
    DcmfIsCdf(dcmf);
    DcmfCdf(dcmf)
  }

  /** The table of weights. */
  function PdfTable(pdf: seq<nat>): (c: Cdf)
    requires 0 < |pdf| <= CDF_MAX && Sum(pdf) > 0
    ensures |c| == |pdf| + 1
  {
    PdfIsCdf(pdf);
    PdfCdf(pdf)
  }

  // ---- windows ----

  /** n entries of base from start on; entries outside base read as zero. */
  function CdfWindowOf(base: seq<nat>, start: int, n: nat): (w: seq<nat>)
    ensures |w| == n
  {
    seq(n, i requires 0 <= i < n => if 0 <= start + i < |base| then base[start + i] else 0)
  }

  /** Inside the table a window is again a table; one entry outside spoils it. */
  lemma WindowIsCdf(base: Cdf, start: int, n: nat)
    requires n >= 2 && base[0] == 0
    ensures IsCdf(CdfWindowOf(base, start, n)) <==> 0 <= start && start + n <= |base|
    ensures IsCdf(CdfWindowOf(base, start, n)) ==> CdfWindowOf(base, start, n) == base[start..start + n]
  {
    var w := CdfWindowOf(base, start, n);
    if start < 0 {
      assert !Below(w, 0, 1);
    } else if start + n > |base| {
      assert !Below(w, 0, n - 1);
    } else {
      assert w == base[start..start + n];
      CdfWindow(base, start, n);
    }
  }
}
