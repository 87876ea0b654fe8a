/** The excitation block: how a pulse vector becomes counts, run lengths and signs,
    and how those are laid out as symbols. */
module PulseSpec {
  import opened Arithmetic
  import opened RangeSpec
  import opened RangeEncoding
  import opened CdfTables
  import opened CcTables

  const INTF_LEN := 320
  const SUBFRAMES := 4
  const SUBFR_LEN := 80
  const SIGN_BATCH := 15

  datatype RawBits = RawBits(sym: nat, nbits: nat)

  datatype PulseParams = PulseParams(total: nat, subfr: seq<nat>, magRuns: seq<nat>, signSyms: seq<RawBits>)

  // ---- pulse count ----

  /** The static count table, addressed by codec configuration and frame class. */
  function PulseCountByte(i: nat): nat {
    if i == 0 then 80 else if i == 1 || i == 2 then 160
    else if i == 3 then 16 else if i == 4 || i == 5 then 32 else 0
  }

  /** The triangular prior as computed: 32-bit wrap-around, then the low 16 bits. */
  function TriWrapped(k: nat, l: nat): nat {
    var a := (k + 2) * (l + 1) % 0x1_0000_0000;
    var less := if k == 0 then 0xffff_ffff else k - 1;
    var b := less * (k + 131070) % 0x1_0000_0000 / 2;
    (a - b) % 0x1_0000_0000 % 0x1_0000
  }

  function Tri(k: nat, l: nat): int {
    (k + 2) * (l + 1) - (k - 1) * (k - 2) / 2
  }

  /** For k = 0 the wrapped product is -131070 and its half contributes -65535, which
      the final mask turns into +1; for k > 0 the 131072 vanishes under the mask. */
  lemma TriIsTri(k: nat, l: nat)
    requires k <= l <= 350
    ensures TriWrapped(k, l) == Tri(k, l)
    ensures 0 < Tri(k, l) < 0x1_0000
  {
    TriRange(k, l);
    ProductBound(k + 2, 352, l + 1, 351);
    if k == 0 {
      TriAtZero(l);
    } else {
      Half(k);
      Halved(k);
      assert TriWrapped(k, l) == ((k + 2) * (l + 1) % 0x1_0000_0000
                                  - (k - 1) * (k + 131070) % 0x1_0000_0000 / 2) % 0x1_0000_0000 % 0x1_0000;
      Mask((k + 2) * (l + 1), (k - 1) * (k - 2) / 2, k - 1, (k - 1) * (k + 131070));
    }
  }

  lemma TriAtZero(l: nat)
    requires l <= 350
    ensures TriWrapped(0, l) == Tri(0, l) == 2 * l + 1
  {
    MaskZero((0 + 2) * (l + 1), 0xffff_ffff * (0 + 131070));
  }

  lemma MaskZero(a: nat, product: int)
    requires 2 <= a <= 702 && product == 131069 * 0x1_0000_0000 + 0xfffe_0002
    ensures (a % 0x1_0000_0000 - product % 0x1_0000_0000 / 2) % 0x1_0000_0000 % 0x1_0000 == a - 1
  {
    assert product % 0x1_0000_0000 / 2 == 0x7fff_0001;
    assert (a - 0x7fff_0001) % 0x1_0000_0000 == 32769 * 0x1_0000 + (a - 1);
  }

  lemma Mask(a: nat, h: nat, n: nat, product: int)
    requires a <= 352 * 351 && 0 <= a - h < 0x1_0000 && n <= 350
    requires product == 2 * h + 131072 * n
    ensures (a % 0x1_0000_0000 - product % 0x1_0000_0000 / 2) % 0x1_0000_0000 % 0x1_0000 == a - h
  {
    assert product % 0x1_0000_0000 / 2 == h + 65536 * n;
  }

  lemma Halved(k: nat)
    requires k > 0
    ensures (k - 1) * (k + 131070) == (k - 1) * (k - 2) / 2 * 2 + 131072 * (k - 1)
  {
    Half(k);
    assert (k - 1) * (k + 131070) == (k - 1) * (k - 2) + (k - 1) * 131072;
  }

  lemma ProductBound(a: nat, x: nat, b: nat, y: nat)
    requires a <= x && b <= y
    ensures 0 <= a * b <= x * y
  {
    assert a * b <= x * b <= x * y;
  }

  /** (k - 1)(k - 2) is even, so halving it loses nothing. */
  lemma Half(k: nat)
    ensures (k - 1) * (k - 2) / 2 * 2 == (k - 1) * (k - 2) && (k - 1) * (k - 2) >= 0
  {
    var m := k / 2;
    if k % 2 == 0 {
      assert (2 * m - 1) * (2 * m - 2) == 2 * ((2 * m - 1) * (m - 1));
      assert k == 0 || (k - 1) * (m - 1) >= 0;
    } else {
      assert (2 * m) * (2 * m - 1) == 2 * (m * (2 * m - 1));
      assert m == 0 || m * (2 * m - 1) >= 0;
    }
  }

  lemma TriStep(k: nat, l: nat)
    ensures Tri(k + 1, l) == Tri(k, l) + l + 2 - k
  {
    Half(k);
    Half(k + 1);
    assert k * (k - 1) == (k - 1) * (k - 2) + 2 * (k - 1);
    assert (k + 3) * (l + 1) == (k + 2) * (l + 1) + (l + 1);
  }

  /** The prior is strictly increasing on 0..l. */
  lemma {:induction false} TriIncreases(j: nat, k: nat, l: nat)
    requires j < k <= l + 1
    ensures Tri(j, l) < Tri(k, l)
  {
    TriStep(k - 1, l);
    if j < k - 1 {
      TriIncreases(j, k - 1, l);
    }
  }

  lemma TriRange(k: nat, l: nat)
    requires k <= l <= 350
    ensures 0 < Tri(k, l) < 0x1_0000
  {
    TriAtEnd(l);
    Half(0);
    if 0 < k {
      TriIncreases(0, k, l);
    }
    if k < l {
      TriIncreases(k, l, l);
    }
  }

  lemma TriAtEnd(l: nat)
    requires l <= 350
    ensures Tri(l, l) < 0x1_0000
  {
    Half(l);
    ProductBound(l, 350, l, 350);
    assert 2 * ((l + 2) * (l + 1)) - (l - 1) * (l - 2) == l * l + 9 * l + 2;
  }

  const COUNT_MAX := 160

  function CountSym(total: nat): Sym
    requires total <= COUNT_MAX
  {
    CountOrder(total);
    Sym(if total > 0 then Tri(total - 1, COUNT_MAX) else 0, Tri(total, COUNT_MAX), Tri(COUNT_MAX, COUNT_MAX))
  }

  lemma CountOrder(total: nat)
    requires total <= COUNT_MAX
    ensures 0 < Tri(total, COUNT_MAX) <= Tri(COUNT_MAX, COUNT_MAX) < 0x1_0000
    ensures total > 0 ==> 0 < Tri(total - 1, COUNT_MAX) < Tri(total, COUNT_MAX)
  {
    TriRange(total, COUNT_MAX);
    TriRange(COUNT_MAX, COUNT_MAX);
    if 0 < total {
      TriRange(total - 1, COUNT_MAX);
      TriIncreases(total - 1, total, COUNT_MAX);
    }
    if total < COUNT_MAX {
      TriIncreases(total, COUNT_MAX, COUNT_MAX);
    }
  }

  /** The count intervals are disjoint. */
  lemma CountUnique(b: seq<Byte>, iv: Interval, m: nat, n: nat, p: seq<Sym>, q: seq<Sym>)
    requires m <= COUNT_MAX && n <= COUNT_MAX
    requires Reads(b, iv, [CountSym(m)] + p) && Reads(b, iv, [CountSym(n)] + q)
    ensures m == n
    ensures Reads(b, Step(iv, CountSym(m)), p) && Reads(b, Step(iv, CountSym(m)), q)
  {
    ReadsHead(b, iv, CountSym(m), p);
    ReadsHead(b, iv, CountSym(n), q);
    SymsOverlap(b, iv, CountSym(m), CountSym(n));
    if m < n - 1 { TriIncreases(m, n - 1, COUNT_MAX); }
    if n < m - 1 { TriIncreases(n, m - 1, COUNT_MAX); }
  }

  // ---- split over halves and quarters ----

  /** Subframes with pulses before subframe sf. */
  function Coded(counts: seq<nat>, sf: nat): nat
    requires sf <= |counts|
  {
    if sf == 0 then 0 else Coded(counts, sf - 1) + if counts[sf - 1] > 0 then 1 else 0
  }

  /** A choice is coded only when there is one. */
  ghost function Choice(coded: bool, c: Cdf, i: nat): seq<Sym>
    requires coded ==> i < |c| - 1
  {
    if coded then [CdfSym(c, i)] else []
  }

  lemma ChoiceUnique(b: seq<Byte>, iv: Interval, coded: bool, c: Cdf, i: nat, j: nat, p: seq<Sym>, q: seq<Sym>)
    requires if coded then i < |c| - 1 && j < |c| - 1 else i == j
    requires Reads(b, iv, Choice(coded, c, i) + p) && Reads(b, iv, Choice(coded, c, j) + q)
    ensures i == j
    ensures Reads(b, Run(iv, Choice(coded, c, i)), p) && Reads(b, Run(iv, Choice(coded, c, i)), q)
  {
    ReadsAfter(b, iv, Choice(coded, c, i), p);
    ReadsAfter(b, iv, Choice(coded, c, j), q);
    if coded {
      CdfHeadUnique(b, iv, c, i, j, p, q);
    }
  }

  /** Pulses of the first two subframes, out of all four. */
  ghost predicate SplitFits(cdf: Cdf, total: nat, first: nat) {
    var lo := Excess(total, 2 * MAX_PULSES);
    lo <= first <= total - lo && (lo < total - lo ==> first - lo < |cdf| - 1)
  }

  ghost function SplitSyms(cdf: Cdf, total: nat, first: nat): seq<Sym>
    requires SplitFits(cdf, total, first)
  {
    var lo := Excess(total, 2 * MAX_PULSES);
    Choice(lo < total - lo, cdf, first - lo)
  }

  lemma SplitUnique(b: seq<Byte>, iv: Interval, cdf: Cdf, total: nat, x: nat, y: nat, p: seq<Sym>, q: seq<Sym>)
    requires SplitFits(cdf, total, x) && SplitFits(cdf, total, y)
    requires Reads(b, iv, SplitSyms(cdf, total, x) + p) && Reads(b, iv, SplitSyms(cdf, total, y) + q)
    ensures x == y
    ensures Reads(b, Run(iv, SplitSyms(cdf, total, x)), p) && Reads(b, Run(iv, SplitSyms(cdf, total, x)), q)
  {
    var lo := Excess(total, 2 * MAX_PULSES);
    ChoiceUnique(b, iv, lo < total - lo, cdf, x - lo, y - lo, p, q);
  }

  /** Pulses of the first of two subframes; nothing is written when there is no choice. */
  ghost predicate HalfFits(cdf: Cdf, count: nat, first: nat) {
    var lo := Excess(count, MAX_PULSES);
    lo <= first <= count - lo && (0 < count < 2 * MAX_PULSES ==> first - lo < |cdf| - 1)
  }

  ghost function HalfSyms(cdf: Cdf, count: nat, first: nat): seq<Sym>
    requires HalfFits(cdf, count, first)
  {
    Choice(0 < count < 2 * MAX_PULSES, cdf, first - Excess(count, MAX_PULSES))
  }

  lemma HalfUnique(b: seq<Byte>, iv: Interval, cdf: Cdf, count: nat, x: nat, y: nat, p: seq<Sym>, q: seq<Sym>)
    requires count <= 2 * MAX_PULSES && HalfFits(cdf, count, x) && HalfFits(cdf, count, y)
    requires Reads(b, iv, HalfSyms(cdf, count, x) + p) && Reads(b, iv, HalfSyms(cdf, count, y) + q)
    ensures x == y
    ensures Reads(b, Run(iv, HalfSyms(cdf, count, x)), p) && Reads(b, Run(iv, HalfSyms(cdf, count, x)), q)
  {
    var lo := Excess(count, MAX_PULSES);
    ChoiceUnique(b, iv, 0 < count < 2 * MAX_PULSES, cdf, x - lo, y - lo, p, q);
  }

  // ---- run lengths ----

  /** The distances between the pulses of one subframe, of which cnt are to come. */
  ghost function RunModel(cc: Tables, cnt: nat): Model {
    (runs: seq<nat>) => cc.RunCdf(SUBFR_LEN - Sum(runs), cnt - |runs|)
  }

  /** The run-length tables have one symbol for every sample left. */
  ghost predicate RunsSized(cc: Tables) {
    forall pos, c :: 1 <= pos <= SUBFR_LEN && 1 <= c <= MAX_PULSES ==> |cc.RunCdf(pos, c)| == pos + 1
  }

  lemma WfRunsSized(cc: Tables)
    requires cc.Wf()
    ensures RunsSized(cc)
  {
    forall pos, c | 1 <= pos <= SUBFR_LEN && 1 <= c <= MAX_PULSES ensures |cc.RunCdf(pos, c)| == pos + 1 {
      cc.RunSizes(pos, c);
    }
  }

  /** The runs that can be coded are exactly those that stay in the subframe. */
  lemma {:induction false} RunsInSubframe(cc: Tables, cnt: nat, runs: seq<nat>)
    requires RunsSized(cc) && |runs| <= cnt <= MAX_PULSES
    ensures Admissible(RunModel(cc, cnt), runs) <==> Sum(runs) < SUBFR_LEN
    decreases |runs|
  {
    if runs != [] {
      var n := |runs| - 1;
      RunsInSubframe(cc, cnt, runs[..n]);
      AdmissibleLast(RunModel(cc, cnt), runs);
      if Sum(runs[..n]) < SUBFR_LEN {
        assert |cc.RunCdf(SUBFR_LEN - Sum(runs[..n]), cnt - n)| == SUBFR_LEN - Sum(runs[..n]) + 1;
      }
    }
  }

  /** Index of the first run length of subframe i. */
  function Start(subfr: seq<nat>, i: nat): nat
    requires i <= |subfr|
  {
    Sum(subfr[..i])
  }

  lemma StartStep(subfr: seq<nat>, i: nat)
    requires i < |subfr|
    ensures Start(subfr, i + 1) == Start(subfr, i) + subfr[i]
  {
    SumPrefix(subfr, i);
  }

  lemma {:induction false} StartMono(subfr: seq<nat>, i: nat, j: nat)
    requires i <= j <= |subfr|
    ensures Start(subfr, i) <= Start(subfr, j)
  {
    if i < j {
      StartMono(subfr, i, j - 1);
      StartStep(subfr, j - 1);
    }
  }

  /** The run lengths of subframe i. */
  function RunsOf(subfr: seq<nat>, runs: seq<nat>, i: nat): (r: seq<nat>)
    requires i < |subfr| && |runs| >= Start(subfr, i + 1)
    ensures |r| == subfr[i]
  {
    StartStep(subfr, i);
    runs[Start(subfr, i)..Start(subfr, i + 1)]
  }

  ghost predicate WfRuns(cc: Tables, subfr: seq<nat>, runs: seq<nat>, i: nat)
    requires i <= |subfr|
  {
    && |runs| >= Start(subfr, i)
    && forall k :: 0 <= k < i ==>
         (StartMono(subfr, k + 1, i); Admissible(RunModel(cc, subfr[k]), RunsOf(subfr, runs, k)))
  }

  ghost function MagSyms(cc: Tables, subfr: seq<nat>, runs: seq<nat>, i: nat): seq<Sym>
    requires i <= |subfr| && WfRuns(cc, subfr, runs, i)
  {
    if i == 0 then []
    else
      StartMono(subfr, i - 1, i);
      MagSyms(cc, subfr, runs, i - 1) + AdaptiveSyms(RunModel(cc, subfr[i - 1]), RunsOf(subfr, runs, i - 1))
  }

  lemma PrefixGrow<T>(x: seq<T>, y: seq<T>, a: nat, e: nat)
    requires a <= e <= |x| && e <= |y| && x[..a] == y[..a] && x[a..e] == y[a..e]
    ensures x[..e] == y[..e]
  {
    assert x[..e] == x[..a] + x[a..e] && y[..e] == y[..a] + y[a..e];
  }

  lemma {:induction false} MagUnique(b: seq<Byte>, iv: Interval, cc: Tables, subfr: seq<nat>, i: nat,
                                     x: seq<nat>, y: seq<nat>, p: seq<Sym>, q: seq<Sym>)
    requires i <= |subfr| && WfRuns(cc, subfr, x, i) && WfRuns(cc, subfr, y, i)
    requires Reads(b, iv, MagSyms(cc, subfr, x, i) + p) && Reads(b, iv, MagSyms(cc, subfr, y, i) + q)
    ensures x[..Start(subfr, i)] == y[..Start(subfr, i)]
    ensures MagSyms(cc, subfr, x, i) == MagSyms(cc, subfr, y, i)
    ensures Reads(b, Run(iv, MagSyms(cc, subfr, x, i)), p) && Reads(b, Run(iv, MagSyms(cc, subfr, x, i)), q)
  {
    hide Reads, Run, Step, RunModel, Admissible, AdaptiveSyms;
    ReadsAfter(b, iv, MagSyms(cc, subfr, x, i), p);
    ReadsAfter(b, iv, MagSyms(cc, subfr, y, i), q);
    if i > 0 {
      StartMono(subfr, i - 1, i);
      var m := RunModel(cc, subfr[i - 1]);
      var rx, ry := RunsOf(subfr, x, i - 1), RunsOf(subfr, y, i - 1);
      var sx, sy := AdaptiveSyms(m, rx), AdaptiveSyms(m, ry);
      var hx, hy := MagSyms(cc, subfr, x, i - 1), MagSyms(cc, subfr, y, i - 1);
      Regroup(hx, sx, p);
      Regroup(hy, sy, q);
      MagUnique(b, iv, cc, subfr, i - 1, x, y, sx + p, sy + q);
      AdaptiveUnique(b, Run(iv, hx), m, rx, ry, p, q);
      PrefixGrow(x, y, Start(subfr, i - 1), Start(subfr, i));
    }
  }

  // ---- signs ----

  /** Bits in batch i when n signs are sent fifteen at a time. */
  function BatchBits(n: nat, i: nat): nat
    requires i * SIGN_BATCH <= n
  {
    if n - i * SIGN_BATCH > SIGN_BATCH then SIGN_BATCH else n - i * SIGN_BATCH
  }

  ghost predicate WfSigns(n: nat, signs: seq<RawBits>, count: nat) {
    && |signs| == count
    && (count > 0 ==> (count - 1) * SIGN_BATCH < n)
    && forall i :: 0 <= i < count ==>
         i * SIGN_BATCH < n && signs[i].nbits == BatchBits(n, i) && signs[i].sym < Pow2(signs[i].nbits)
  }

  function SignCount(n: nat): nat {
    (n + SIGN_BATCH - 1) / SIGN_BATCH
  }

  function SignSyms(n: nat, signs: seq<RawBits>): (r: seq<Sym>)
    requires WfSigns(n, signs, |signs|)
    ensures |r| == |signs|
  {
    if signs == [] then []
    else
      var k := |signs| - 1;
      RawTotal(signs[k].nbits);
      SignSyms(n, signs[..k]) + [UniformSym(signs[k].sym, Pow2(signs[k].nbits))]
  }

  lemma {:induction false} SignUnique(b: seq<Byte>, iv: Interval, n: nat,
                                      x: seq<RawBits>, y: seq<RawBits>, p: seq<Sym>, q: seq<Sym>)
    requires |x| == |y| && WfSigns(n, x, |x|) && WfSigns(n, y, |y|)
    requires Reads(b, iv, SignSyms(n, x) + p) && Reads(b, iv, SignSyms(n, y) + q)
    ensures x == y
    decreases |x|
  {
    if x != [] {
      var k := |x| - 1;
      var ft := Pow2(x[k].nbits);
      RawTotal(x[k].nbits);
      var sx, sy := [UniformSym(x[k].sym, ft)], [UniformSym(y[k].sym, ft)];
      var hx, hy := SignSyms(n, x[..k]), SignSyms(n, y[..k]);
      Regroup(hx, sx, p);
      Regroup(hy, sy, q);
      SignUnique(b, iv, n, x[..k], y[..k], sx + p, sy + q);
      ReadsAfter(b, iv, hx, sx + p);
      ReadsAfter(b, iv, hx, sy + q);
      UniformHeadUnique(b, Run(iv, hx), ft, x[k].sym, y[k].sym, p, q);
      SameSnoc(x, y);
    }
  }

  // ---- the whole block ----

  /** Distinct positions that a subframe's run lengths name: a zero repeats the last one. */
  function Landings(runs: seq<nat>): nat {
    if runs == [] then 0
    else Landings(runs[..|runs| - 1]) + if runs[|runs| - 1] > 0 || |runs| == 1 then 1 else 0
  }

  function Positions(subfr: seq<nat>, runs: seq<nat>, i: nat): nat
    requires i <= |subfr| && |runs| >= Start(subfr, i)
  {
    if i == 0 then 0
    else
      StartMono(subfr, i - 1, i);
      Positions(subfr, runs, i - 1) + Landings(RunsOf(subfr, runs, i - 1))
  }

  /** The tables c1, c2, c3 can express the counts: halves first, then quarters. */
  ghost predicate CountsFit(c1: Cdf, c2: Cdf, c3: Cdf, subfr: seq<nat>)
    requires |subfr| == SUBFRAMES
  {
    var first, second := subfr[0] + subfr[1], subfr[2] + subfr[3];
    SplitFits(c1, first + second, first) && HalfFits(c2, first, subfr[0]) && HalfFits(c3, second, subfr[2])
  }

  datatype CountTables = CountTables(c1: Cdf, c2: Cdf, c3: Cdf)

  function TablesFor(cc: Tables, first: nat, second: nat): CountTables {
    CountTables(cc.SplitCmf(first + second), cc.HalfCdf(first), cc.HalfCdf(second))
  }

  ghost predicate SplitsFit(cc: Tables, subfr: seq<nat>)
    requires |subfr| == SUBFRAMES
  {
    var t := TablesFor(cc, subfr[0] + subfr[1], subfr[2] + subfr[3]);
    CountsFit(t.c1, t.c2, t.c3, subfr)
  }

  ghost predicate WfPulses(cc: Tables, pp: PulseParams) {
    && |pp.subfr| == SUBFRAMES
    && pp.total == Start(pp.subfr, SUBFRAMES) == |pp.magRuns|
    && pp.total <= COUNT_MAX
    && SplitsFit(cc, pp.subfr)
    && WfRuns(cc, pp.subfr, pp.magRuns, SUBFRAMES)
    && (var n := Positions(pp.subfr, pp.magRuns, SUBFRAMES); WfSigns(n, pp.signSyms, SignCount(n)))
  }

  lemma TotalOfFour(subfr: seq<nat>)
    requires |subfr| == SUBFRAMES
    ensures Start(subfr, SUBFRAMES) == subfr[0] + subfr[1] + subfr[2] + subfr[3]
  {
    StartStep(subfr, 0);
    StartStep(subfr, 1);
    StartStep(subfr, 2);
    StartStep(subfr, 3);
  }

  ghost function CountTree(c1: Cdf, c2: Cdf, c3: Cdf, subfr: seq<nat>): seq<Sym>
    requires |subfr| == SUBFRAMES && CountsFit(c1, c2, c3, subfr)
  {
    var first, second := subfr[0] + subfr[1], subfr[2] + subfr[3];
    SplitSyms(c1, first + second, first) + (HalfSyms(c2, first, subfr[0]) + HalfSyms(c3, second, subfr[2]))
  }

  lemma CountTreeUnique(b: seq<Byte>, iv: Interval, c1: Cdf, c2: Cdf, c3: Cdf, d2: Cdf, d3: Cdf,
                        x: seq<nat>, y: seq<nat>, p: seq<Sym>, q: seq<Sym>)
    requires |x| == |y| == SUBFRAMES && CountsFit(c1, c2, c3, x) && CountsFit(c1, d2, d3, y)
    requires x[0] + x[1] + (x[2] + x[3]) == y[0] + y[1] + (y[2] + y[3]) <= COUNT_MAX
    requires x[0] + x[1] == y[0] + y[1] ==> c2 == d2 && c3 == d3
    requires Reads(b, iv, CountTree(c1, c2, c3, x) + p) && Reads(b, iv, CountTree(c1, d2, d3, y) + q)
    ensures x == y
    ensures Reads(b, Run(iv, CountTree(c1, c2, c3, x)), p) && Reads(b, Run(iv, CountTree(c1, c2, c3, x)), q)
  {
    hide Reads, Run, Step, SplitSyms, HalfSyms, HalfFits;
    ReadsAfter(b, iv, CountTree(c1, c2, c3, x), p);
    ReadsAfter(b, iv, CountTree(c1, d2, d3, y), q);
    var fx, gx, fy, gy := x[0] + x[1], x[2] + x[3], y[0] + y[1], y[2] + y[3];
    var sx, sy := SplitSyms(c1, fx + gx, fx), SplitSyms(c1, fy + gy, fy);
    var hx, hy := HalfSyms(c2, fx, x[0]), HalfSyms(d2, fy, y[0]);
    var kx, ky := HalfSyms(c3, gx, x[2]), HalfSyms(d3, gy, y[2]);
    FourParts(sx, hx, kx, p);
    FourParts(sy, hy, ky, q);
    SplitUnique(b, iv, c1, fx + gx, fx, fy, hx + (kx + p), hy + (ky + q));
    HalfUnique(b, Run(iv, sx), c2, fx, x[0], y[0], kx + p, ky + q);
    HalfUnique(b, Run(Run(iv, sx), hx), c3, gx, x[2], y[2], p, q);
  }

  ghost function CountSyms(cc: Tables, subfr: seq<nat>): seq<Sym>
    requires |subfr| == SUBFRAMES && SplitsFit(cc, subfr)
  {
    var t := TablesFor(cc, subfr[0] + subfr[1], subfr[2] + subfr[3]);
    CountTree(t.c1, t.c2, t.c3, subfr)
  }

  lemma CountsUnique(b: seq<Byte>, iv: Interval, cc: Tables, x: seq<nat>, y: seq<nat>, p: seq<Sym>, q: seq<Sym>)
    requires |x| == |y| == SUBFRAMES && SplitsFit(cc, x) && SplitsFit(cc, y)
    requires x[0] + x[1] + x[2] + x[3] == y[0] + y[1] + y[2] + y[3] <= COUNT_MAX
    requires Reads(b, iv, CountSyms(cc, x) + p) && Reads(b, iv, CountSyms(cc, y) + q)
    ensures x == y
    ensures Reads(b, Run(iv, CountSyms(cc, x)), p) && Reads(b, Run(iv, CountSyms(cc, x)), q)
  {
    hide Reads, Run, Step, CountTree, CountsFit, Tables.SplitCmf, Tables.HalfCdf;
    var s, t := TablesFor(cc, x[0] + x[1], x[2] + x[3]), TablesFor(cc, y[0] + y[1], y[2] + y[3]);
    CountTreeUnique(b, iv, s.c1, s.c2, s.c3, t.c2, t.c3, x, y, p, q);
  }

  lemma FourParts(a: seq<Sym>, b: seq<Sym>, c: seq<Sym>, d: seq<Sym>)
    ensures (a + (b + c)) + d == a + (b + (c + d))
  {
  }

  ghost function PulseSyms(cc: Tables, pp: PulseParams): seq<Sym>
    requires WfPulses(cc, pp)
  {
    [CountSym(pp.total)]
    + (CountSyms(cc, pp.subfr)
       + (MagSyms(cc, pp.subfr, pp.magRuns, SUBFRAMES)
          + SignSyms(Positions(pp.subfr, pp.magRuns, SUBFRAMES), pp.signSyms)))
  }

  /** No byte string holds two different excitation blocks. */
  lemma PulseUnique(b: seq<Byte>, iv: Interval, cc: Tables, x: PulseParams, y: PulseParams, p: seq<Sym>, q: seq<Sym>)
    requires WfPulses(cc, x) && WfPulses(cc, y)
    requires Reads(b, iv, PulseSyms(cc, x) + p) && Reads(b, iv, PulseSyms(cc, y) + q)
    ensures x == y
  {
    hide Reads, Run, Step, WfRuns, SplitsFit, MagSyms, SignSyms, CountSyms, CountSym, Positions;
    var nx, ny := Positions(x.subfr, x.magRuns, SUBFRAMES), Positions(y.subfr, y.magRuns, SUBFRAMES);
    var gx, gy := SignSyms(nx, x.signSyms), SignSyms(ny, y.signSyms);
    var mx, my := MagSyms(cc, x.subfr, x.magRuns, SUBFRAMES), MagSyms(cc, y.subfr, y.magRuns, SUBFRAMES);
    var cx, cy := CountSyms(cc, x.subfr), CountSyms(cc, y.subfr);
    PulseParts([CountSym(x.total)], cx, mx, gx, p);
    PulseParts([CountSym(y.total)], cy, my, gy, q);
    CountUnique(b, iv, x.total, y.total, cx + (mx + (gx + p)), cy + (my + (gy + q)));
    TotalOfFour(x.subfr);
    TotalOfFour(y.subfr);
    var iv1 := Step(iv, CountSym(x.total));
    CountsUnique(b, iv1, cc, x.subfr, y.subfr, mx + (gx + p), my + (gy + q));
    PulseTailUnique(b, Run(iv1, cx), cc, x, y, p, q);
  }

  lemma PulseParts(a: seq<Sym>, b: seq<Sym>, c: seq<Sym>, d: seq<Sym>, e: seq<Sym>)
    ensures (a + (b + (c + d))) + e == a + (b + (c + (d + e)))
  {
  }

  lemma PulseTailUnique(b: seq<Byte>, iv: Interval, cc: Tables, x: PulseParams, y: PulseParams, p: seq<Sym>,
                        q: seq<Sym>)
    requires WfPulses(cc, x) && WfPulses(cc, y) && x.total == y.total && x.subfr == y.subfr
    requires Reads(b, iv, MagSyms(cc, x.subfr, x.magRuns, SUBFRAMES)
                          + (SignSyms(Positions(x.subfr, x.magRuns, SUBFRAMES), x.signSyms) + p))
    requires Reads(b, iv, MagSyms(cc, y.subfr, y.magRuns, SUBFRAMES)
                          + (SignSyms(Positions(y.subfr, y.magRuns, SUBFRAMES), y.signSyms) + q))
    ensures x == y
  {
    hide Reads, Run, Step;
    var nx, ny := Positions(x.subfr, x.magRuns, SUBFRAMES), Positions(y.subfr, y.magRuns, SUBFRAMES);
    var gx, gy := SignSyms(nx, x.signSyms), SignSyms(ny, y.signSyms);
    MagUnique(b, iv, cc, x.subfr, SUBFRAMES, x.magRuns, y.magRuns, gx + p, gy + q);
    assert x.magRuns == x.magRuns[..x.total] && y.magRuns == y.magRuns[..x.total];
    var iv1 := Run(iv, MagSyms(cc, x.subfr, x.magRuns, SUBFRAMES));
    SignUnique(b, iv1, nx, x.signSyms, y.signSyms, p, q);
  }
}
