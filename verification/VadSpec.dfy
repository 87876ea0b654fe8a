/** The steps of the SILK voice activity detector in unbounded integers.  What is carried from
    step to step has types that say how large it can get. */
module VadSpec {
  import opened FixedPoint

  const BANDS := 4
  const FRAME := 320
  const AFB120 := 7788
  const AFB121 := -29322
  const NL_LIMIT := 0x00FFFFFF
  const SMOOTH := 1024
  const SNR_FACTOR := 45000
  const HP_NEG := 53084
  const HP_B := 59310

  type Pcm = seq<I16>

  function Min(a: int, b: int): int {
    if a < b then a else b
  }

  function Sat16(a: int): I16 {
    if a < -0x8000 then -0x8000 else if a > 0x7FFF then 0x7FFF else a
  }

  // ---- the two-band split ----

  type S27 = x: int | -0x800_0000 < x < 0x800_0000

  /** The states of the two all-pass filters. */
  datatype AllPass = AllPass(s0: S27, s1: S27)

  function Even(s0: int, a: int): int {
    var y := a * 1024 - s0;
    y + y * AFB121 / 0x1_0000
  }

  function Odd(s1: int, b: int): int {
    (b * 1024 - s1) * AFB120 / 0x1_0000
  }

  function Rounded(a: int): int {
    (a / 1024 + 1) / 2
  }

  function Low(s: AllPass, a: int, b: int): I16 {
    Sat16(Rounded(s.s1 + Odd(s.s1, b) + (s.s0 + Even(s.s0, a))))
  }

  function High(s: AllPass, a: int, b: int): I16 {
    Sat16(Rounded(s.s1 + Odd(s.s1, b) - (s.s0 + Even(s.s0, a))))
  }

  /** The all-pass states stay below 2^27, so that they are 32-bit numbers again. */
  lemma EvenBounds(s0: int, a: int)
    requires -0x8000 <= a < 0x8000 && -0x800_0000 < s0 < 0x800_0000
    ensures -0x800_0000 < a * 1024 + Even(s0, a) < 0x800_0000
    ensures -0x1000_0000 < s0 + Even(s0, a) < 0x1000_0000
    ensures -0xC00_0000 < a * 1024 - s0 < 0xC00_0000
  {
  }

  lemma OddBounds(s1: int, b: int)
    requires -0x8000 <= b < 0x8000 && -0x800_0000 < s1 < 0x800_0000
    ensures -0x800_0000 < b * 1024 + Odd(s1, b) < 0x800_0000
    ensures -0x1000_0000 < s1 + Odd(s1, b) < 0x1000_0000
    ensures -0xC00_0000 < b * 1024 - s1 < 0xC00_0000
  {
  }

  function Advance(s: AllPass, a: I16, b: I16): AllPass {
    EvenBounds(s.s0, a);
    OddBounds(s.s1, b);
    AllPass(a * 1024 + Even(s.s0, a), b * 1024 + Odd(s.s1, b))
  }

  /** A constant signal, settled, goes into the low band as it is and leaves the high band silent; one
      that alternates goes into the high band, its sign turned, and leaves the low band silent. */
  lemma Passes(c: I16)
    requires c > -0x8000
    ensures var s := AllPass(1024 * c as int, 1024 * c as int);
            Low(s, c, c) == c && High(s, c, c) == 0 && Advance(s, c, c) == s
    ensures var s := AllPass(1024 * c as int, -1024 * c as int);
            Low(s, c, -c) == 0 && High(s, c, -c) == -c && Advance(s, c, -c) == s
  {
  }

  /** One pair of samples into a settled filter: both bands get the odd sample with 7788 parts in 2^17, the
      low band adds the even one with 36214, the high band takes it off, each rounded to a whole number. */
  lemma FirstPair(a: I16, b: I16)
    ensures var s, l, h: int := AllPass(0, 0), 7788 * b as int + 36214 * a, 7788 * b as int - 36214 * a;
            && -66000 <= l - 0x2_0000 * Low(s, a, b) as int <= 66000
            && -66000 <= h - 0x2_0000 * High(s, a, b) as int <= 66000
  {
  }

  /** The nearest 16-bit number. */
  lemma Sat16Nearest(a: int, b: I16)
    ensures -0x8000 <= a < 0x8000 ==> Sat16(a) == a
    ensures a <= b ==> Sat16(a) <= b
    ensures a >= b ==> Sat16(a) >= b
  {
  }

  /** What the filters make of the first k pairs of samples. */
  datatype Split = Split(state: AllPass, low: Pcm, high: Pcm)

  function SplitNext(p: Split, a: I16, b: I16): Split {
    Split(Advance(p.state, a, b), p.low + [Low(p.state, a, b)], p.high + [High(p.state, a, b)])
  }

  function SplitAt(s: AllPass, x: Pcm, k: nat): (r: Split)
    requires 2 * k <= |x|
    ensures |r.low| == |r.high| == k
  {
    if k == 0 then Split(s, [], [])
    else
      SplitNext(SplitAt(s, x, k - 1), x[2 * k - 2], x[2 * k - 1])
  }

  function Halves(s: AllPass, x: Pcm): (r: Split)
    ensures |r.low| == |r.high| == |x| / 2
  {
    SplitAt(s, x, |x| / 2)
  }

  // ---- the high-pass filter ----

  lemma SplitStep(s: AllPass, x: Pcm, k: nat)
    requires 0 < k && 2 * k <= |x|
    ensures SplitAt(s, x, k) == SplitNext(SplitAt(s, x, k - 1), x[2 * k - 2], x[2 * k - 1])
    ensures SplitAt(s, x, 0) == Split(s, [], [])
  {
    hide SplitNext;
  }

  /** What the pairs of b add to what was split before. */
  function Behind(p: Split, q: Split): Split {
    Split(q.state, p.low + q.low, p.high + q.high)
  }

  lemma BehindNext(p: Split, q: Split, a: I16, b: I16)
    ensures SplitNext(Behind(p, q), a, b) == Behind(p, SplitNext(q, a, b))
  {
    hide Advance, Low, High;
  }

  lemma {:induction false} SplitPrefix(s: AllPass, a: Pcm, b: Pcm, k: nat)
    requires 2 * k <= |a|
    ensures SplitAt(s, a + b, k) == SplitAt(s, a, k)
  {
    hide *;
    if k > 0 {
      SplitPrefix(s, a, b, k - 1);
      SplitStep(s, a, k);
      SplitStep(s, a + b, k);
    } else {
      NoPairs(s, a);
      NoPairs(s, a + b);
    }
  }

  lemma NoPairs(s: AllPass, x: Pcm)
    ensures SplitAt(s, x, 0) == Split(s, [], [])
  {
  }

  lemma {:induction false} SplitLater(s: AllPass, a: Pcm, b: Pcm, h: nat, k: nat)
    requires |a| == 2 * h && 2 * k <= |b|
    ensures SplitAt(s, a + b, h + k) == Behind(SplitAt(s, a, h), SplitAt(SplitAt(s, a, h).state, b, k))
  {
    hide *;
    var p := SplitAt(s, a, h);
    if k == 0 {
      SplitPrefix(s, a, b, h);
      NoPairs(p.state, b);
      BehindNothing(p);
    } else {
      SplitLater(s, a, b, h, k - 1);
      SplitStep(s, a + b, h + k);
      SplitStep(p.state, b, k);
      BehindNext(p, SplitAt(p.state, b, k - 1), b[2 * k - 2], b[2 * k - 1]);
    }
  }

  lemma BehindNothing(p: Split)
    ensures Behind(p, Split(p.state, [], [])) == p
  {
  }

  /** Splitting two signals one after the other is splitting them joined. */
  lemma SplitChunks(s: AllPass, a: Pcm, b: Pcm)
    requires |a| % 2 == 0
    ensures Halves(s, a + b) == Behind(Halves(s, a), Halves(Halves(s, a).state, b))
  {
    hide SplitAt, Behind;
    PairsAdd(|a|, |b|);
    SplitLater(s, a, b, |a| / 2, |b| / 2);
  }

  lemma PairsAdd(m: nat, n: nat)
    requires m % 2 == 0
    ensures (m + n) / 2 == m / 2 + n / 2 && m == 2 * (m / 2) && 2 * (n / 2) <= n
  {
  }

  type S16 = x: int | -0x1_0000 < x < 0x1_0000

  function HpIn(x: I16): int {
    HP_B * x / 0x1_0000
  }

  function HpOut(h: int, x: I16): I16 {
    Sat16(h - HpIn(x))
  }

  function HpNext(h: int, x: I16): S16 {
    HpIn(x) + HP_NEG * HpOut(h, x) / 0x1_0000
  }

  function Filtered(h: S16, x: Pcm): (r: (S16, Pcm))
    ensures |r.1| == |x|
  {
    if x == [] then (h, [])
    else
      var p := Filtered(h, x[..|x| - 1]);
      (HpNext(p.0, x[|x| - 1]), p.1 + [HpOut(p.0, x[|x| - 1])])
  }

  // ---- energies ----

  /** And so is filtering. */
  lemma {:induction false} FilteredChunks(h: S16, a: Pcm, b: Pcm)
    ensures var p, q := Filtered(h, a), Filtered(Filtered(h, a).0, b); Filtered(h, a + b) == (q.0, p.1 + q.1)
  {
    hide *;
    if b == [] {
      assert a + b == a;
      NothingFiltered(Filtered(h, a).0);
      assert Filtered(h, a).1 + [] == Filtered(h, a).1;
    } else {
      var n := |b| - 1;
      assert a + b == a + b[..n] + [b[n]] && b == b[..n] + [b[n]];
      FilteredChunks(h, a, b[..n]);
      FilteredSnoc(h, a + b[..n], b[n]);
      var g := Filtered(h, a).0;
      FilteredSnoc(g, b[..n], b[n]);
      var z := [HpOut(Filtered(g, b[..n]).0, b[n])];
      assert Filtered(h, a).1 + (Filtered(g, b[..n]).1 + z) == Filtered(h, a).1 + Filtered(g, b[..n]).1 + z;
    }
  }

  lemma NothingFiltered(h: S16)
    ensures Filtered(h, []) == (h, [])
  {
  }

  lemma FilteredSnoc(h: S16, x: Pcm, y: I16)
    ensures var p := Filtered(h, x); Filtered(h, x + [y]) == (HpNext(p.0, y), p.1 + [HpOut(p.0, y)])
  {
    hide HpNext, HpOut;
    assert (x + [y])[..|x|] == x;
  }

  /** Settled, the high-pass filter answers a constant with silence. */
  lemma ConstantBlocked(x: I16)
    requires -0x1_0000 < HP_B * x / 0x1_0000 < 0x1_0000
    ensures HpOut(HP_B * x / 0x1_0000, x) == 0 && HpNext(HP_B * x / 0x1_0000, x) == HP_B * x / 0x1_0000
  {
  }

  function Square(x: I16): (r: nat)
    ensures r <= 0x100_0000
  {
    var y := x / 8;
    SquareBound(y);
    y * y
  }

  lemma SquareBound(y: int)
    requires -4096 <= y <= 4096
    ensures 0 <= y * y <= 0x100_0000
  {
    var m := if y < 0 then -y else y;
    Ordered(m, m, 4096);
    Opposite(y);
  }

  lemma Opposite(y: int)
    ensures -y * -y == y * y
  {
  }

  function SumSquares(x: Pcm): (r: nat)
    ensures r <= |x| * 0x100_0000
  {
    if x == [] then 0 else SumSquares(x[..|x| - 1]) + Square(x[|x| - 1])
  }

  lemma SumStep(x: Pcm, i: nat)
    requires i < |x|
    ensures SumSquares(x[..i + 1]) == SumSquares(x[..i]) + Square(x[i])
  {
    assert x[..i + 1][..i] == x[..i];
  }

  lemma SquareIs(x: I16)
    ensures Square(x) == x / 8 * (x / 8) && -4096 <= x / 8 <= 4095
  {
  }

  type Energy = x: int | 0 <= x <= MAX32
  type Rest = x: int | 0 <= x <= 40 * 0x100_0000

  function QuarterStart(n: nat, i: nat): (r: nat)
    requires i <= 4
    ensures r <= n && (i < 4 ==> r + n / 4 <= n)
  {
    var q := n / 4;
    if i == 0 then 0 else if i == 1 then q else if i == 2 then q + q else if i == 3 then q + q + q else q + q + q + q
  }

  function Quarter(x: Pcm, i: nat): (r: Pcm)
    requires i < 4
    ensures |r| == |x| / 4
  {
    x[QuarterStart(|x|, i)..QuarterStart(|x|, i) + |x| / 4]
  }

  function QuarterEnergy(x: Pcm, i: nat): Rest
    requires i < 4 && |x| <= 160
  {
    SumSquares(Quarter(x, i))
  }

  /** The energy of the first n quarters, that of the last one halved. */
  function Weighted(x: Pcm, n: nat): nat
    requires n <= 4 && |x| <= 160
  {
    if n == 0 then 0
    else if n == 4 then Weighted(x, 3) + QuarterEnergy(x, 3) / 2
    else Weighted(x, n - 1) + QuarterEnergy(x, n - 1)
  }

  /** The energy of a band with the last quarter of the frame before, saturated. */
  function BandEnergy(before: Rest, x: Pcm): Energy
    requires |x| <= 160
  {
    Min(MAX32, before + Weighted(x, 4))
  }

  // ---- noise levels ----

  lemma {:induction false} SumSplit(a: Pcm, b: Pcm)
    ensures SumSquares(a + b) == SumSquares(a) + SumSquares(b)
  {
    if b == [] {
      assert a + b == a;
    } else {
      var n := |b| - 1;
      assert (a + b)[..|a + b| - 1] == a + b[..n];
      SumSplit(a, b[..n]);
      hide Square;
    }
  }

  /** The energy is what the frame before left, the squares of the first three quarters, and half those of
      the last, as far as 31 bits hold them. */
  lemma EnergyIs(before: Rest, x: Pcm)
    requires |x| <= 160 && |x| % 4 == 0
    ensures var n, sum := |x| / 4 * 3, before + SumSquares(x[..|x| / 4 * 3]) + SumSquares(x[|x| / 4 * 3..]) / 2;
            BandEnergy(before, x) == if sum < 0x8000_0000 then sum else 0x7FFF_FFFF
  {
    hide *;
    var q := |x| / 4;
    assert |x| == 4 * q;
    SumSplit(x[..q], x[q..2 * q]);
    SumSplit(x[..2 * q], x[2 * q..3 * q]);
    assert x[..q] + x[q..2 * q] == x[..2 * q] && x[..2 * q] + x[2 * q..3 * q] == x[..3 * q];
    assert x[3 * q..4 * q] == x[3 * q..];
    WeightedIs(x, q);
    BandEnergyIs(before, x);
  }

  lemma BandEnergyIs(before: Rest, x: Pcm)
    requires |x| <= 160
    ensures BandEnergy(before, x)
         == if before + Weighted(x, 4) < 0x8000_0000 then before + Weighted(x, 4) else 0x7FFF_FFFF
  {
    hide Weighted;
  }

  lemma WeightedIs(x: Pcm, q: nat)
    requires |x| <= 160 && |x| == 4 * q
    ensures Weighted(x, 4) == SumSquares(x[..q]) + SumSquares(x[q..2 * q]) + SumSquares(x[2 * q..3 * q])
                              + SumSquares(x[3 * q..4 * q]) / 2
  {
    hide *;
    WeightedSteps(x);
    QuarterIs(x, q, 0);
    QuarterIs(x, q, 1);
    QuarterIs(x, q, 2);
    QuarterIs(x, q, 3);
    assert x[0 * q..0 * q + q] == x[..q];
  }

  lemma WeightedSteps(x: Pcm)
    requires |x| <= 160
    ensures Weighted(x, 4)
         == QuarterEnergy(x, 0) + QuarterEnergy(x, 1) + QuarterEnergy(x, 2) + QuarterEnergy(x, 3) / 2
  {
    hide QuarterEnergy;
    assert Weighted(x, 2) == Weighted(x, 1) + QuarterEnergy(x, 1);
    assert Weighted(x, 3) == Weighted(x, 2) + QuarterEnergy(x, 2);
  }

  lemma QuarterIs(x: Pcm, q: nat, i: nat)
    requires |x| <= 160 && |x| == 4 * q && i < 4
    ensures 0 <= i * q && QuarterEnergy(x, i) == SumSquares(x[i * q..i * q + q])
  {
    hide SumSquares;
    assert |x| / 4 == q;
    if i == 0 {} else if i == 1 {} else if i == 2 {} else {}
  }

  type Level = x: int | 1 <= x <= NL_LIMIT witness 1
  type Inverse = x: int | 1 <= x <= MAX32 witness 1
  type Bias = x: int | 1 <= x <= 50 witness 1
  type Coef = x: int | 0 <= x <= 0x7FFF

  /** The level of the noise in a band and its smoothed inverse. */
  datatype Noise = Noise(nl: Level, invNl: Inverse)

  function MinCoef(counter: nat): Coef {
    if counter < 1000 then 0x7FFF / (counter / 16 + 1) else 0
  }

  function Smoothing(nl: int, nrg: int): (r: int)
    requires 1 <= nl && 1 <= nrg <= MAX32
    ensures 0 <= r <= SMOOTH
  {
    if nrg > 8 * nl then SMOOTH / 8
    else if nrg < nl then SMOOTH
    else
      InverseTimes(nrg, nl);
      MAX32 / nrg * nl / 0x1_0000 * (2 * SMOOTH) / 0x1_0000
  }

  lemma InverseTimes(nrg: int, nl: int)
    requires 1 <= nl <= nrg <= MAX32
    ensures 0 <= MAX32 / nrg * nl <= MAX32
    ensures 0 <= MAX32 / nrg * nl / 0x1_0000 <= 0x7FFF
  {
    var q := MAX32 / nrg;
    assert q * nrg <= MAX32 && q >= 0;
    Ordered(q, nl, nrg);
  }

  /** A step of the given weight from one value towards another never leaves the way. */
  lemma Between(from: int, to: int, weight: int)
    requires 0 <= weight <= 0x1_0000
    ensures var r := from + (to - from) * weight / 0x1_0000;
            from <= to ==> from <= r <= to
    ensures var r := from + (to - from) * weight / 0x1_0000;
            to <= from ==> to <= r <= from
  {
    var d := to - from;
    if d >= 0 {
      Ordered(d, weight, 0x1_0000);
    } else {
      Ordered(-d, weight, 0x1_0000);
      assert d * weight == -(-d * weight);
    }
  }

  function Target(nrgIn: Energy, bias: Bias): Inverse {
    InverseRange(Min(MAX32, nrgIn + bias));
    MAX32 / Min(MAX32, nrgIn + bias)
  }

  function CoefOf(nl: Level, minCoef: Coef, nrg: Inverse): Coef {
    var c := Smoothing(nl, nrg);
    if c < minCoef then minCoef else c
  }

  function Smoothed(inv: Inverse, target: Inverse, coef: Coef): Inverse {
    Between(inv, target, coef);
    inv + (target - inv) * coef / 0x1_0000
  }

  function LevelOf(inv: Inverse): Level {
    InverseRange(inv);
    Min(NL_LIMIT, MAX32 / inv)
  }

  /** The coefficient falls from 1024 to an eighth of it as the energy rises from the noise level to eight
      times as much: it is 1024 times their ratio, and short of that by at most ten. */
  lemma SmoothingLaw(nl: Level, nrg: int)
    requires 1 <= nrg <= MAX32
    ensures nrg < nl ==> Smoothing(nl, nrg) == 1024
    ensures nrg > 8 * nl ==> Smoothing(nl, nrg) == 128
    ensures nl <= nrg <= 8 * nl ==> 1024 * nl - 10 * nrg <= Smoothing(nl, nrg) * nrg <= 1024 * nl
  {
    if nl <= nrg <= 8 * nl {
      SmoothingRatio(nl, nrg);
    }
  }

  lemma SmoothingRatio(nl: Level, nrg: int)
    requires 1 <= nl <= nrg <= 8 * nl && nrg <= MAX32
    ensures 1024 * nl - 10 * nrg <= Smoothing(nl, nrg) * nrg <= 1024 * nl
  {
    var inv := MAX32 / nrg;
    InverseAround(nrg);
    SmoothingCuts(nl, nrg);
    hide *;
    RatioBounds(nl, nrg, inv, Smoothing(nl, nrg));
  }

  lemma InverseAround(nrg: int)
    requires 1 <= nrg <= MAX32
    ensures MAX32 / nrg >= 0 && 0x8000_0000 - nrg <= MAX32 / nrg * nrg < 0x8000_0000
  {
  }

  lemma SmoothingCuts(nl: Level, nrg: int)
    requires 1 <= nl <= nrg <= 8 * nl && nrg <= MAX32
    ensures var r, p := Smoothing(nl, nrg), MAX32 / nrg * nl; 0 <= 0x20_0000 * r <= p < 0x20_0000 * (r + 1)
    ensures 1 <= nl < 0x100_0000
  {
    InverseTimes(nrg, nl);
    var p := MAX32 / nrg * nl;
    assert Smoothing(nl, nrg) == p / 0x1_0000 * 2048 / 0x1_0000;
    hide Smoothing;
    TwoCuts(p);
  }

  lemma TwoCuts(p: int)
    requires p >= 0
    ensures var r := p / 0x1_0000 * 2048 / 0x1_0000; 0 <= 0x20_0000 * r <= p < 0x20_0000 * (r + 1)
  {
    var t := p / 0x1_0000;
    assert t * 2048 / 0x1_0000 == t / 32;
  }

  lemma RatioBounds(nl: int, nrg: int, inv: int, r: int)
    requires nrg >= 1 && inv >= 0 && 0x8000_0000 - nrg <= inv * nrg < 0x8000_0000 && 1 <= nl < 0x100_0000
    requires 0 <= 0x20_0000 * r <= inv * nl < 0x20_0000 * (r + 1) && nrg < 0x8000_0000
    ensures 1024 * nl - 10 * nrg <= r * nrg <= 1024 * nl
  {
    Ordered(nrg, 0x20_0000 * r, inv * nl);
    Ordered(nrg, inv * nl, 0x20_0000 * (r + 1));
    Ordered(nl, inv * nrg, 0x8000_0000);
    Ordered(nl, 0x8000_0000 - nrg, inv * nrg);
    Ordered(nrg, nl, 0x100_0000);
    Rearranged(nl, nrg, inv, r);
    Gathered(nl, nrg, nrg * (inv * nl), nl * nrg, r * nrg);
  }

  lemma Rearranged(nl: int, nrg: int, inv: int, r: int)
    ensures nl * (inv * nrg) == nrg * (inv * nl) && nrg * (0x20_0000 * r) == 0x20_0000 * (r * nrg)
    ensures nrg * (0x20_0000 * (r + 1)) == 0x20_0000 * (r * nrg) + 0x20_0000 * nrg
    ensures nl * (0x8000_0000 - nrg) == 0x8000_0000 * nl - nl * nrg && nrg * nl == nl * nrg
  {
  }

  lemma Gathered(nl: int, nrg: int, whole: int, mixed: int, result: int)
    requires 0x20_0000 * result <= whole <= 0x20_0000 * result + 0x20_0000 * nrg
    requires 0x8000_0000 * nl - mixed <= whole <= 0x8000_0000 * nl && mixed <= 0x100_0000 * nrg && nrg >= 1
    ensures 1024 * nl - 10 * nrg <= result <= 1024 * nl
  {
  }

  /** A level and its inverse multiply to the greatest 31-bit number, but for less than the inverse, unless
      the level is at its limit. */
  lemma LevelLaw(inv: Inverse)
    ensures LevelOf(inv) * inv <= MAX32
    ensures LevelOf(inv) == NL_LIMIT || MAX32 < LevelOf(inv) * inv + inv
  {
    var q := MAX32 / inv;
    assert q * inv <= MAX32 < q * inv + inv;
    if NL_LIMIT < q {
      Ordered(inv, NL_LIMIT, q);
    }
  }

  /** The inverse that the smoothed one moves to is that of the energy and the bias. */
  lemma TargetLaw(nrgIn: Energy, bias: Bias)
    ensures var e := if nrgIn + bias < 0x8000_0000 then nrgIn + bias else 0x7FFF_FFFF;
            Target(nrgIn, bias) * e <= MAX32 < Target(nrgIn, bias) * e + e
  {
  }

  function NoiseNext(n: Noise, bias: Bias, minCoef: Coef, nrgIn: Energy): Noise {
    var coef := CoefOf(n.nl, minCoef, Min(MAX32, nrgIn + bias));
    var inv := Smoothed(n.invNl, Target(nrgIn, bias), coef);
    Noise(LevelOf(inv), inv)
  }

  lemma InverseRange(x: int)
    requires 1 <= x <= MAX32
    ensures 1 <= MAX32 / x <= MAX32
  {
    var q := MAX32 / x;
    assert MAX32 == q * x + MAX32 % x;
    if q == 0 {
      assert false;
    } else {
      Ordered(q, 1, x);
    }
  }

  /** The smoothed inverse lies between the one before and that of the energy now. */
  lemma NoiseBetween(n: Noise, bias: Bias, minCoef: Coef, nrgIn: Energy)
    ensures var target := Target(nrgIn, bias);
            var r := NoiseNext(n, bias, minCoef, nrgIn).invNl;
            Min(n.invNl, target) <= r <= if n.invNl < target then target else n.invNl
  {
    Between(n.invNl, Target(nrgIn, bias), CoefOf(n.nl, minCoef, Min(MAX32, nrgIn + bias)));
  }
}
