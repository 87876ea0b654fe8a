/** The filters and the energies of the voice activity detector, on arrays of samples.  Sums
    outside the saturating operations have the 32-bit type, so that none can wrap around. */
module VadFilters {
  import opened FixedPoint
  import opened VadSpec
  import opened VadSnr

  /** One pair of samples through the two all-pass filters. */
  method BankPair(s: AllPass, a: I16, b: I16) returns (t: AllPass, lo: I16, hi: I16)
    ensures t == Advance(s, a, b) && lo == Low(s, a, b) && hi == High(s, a, b)
  {
    EvenBounds(s.s0, a);
    OddBounds(s.s1, b);
    var in32: I32 := a * 1024;
    var y: I32 := in32 - s.s0;
    var x := Smlawb(y, y, AFB121);
    var out1: I32 := s.s0 + x;
    var s0: I32 := in32 + x;
    in32 := b * 1024;
    y := in32 - s.s1;
    x := Smulwb(y, AFB120);
    var out2: I32 := s.s1 + x;
    var s1: I32 := in32 + x;
    t := AllPass(s0, s1);
    var sum: I32, diff: I32 := out2 + out1, out2 - out1;
    lo := Sat16(RshiftRound(sum, 11));
    hi := Sat16(RshiftRound(diff, 11));
  }

  lemma SplitStep(s: AllPass, x: Pcm, k: nat)
    requires 2 * k + 2 <= |x|
    ensures SplitAt(s, x, k + 1) == SplitNext(SplitAt(s, x, k), x[2 * k], x[2 * k + 1])
  {
    hide SplitNext;
  }

  /** The bands of a split are in the array, the low one in front and the high one from hiOff on. */
  ghost predicate Holds(x: array<I16>, hiOff: nat, p: Split)
    reads x
  {
    && |p.low| == |p.high| <= hiOff && hiOff + |p.high| <= x.Length
    && (forall j :: 0 <= j < |p.low| ==> x[j] == p.low[j])
    && forall j :: 0 <= j < |p.high| ==> x[hiOff + j] == p.high[j]
  }

  lemma HoldsAll(x: array<I16>, hiOff: nat, p: Split)
    requires Holds(x, hiOff, p)
    ensures x[..|p.low|] == p.low && x[hiOff..hiOff + |p.high|] == p.high
  {
  }

  lemma HoldsNothing(x: array<I16>, hiOff: nat, s: AllPass)
    requires hiOff <= x.Length
    ensures Holds(x, hiOff, Split(s, [], []))
  {
  }

  /** One more pair of samples, behind those split so far. */
  method SplitPair(x: array<I16>, k: nat, hiOff: nat, ghost p: Split, t: AllPass, a: I16, b: I16) returns (u: AllPass)
    requires Holds(x, hiOff, p) && |p.low| == k < hiOff && hiOff + k < x.Length && t == p.state
    modifies x
    ensures Holds(x, hiOff, SplitNext(p, a, b)) && u == SplitNext(p, a, b).state
    ensures forall j :: k < j < hiOff ==> x[j] == old(x[j])
    ensures forall j :: hiOff + k < j < x.Length ==> x[j] == old(x[j])
  {
    hide Low, High, Advance;
    var lo, hi;
    u, lo, hi := BankPair(t, a, b);
    x[hiOff + k] := hi;
    x[k] := lo;
  }

  lemma SplitStart(s: AllPass, x: Pcm)
    ensures SplitAt(s, x, 0) == Split(s, [], [])
  {
  }

  /** Splits a signal, the low band to the front of x and the high band from hiOff on. */
  method AnaFiltBank1(inp: Pcm, s: AllPass, x: array<I16>, hiOff: nat, n: nat) returns (t: AllPass)
    requires n == |inp| && n / 2 <= hiOff && hiOff + n / 2 <= x.Length
    modifies x
    ensures Split(t, x[..n / 2], x[hiOff..hiOff + n / 2]) == Halves(s, inp)
  {
    var n2 := n / 2;
    t := SplitAll(inp, s, x, hiOff, n2);
    HoldsAll(x, hiOff, SplitAt(s, inp, n2));
  }

  method SplitAll(inp: Pcm, s: AllPass, x: array<I16>, hiOff: nat, n2: nat) returns (t: AllPass)
    requires 2 * n2 <= |inp| && n2 <= hiOff && hiOff + n2 <= x.Length
    modifies x
    ensures t == SplitAt(s, inp, n2).state && Holds(x, hiOff, SplitAt(s, inp, n2))
  {
    t := s;
    SplitStart(s, inp);
    HoldsNothing(x, hiOff, s);
    hide *;
    for k := 0 to n2
      invariant t == SplitAt(s, inp, k).state && Holds(x, hiOff, SplitAt(s, inp, k))
    {
      SplitStep(s, inp, k);
      t := SplitPair(x, k, hiOff, SplitAt(s, inp, k), t, inp[2 * k], inp[2 * k + 1]);
    }
  }

  /** In place: the low band goes over the front of the input, the high band behind it. */
  method AnaFiltBank1Inplace(x: array<I16>, hiOff: nat, s: AllPass, n: nat) returns (t: AllPass)
    requires n <= hiOff && hiOff + n / 2 <= x.Length
    modifies x
    ensures Split(t, x[..n / 2], x[hiOff..hiOff + n / 2]) == Halves(s, old(x[..n]))
    ensures forall j :: n <= j < hiOff || hiOff + n / 2 <= j < x.Length ==> x[j] == old(x[j])
  {
    var n2 := n / 2;
    ghost var w: Pcm := x[..n];
    t := SplitInplace(x, hiOff, s, n2, w);
    HoldsAll(x, hiOff, SplitAt(s, w, n2));
  }

  method SplitInplace(x: array<I16>, hiOff: nat, s: AllPass, n2: nat, ghost w: Pcm) returns (t: AllPass)
    requires 2 * n2 <= |w| <= hiOff && hiOff + n2 <= x.Length && w == x[..|w|]
    modifies x
    ensures t == SplitAt(s, w, n2).state && Holds(x, hiOff, SplitAt(s, w, n2))
    ensures forall j :: 2 * n2 <= j < hiOff || hiOff + n2 <= j < x.Length ==> x[j] == old(x[j])
  {
    t := s;
    SplitStart(s, w);
    HoldsNothing(x, hiOff, s);
    ghost var was := x[..];
    assert forall j :: 0 <= j < |w| ==> w[j] == was[j];
    hide *;
    for k := 0 to n2
      invariant t == SplitAt(s, w, k).state && Holds(x, hiOff, SplitAt(s, w, k))
      invariant forall j :: 2 * k <= j < hiOff ==> x[j] == was[j]
      invariant forall j :: hiOff + n2 <= j < x.Length ==> x[j] == was[j]
    {
      SplitStep(s, w, k);
      assert x[2 * k] == w[2 * k] && x[2 * k + 1] == w[2 * k + 1];
      t := SplitPair(x, k, hiOff, SplitAt(s, w, k), t, x[2 * k], x[2 * k + 1]);
    }
  }

  /** One sample through the high-pass filter. */
  method HpStep(h: S16, bQ16: I32, aNegQ16: I32, x: I16) returns (next: S16, outval: I16)
    requires bQ16 == HP_B && aNegQ16 == HP_NEG
    ensures next == HpNext(h, x) && outval == HpOut(h, x)
  {
    var inval := Smulwb(bQ16, x);
    var diff: I32 := h - inval;
    outval := Sat16(diff);
    next := Smlawb(inval, aNegQ16, outval);
  }

  lemma FilteredSnoc(h: S16, v: Pcm, a: I16)
    ensures Filtered(h, []) == (h, [])
    ensures var p := Filtered(h, v); Filtered(h, v + [a]) == (HpNext(p.0, a), p.1 + [HpOut(p.0, a)])
  {
    assert (v + [a])[..|v|] == v;
  }

  method FiltHp(x: array<I16>, hpState: S16, bQ16: I32, aNegQ16: I32, length: nat) returns (after: S16)
    requires length <= x.Length && bQ16 == HP_B && aNegQ16 == HP_NEG
    modifies x
    ensures (after, x[..length]) == Filtered(hpState, old(x[..length]))
    ensures forall j :: length <= j < x.Length ==> x[j] == old(x[j])
  {
    ghost var w: Pcm := x[..length];
    after := hpState;
    hide Filtered, HpNext, HpOut;
    FilteredSnoc(hpState, [], 0);
    assert x[..0] == [] && w[..0] == [];
    for i := 0 to length
      invariant (after, x[..i]) == Filtered(hpState, w[..i])
      invariant forall j :: i <= j < length ==> x[j] == w[j]
      invariant forall j :: length <= j < x.Length ==> x[j] == old(x[j])
    {
      ghost var done := x[..i];
      FilteredSnoc(hpState, w[..i], w[i]);
      var outval;
      after, outval := HpStep(after, bQ16, aNegQ16, x[i]);
      x[i] := outval;
      assert x[..i + 1] == done + [outval] && w[..i + 1] == w[..i] + [w[i]];
    }
    assert w[..length] == w;
  }

  method SubframeEnergy(x: array<I16>, at: nat, n: nat) returns (sumSquared: I32)
    requires at + n <= x.Length && n <= 40
    ensures sumSquared == SumSquares(x[at..at + n])
  {
    ghost var q: Pcm := x[at..at + n];
    sumSquared := 0;
    for i := 0 to n
      invariant sumSquared == SumSquares(q[..i])
    {
      SumStep(q, i);
      SquareIs(q[i]);
      assert x[at + i] == q[i];
      hide SumSquares, Square;
      var xTmp := x[at + i] / 8;
      sumSquared := Smlabb(sumSquared, xTmp, xTmp);
    }
    assert q[..n] == q;
  }

  lemma WeightedStep(x: Pcm, n: nat)
    requires n < 4 && |x| <= 160
    ensures Weighted(x, n + 1) == Weighted(x, n) + if n == 3 then QuarterEnergy(x, 3) / 2 else QuarterEnergy(x, n)
    ensures Weighted(x, 0) == 0
  {
  }

  /** The first n subframes have been added up. */
  ghost predicate Added(before: Rest, w: Pcm, n: nat, offset: nat, xnrg: int, sumSquared: int) {
    && n <= 4 && |w| <= 160 && offset == QuarterStart(|w|, n) && xnrg == Min(MAX32, before + Weighted(w, n))
    && (n == 4 ==> sumSquared == QuarterEnergy(w, 3))
  }

  lemma AddedNone(before: Rest, w: Pcm)
    requires |w| <= 160
    ensures Added(before, w, 0, 0, before, 0)
  {
    WeightedStep(w, 0);
    Saturated(before, 0);
  }

  lemma AddedAll(before: Rest, w: Pcm, offset: nat, xnrg: int, sumSquared: int)
    requires Added(before, w, 4, offset, xnrg, sumSquared)
    ensures xnrg == BandEnergy(before, w) && sumSquared == QuarterEnergy(w, 3)
  {
  }

  /** The energy of a band of four subframes, and of the last of them. */
  method EnergyOfBand(x: array<I16>, off: nat, decSubfrLen: nat, before: Rest) returns (xnrg: I32, sumSquared: I32)
    requires off + 4 * decSubfrLen <= x.Length && decSubfrLen <= 40
    ensures var w := x[off..off + 4 * decSubfrLen];
            xnrg == BandEnergy(before, w) && sumSquared == QuarterEnergy(w, 3)
  {
    ghost var w: Pcm := x[off..off + 4 * decSubfrLen];
    var decSubfrOffset := 0;
    xnrg := before;
    sumSquared := 0;
    AddedNone(before, w);
    hide *;
    for sub := 0 to 4
      invariant Added(before, w, sub, decSubfrOffset, xnrg, sumSquared)
    {
      decSubfrOffset, xnrg, sumSquared := AddQuarter(x, off, decSubfrOffset, decSubfrLen, sub, xnrg, sumSquared,
          before, w);
    }
    AddedAll(before, w, decSubfrOffset, xnrg, sumSquared);
  }

  method AddQuarter(x: array<I16>, off: nat, decSubfrOffset: nat, decSubfrLen: nat, sub: nat, xnrg: I32,
                    ghost rest: I32, ghost before: Rest, ghost w: Pcm)
      returns (offset: nat, sum: I32, sumSquared: I32)
    requires sub < 4 && off + 4 * decSubfrLen <= x.Length && decSubfrLen <= 40
    requires w == x[off..off + 4 * decSubfrLen] && Added(before, w, sub, decSubfrOffset, xnrg, rest)
    ensures Added(before, w, sub + 1, offset, sum, sumSquared)
  {
    OffsetOf(before, w, sub, decSubfrOffset, xnrg, rest);
    QuarterAt(x[..], off, decSubfrLen, sub, w);
    AddedStep(before, w, sub, decSubfrOffset, xnrg, rest);
    hide *;
    sumSquared := SubframeEnergy(x, off + decSubfrOffset, decSubfrLen);
    if sub < 3 {
      sum := AddPosSat32(xnrg, sumSquared);
    } else {
      sum := AddPosSat32(xnrg, sumSquared / 2);
    }
    offset := decSubfrOffset + decSubfrLen;
  }

  lemma OffsetOf(before: Rest, w: Pcm, n: nat, offset: nat, xnrg: int, rest: int)
    requires Added(before, w, n, offset, xnrg, rest)
    ensures offset == QuarterStart(|w|, n) && 0 <= xnrg <= MAX32
  {
    Saturated(before + Weighted(w, n), 0);
  }

  lemma AddedStep(before: Rest, w: Pcm, n: nat, offset: nat, xnrg: int, rest: int)
    requires n < 4 && Added(before, w, n, offset, xnrg, rest)
    ensures var e := QuarterEnergy(w, n);
            Added(before, w, n + 1, QuarterStart(|w|, n + 1), Min(MAX32, xnrg + if n < 3 then e else e / 2), e)
  {
    var e := QuarterEnergy(w, n);
    WeightedStep(w, n);
    Saturated(before + Weighted(w, n), e);
    Saturated(before + Weighted(w, n), e / 2);
    hide Weighted, QuarterEnergy, QuarterStart, Min;
  }

  lemma Saturated(a: nat, b: nat)
    ensures Min(MAX32, Min(MAX32, a) + b) == Min(MAX32, a + b) && 0 <= Min(MAX32, a) <= MAX32
    ensures a <= MAX32 ==> Min(MAX32, a) == a
  {
  }

  lemma QuarterAt(x: Pcm, off: nat, len: nat, i: nat, w: Pcm)
    requires off + 4 * len <= |x| && len <= 40 && i < 4 && w == x[off..off + 4 * len]
    ensures var at := off + QuarterStart(|w|, i);
            at + len <= |x| && QuarterEnergy(w, i) == SumSquares(x[at..at + len])
    ensures QuarterStart(|w|, i + 1) == QuarterStart(|w|, i) + len
  {
    assert |w| / 4 == len;
    var at := QuarterStart(|w|, i);
    assert QuarterEnergy(w, i) == SumSquares(w[at..at + len]);
    SliceOfSlice(x, off, off + 4 * len, at, at + len);
  }

  lemma SliceOfSlice<T>(x: seq<T>, a: nat, b: nat, c: nat, d: nat)
    requires a <= b <= |x| && c <= d <= b - a
    ensures x[a..b][c..d] == x[a + c..a + d]
  {
    var y, z := x[a..b][c..d], x[a + c..a + d];
    assert |y| == |z|;
    forall i | 0 <= i < d - c ensures y[i] == z[i] {
      assert y[i] == x[a..b][c + i];
    }
  }
}
