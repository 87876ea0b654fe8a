/** From the energies of the bands and the noise levels to the speech probability: the
    fixed-point square root and the probability. */
module VadSnr {
  import opened Arithmetic
  import opened FixedPoint
  import opened VadSpec

  // ---- 32-bit operations ----

  /** The sum of two numbers that are not negative, at most the greatest one. */
  function AddPosSat32(a: I32, b: I32): (r: I32)
    ensures a >= 0 && b >= 0 ==> r == Min(MAX32, a + b)
  {
    if (a % 0x1_0000_0000 + b % 0x1_0000_0000) % 0x1_0000_0000 >= 0x8000_0000 then MAX32
    else (a % 0x1_0000_0000 + b % 0x1_0000_0000) % 0x1_0000_0000
  }

  function RshiftRound(a: I32, shift: nat): (r: I32)
    requires 0 < shift < 32
    ensures shift == 11 ==> r == Rounded(a)
  {
    if shift == 1 then Wrap32(a / 2 + a % 2)
    else
      PowValues();
      Wrap32((a / Pow2(shift - 1) + 1) / 2)
  }

  // ---- the square root ----

  function SqrtApprox(x: I32): (r: I32)
    ensures 0 <= r <= 65290 && (x < 0x100_0000 ==> r <= 4080) && (x < 0x10_0000 ==> r <= 1020)
  {
    if x <= 0 then 0
    else
      var lz, f := Clz32(x), Frac7(x);
      var y := (if lz % 2 == 1 then 32768 else 46214) / Pow2(lz / 2);
      HalfScale(x);
      SqrtStep(if lz % 2 == 1 then 32768 else 46214, Pow2(lz / 2));
      SqrtOf(y, f)
  }

  function SqrtOf(y: int, f: nat): (r: I32)
    requires 0 <= y <= 46214 && f <= 127
    ensures 0 <= r <= 65290 && (y <= 2888 ==> r <= 4080) && (y <= 722 ==> r <= 1020)
  {
    var c := 213 * f;
    Ordered(y, c, 27051);
    assert Smlabb(0, 213, f) == c;
    assert 0 <= y * c <= y * 27051;
    Smlawb(y, y, Smlabb(0, 213, f))
  }

  lemma SqrtStep(top: int, p: int)
    requires 0 <= top <= 46214 && p >= 1
    ensures 0 <= top / p <= 46214 && (p >= 16 ==> top / p <= 2888) && (p >= 64 ==> top / p <= 722)
  {
    var y := top / p;
    assert top == y * p + top % p;
    if y > 46214 { Ordered(y, 1, p); }
    if p >= 16 && y > 2888 { Ordered(y, 16, p); }
    if p >= 64 && y > 722 { Ordered(y, 64, p); }
  }

  lemma HalfScale(x: I32)
    requires x > 0
    ensures x < 0x100_0000 ==> Pow2(Clz32(x) / 2) >= 16
    ensures x < 0x10_0000 ==> Pow2(Clz32(x) / 2) >= 64
  {
    PowHigh();
    PowValues();
    hide Pow2;
    if x < 0x100_0000 {
      FewBits(x, 24, 32);
      Pow2Mono(4, Clz32(x) / 2);
    }
    if x < 0x10_0000 {
      FewBits(x, 20, 32);
      Pow2Mono(6, Clz32(x) / 2);
    }
  }

  /** The square of the root is at most a sixteenth above its argument, and that of the root and two at
      most a sixteenth below. */
  lemma SqrtLaw(x: I32)
    requires x > 0
    ensures var r := SqrtApprox(x); 16 * (r * r) <= 17 * x && 15 * x <= 16 * ((r + 2) * (r + 2))
  {
    hide *;
    FracBetween(x);
    var e, f := 31 - Clz32(x), Frac7(x);
    var y, r := RootOf(e), SqrtApprox(x);
    SqrtParts(x);
    RootSquare(e);
    RootUpper(Pow2(e), y, f, x, r);
    if e == 3 {
      Third();
      SmallRoot(x, r);
    } else {
      RootLower(Pow2(e), y, f, x, r);
    }
  }

  /** The root of the power of two 2^e. */
  function RootOf(e: nat): nat
    requires e <= 30
  {
    (if e % 2 == 0 then 32768 else 46214) / Pow2((31 - e) / 2)
  }

  lemma SqrtParts(x: I32)
    requires x > 0 && 0 <= 31 - Clz32(x) <= 30
    ensures var y, f, r := RootOf(31 - Clz32(x)), Frac7(x), SqrtApprox(x);
            f <= 127 && r >= y >= 0 && 0x1_0000 * r <= y * (0x1_0000 + 213 * f) < 0x1_0000 * (r + 1)
  {
    hide *;
    RootSmall(31 - Clz32(x));
    FracSmall(x);
    SqrtIs(x);
    SqrtSum(RootOf(31 - Clz32(x)), Frac7(x));
  }

  lemma RootSmall(e: nat)
    requires e <= 30
    ensures RootOf(e) <= 46214
  {
    hide Pow2;
    SqrtStep(if e % 2 == 0 then 32768 else 46214, Pow2((31 - e) / 2));
  }

  lemma FracSmall(x: I32)
    ensures 0 <= Frac7(x) <= 127
  {
  }

  lemma SqrtIs(x: I32)
    requires x > 0 && 0 <= 31 - Clz32(x) <= 30 && RootOf(31 - Clz32(x)) <= 46214 && Frac7(x) <= 127
    ensures SqrtApprox(x) == SqrtOf(RootOf(31 - Clz32(x)), Frac7(x))
  {
    RootParity(Clz32(x));
    hide Pow2, Clz32, Frac7, SqrtOf;
  }

  lemma RootParity(lz: nat)
    requires lz <= 31
    ensures (31 - lz) % 2 == 0 <==> lz % 2 == 1
  {
  }

  lemma SqrtSum(y: int, f: nat)
    requires 0 <= y <= 46214 && f <= 127
    ensures SqrtOf(y, f) >= y
    ensures 0x1_0000 * SqrtOf(y, f) <= y * (0x1_0000 + 213 * f) < 0x1_0000 * (SqrtOf(y, f) + 1)
  {
    SqrtOfIs(y, f);
    hide *;
    Ordered(y, 0, 213 * f);
    SumOfParts(y, 213 * f);
  }

  lemma SqrtOfIs(y: int, f: nat)
    requires 0 <= y <= 46214 && f <= 127
    ensures SqrtOf(y, f) == y + y * (213 * f) / 0x1_0000
  {
    var c := 213 * f;
    Ordered(y, c, 27051);
    assert Smlabb(0, 213, f) == c;
  }

  lemma SumOfParts(y: int, c: int)
    requires 0 <= y * c
    ensures y * (0x1_0000 + c) == 0x1_0000 * y + y * c && 0 <= y * c / 0x1_0000
  {
  }

  lemma Third()
    ensures Pow2(3) == 8 && Pow2(4) == 16 && RootOf(3) == 2
  {
    PowValues();
    assert Pow2(14) == 16 * Pow2(10);
  }

  lemma SmallRoot(x: int, r: int)
    requires 8 <= x < 16 && r >= 2
    ensures 15 * x <= 16 * ((r + 2) * (r + 2))
  {
    Ordered(r + 2, 4, r + 2);
  }

  /** The root of a power never exceeds it, and is short of it by little. */
  lemma RootSquare(e: nat)
    requires e <= 30
    ensures RootOf(e) * RootOf(e) <= Pow2(e)
    ensures e != 3 ==> 1000 * (RootOf(e) * RootOf(e)) + 1400 * RootOf(e) >= 985 * Pow2(e)
  {
    hide *;
    HalvesOf(e);
    if e % 2 == 0 {
      EvenRoot(e / 2);
    } else {
      OddRoot(e / 2);
    }
  }

  lemma HalvesOf(e: nat)
    ensures 0 <= e / 2 && (e % 2 == 0 ==> e == 2 * (e / 2)) && (e % 2 != 0 ==> e == 2 * (e / 2) + 1)
  {
  }

  lemma EvenRoot(h: nat)
    requires h <= 15
    ensures RootOf(2 * h) == Pow2(h) && RootOf(2 * h) * RootOf(2 * h) == Pow2(2 * h)
  {
    PowMiddle();
    hide *;
    Pow2Sum(15 - h, h);
    Pow2Sum(h, h);
    EvenIs(h);
    WholeQuotient(Pow2(h), Pow2(15 - h));
  }

  lemma EvenIs(h: nat)
    requires h <= 15
    ensures RootOf(2 * h) == 32768 / Pow2(15 - h) && 15 - h + h == 15 && h + h == 2 * h
  {
    assert (31 - 2 * h) / 2 == 15 - h && 2 * h % 2 == 0;
    hide Pow2;
  }

  lemma WholeQuotient(a: nat, b: nat)
    requires b > 0
    ensures b * a / b == a
  {
    var q := b * a / b;
    MultipleMod(a, b);
    assert b * q == b * a;
    if q < a { Ordered(b, q + 1, a); }
    if q > a { Ordered(b, a + 1, q); }
  }

  lemma PowMiddle()
    ensures Pow2(11) == 2048 && Pow2(12) == 4096 && Pow2(13) == 8192 && Pow2(14) == 16384 && Pow2(15) == 32768
    ensures Pow2(17) == 0x2_0000 && Pow2(19) == 0x8_0000 && Pow2(21) == 0x20_0000
  {
    PowValues();
    assert Pow2(13) == 8 * Pow2(10);
    assert Pow2(16) == 8 * Pow2(13);
    assert Pow2(19) == 8 * Pow2(16);
  }

  lemma OddRoot(h: nat)
    requires h <= 14
    ensures var y, p := RootOf(2 * h + 1), Pow2(2 * h + 1);
            y * y <= p && (h != 1 ==> 1000 * (y * y) + 1400 * y >= 985 * p)
  {
    hide *;
    OddIs(h);
    QuotientFits(46214, Pow2(15 - h));
    OddPowers(h);
    OddTable(h, RootOf(2 * h + 1), Pow2(15 - h), Pow2(2 * h + 1));
  }

  lemma QuotientFits(a: nat, q: nat)
    requires q > 0
    ensures 0 <= a / q && q * (a / q) <= a < q * (a / q + 1)
  {
  }

  /** The powers around an odd root. */
  ghost predicate OddCase(h: nat, q: nat, p: nat) {
    || (h == 0 && q == 32768 && p == 2) || (h == 1 && q == 16384 && p == 8) || (h == 2 && q == 8192 && p == 32)
    || (h == 3 && q == 4096 && p == 128) || (h == 4 && q == 2048 && p == 512)
    || (h == 5 && q == 1024 && p == 2048) || (h == 6 && q == 512 && p == 8192)
    || (h == 7 && q == 256 && p == 32768) || (h == 8 && q == 128 && p == 0x2_0000)
    || (h == 9 && q == 64 && p == 0x8_0000) || (h == 10 && q == 32 && p == 0x20_0000)
    || (h == 11 && q == 16 && p == 0x80_0000) || (h == 12 && q == 8 && p == 0x200_0000)
    || (h == 13 && q == 4 && p == 0x800_0000) || (h == 14 && q == 2 && p == 0x2000_0000)
  }

  lemma OddPowers(h: nat)
    requires h <= 14
    ensures OddCase(h, Pow2(15 - h), Pow2(2 * h + 1))
  {
    PowValues();
    PowMiddle();
    PowHigh();
    hide Pow2;
  }

  lemma OddIs(h: nat)
    requires h <= 14
    ensures RootOf(2 * h + 1) == 46214 / Pow2(15 - h)
  {
    hide Pow2;
    OddHalf(h);
  }

  lemma OddHalf(h: nat)
    requires h <= 14
    ensures (31 - (2 * h + 1)) / 2 == 15 - h && (2 * h + 1) % 2 == 1
  {
  }

  lemma OddTable(h: nat, y: nat, q: nat, p: nat)
    requires q * y <= 46214 < q * (y + 1)
    requires OddCase(h, q, p)
    ensures y * y <= p && (h != 1 ==> 1000 * (y * y) + 1400 * y >= 985 * p)
  {
    assert || y == 1 || y == 2 || y == 5 || y == 11 || y == 22 || y == 45 || y == 90 || y == 180 || y == 361 || y == 722
           || y == 1444 || y == 2888 || y == 5776 || y == 11553 || y == 23107;
  }

  lemma Squared(a: int, b: int)
    requires 0 <= a <= b
    ensures a * a <= b * b
  {
    Ordered(a, a, b);
    Ordered(b, a, b);
  }

  lemma Factored(k: int, a: int, b: int, c: int)
    ensures k * a * (k * a) == k * k * (a * a) && b * c * (b * c) == b * b * (c * c)
  {
  }

  lemma RootUpper(p: nat, y: nat, f: nat, x: nat, r: nat)
    requires y * y <= p && p * (128 + f) <= 128 * x && f <= 127 && 0x1_0000 * r <= y * (0x1_0000 + 213 * f)
    ensures 16 * (r * r) <= 17 * x
  {
    var c := 0x1_0000 + 213 * f;
    Squared(0x1_0000 * r, y * c);
    Factored(0x1_0000, r, y, c);
    SquareSign(c);
    UpperCurve(f);
    UpperEnd(p, y * y, c * c, 128 + f, x, r * r);
  }

  lemma UpperEnd(p: nat, w: int, q: nat, g: nat, x: int, rr: int)
    requires 0x1_0000_0000 * rr <= w * q && w <= p && 2048 * q <= 17 * 0x1_0000_0000 * g && p * g <= 128 * x && 0 <= w
    ensures 16 * rr <= 17 * x
  {
    Ordered(q, w, p);
    Ordered(p, 2048 * q, 17 * 0x1_0000_0000 * g);
  }

  lemma UpperCurve(f: nat)
    requires f <= 127
    ensures var c := 0x1_0000 + 213 * f; 2048 * (c * c) <= 17 * 0x1_0000_0000 * (128 + f)
  {
    Ordered(f, f, 127);
    assert (0x1_0000 + 213 * f) * (0x1_0000 + 213 * f) == 0x1_0000_0000 + 0x2_0000 * 213 * f + 213 * 213 * (f * f);
  }

  lemma RootLower(p: nat, y: nat, f: nat, x: nat, r: nat)
    requires 128 * x < p * (129 + f) && f <= 127 && y * (0x1_0000 + 213 * f) < 0x1_0000 * (r + 1)
    requires 1000 * (y * y) + 1400 * y >= 985 * p
    ensures 15 * x <= 16 * ((r + 2) * (r + 2))
  {
    var c := 0x1_0000 + 213 * f;
    ShiftedSquare(y, c, r);
    SquareSign(c);
    LowerCurve(f);
    LowerEnd(p, 1000 * (y * y) + 1400 * y, c * c, 129 + f, x, (r + 2) * (r + 2));
  }

  lemma LowerEnd(p: nat, w: int, q: nat, g: nat, x: int, rr: int)
    requires 1000 * (0x1_0000_0000 * rr) >= w * q && w >= 985 * p && 15000 * 0x1_0000_0000 * g <= 2048 * 985 * q
    requires 128 * x < p * g
    ensures 15 * x <= 16 * rr
  {
    Ordered(q, 985 * p, w);
    Ordered(p, 15000 * 0x1_0000_0000 * g, 2048 * 985 * q);
  }

  lemma ShiftedSquare(y: nat, c: nat, r: nat)
    requires y * c < 0x1_0000 * (r + 1) && 0x1_0000 <= c <= 92587
    ensures 1000 * (0x1_0000_0000 * ((r + 2) * (r + 2))) >= (1000 * (y * y) + 1400 * y) * (c * c)
  {
    Squared(y * c + 0x1_0000, 0x1_0000 * (r + 2));
    Factored(0x1_0000, r + 2, y, c);
    assert (y * c + 0x1_0000) * (y * c + 0x1_0000) >= y * c * (y * c) + 0x2_0000 * (y * c);
    Ordered(y * c, 1400 * c, 1000 * 0x2_0000);
    assert y * c * (1400 * c) == 1400 * y * (c * c);
    assert (1000 * (y * y) + 1400 * y) * (c * c) == 1000 * (y * y * (c * c)) + 1400 * y * (c * c);
  }

  lemma LowerCurve(f: nat)
    requires f <= 127
    ensures var c := 0x1_0000 + 213 * f; 15000 * 0x1_0000_0000 * (129 + f) <= 2048 * 985 * (c * c)
  {
    var g := f - 39;
    SquareSign(g);
    assert g * g == f * f - 78 * f + 1521;
    assert (0x1_0000 + 213 * f) * (0x1_0000 + 213 * f) == 0x1_0000_0000 + 0x2_0000 * 213 * f + 213 * 213 * (f * f);
  }

  // ---- the probability ----

  /** Signal and noise over noise in 256ths. */
  function RatioQ8(nrg: Energy, nl: Level): (r: I32)
    ensures r >= 0
  {
    if nrg < 0x80_0000 then
      QuotientRange(nrg * 256, nl + 1);
      nrg * 256 / (nl + 1)
    else
      QuotientRange(nrg, nl / 256 + 1);
      nrg / (nl / 256 + 1)
  }

  lemma QuotientRange(x: int, d: int)
    requires 0 <= x && 1 <= d
    ensures 0 <= x / d <= x
  {
    var q := x / d;
    assert x == q * d + x % d;
    if q >= 0 { Ordered(q, 1, d); }
  }

  /** The ratio is that of 256 energies to the noise level, within the cut to a whole number and a level of
      at most 255 more. */
  lemma RatioLaw(nrg: Energy, nl: Level)
    ensures RatioQ8(nrg, nl) * (nl + 1) <= 256 * nrg < (RatioQ8(nrg, nl) + 1) * (nl + 256)
  {
    var r: int := RatioQ8(nrg, nl);
    if nrg < 0x80_0000 {
      CutAround(256 * nrg, nl + 1);
      hide RatioQ8;
      Ordered(r + 1, nl + 1, nl + 256);
    } else {
      CutAround(nrg, nl / 256 + 1);
      hide RatioQ8;
      var d := nl / 256 + 1;
      Ordered(r, nl + 1, 256 * d);
      Ordered(r + 1, 256 * d, nl + 256);
      Products256(r, d);
    }
  }

  lemma CutAround(x: int, d: int)
    requires 0 <= x && 1 <= d
    ensures 0 <= x / d && x / d * d <= x < (x / d + 1) * d
  {
  }

  lemma Products256(r: int, d: int)
    ensures r * (256 * d) == 256 * (r * d) && (r + 1) * (256 * d) == 256 * ((r + 1) * d)
  {
  }

  function SnrQ7(nrg: Energy, nl: Level): (r: I32)
    ensures -1152 <= r <= 3082
  {
    Lin2Log(RatioQ8(nrg, nl)) - 1024
  }

  function SnrSquare(nrg: Energy, nl: Level): (r: nat)
    ensures r <= 9_498_724
  {
    if nrg - nl <= 0 then 0
    else
      var s: int := SnrQ7(nrg, nl);
      SnrBound(s);
      s * s
  }

  lemma SnrBound(s: int)
    requires -3082 <= s <= 3082
    ensures 0 <= s * s <= 9_498_724
  {
    var m := if s < 0 then -s else s;
    Ordered(m, m, 3082);
    Opposite(s);
  }

  /** The speech probability in 256ths, from the mean square of the ratios of the bands. */
  function Probability(meanSquare: nat): (r: I32)
    requires meanSquare < 0x100_0000
    ensures 0 <= r <= 255
  {
    SigmQ15(Smulwb(SNR_FACTOR, 3 * SqrtApprox(meanSquare)) - 128) / 128
  }

  /** The root reaches 17 at 296. */
  lemma Root17(x: I32)
    ensures SqrtApprox(x) >= 17 <==> x >= 296
  {
    if 256 <= x < 512 {
      RootAbove256(x);
    } else if x > 0 {
      SqrtLaw(x);
      var r := SqrtApprox(x);
      hide SqrtApprox;
      if r >= 17 {
        Squared(17, r);
      } else {
        Squared(r + 2, 18);
      }
    } else {
      assert SqrtApprox(x) == 0;
    }
  }

  lemma RootAbove256(x: I32)
    requires 256 <= x < 512
    ensures SqrtApprox(x) >= 17 <==> x >= 296
  {
    PowValues();
    PowMiddle();
    LargeFrac(x, 8);
    assert RootOf(8) == 16;
    SqrtIs(x);
    SqrtOfIs(16, Frac7(x));
    hide *;
    assert x / 2 - 128 >= 20 <==> x >= 296;
  }

  /** A probability is above the threshold of a silent frame exactly from a mean square of 296 on. */
  lemma AboveSilence(meanSquare: nat)
    requires meanSquare < 0x100_0000
    ensures Probability(meanSquare) > 12 <==> meanSquare >= 296
  {
    var r := SqrtApprox(meanSquare);
    Root17(meanSquare);
    PointOf(r);
    PointOf(16);
    PointOf(17);
    assert SigmQ15(-96) / 128 == 12 && SigmQ15(-93) / 128 == 13;
    hide SqrtApprox, SigmQ15, Smulwb;
    if r <= 16 {
      SigmMonotone(45000 * (3 * r) / 0x1_0000 - 128, -96);
    } else {
      SigmMonotone(-93, 45000 * (3 * r) / 0x1_0000 - 128);
    }
  }

  lemma PointOf(r: int)
    requires 0 <= r <= 4080
    ensures Smulwb(SNR_FACTOR, 3 * r) == 45000 * (3 * r) / 0x1_0000
    ensures 0 <= 45000 * (3 * r) / 0x1_0000 <= 8405
  {
  }

  lemma PointRange(p: int)
    requires 0 <= p <= 12240
    ensures 0 <= Smulwb(SNR_FACTOR, p) <= 8405 && Wrap16(p) == p
  {
  }
}
