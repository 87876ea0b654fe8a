/** The fixed-point operations of the codec's integer code: 32-bit products, logarithm to base two
    and its inverse, sigmoid. */
module FixedPoint {
  import opened Arithmetic

  const MAX32 := 0x7FFFFFFF

  type I32 = x: int | -0x8000_0000 <= x < 0x8000_0000
  type I16 = x: int | -0x8000 <= x < 0x8000

  // ---- 32-bit operations ----

  predicate In32(x: int) {
    -0x8000_0000 <= x < 0x8000_0000
  }

  /** What is left of a number in 32 bits. */
  function Wrap32(x: int): (r: I32)
    ensures In32(x) ==> r == x
  {
    (x + 0x8000_0000) % 0x1_0000_0000 - 0x8000_0000
  }

  function Wrap16(x: int): (r: I16)
    ensures -0x8000 <= x < 0x8000 ==> r == x
  {
    (x + 0x8000) % 0x1_0000 - 0x8000
  }

  function Smulwb(a: I32, b: I32): I32 {
    Wrap32(a * Wrap16(b) / 0x1_0000)
  }

  function Smlawb(a: I32, b: I32, c: I32): I32 {
    Wrap32(a + b * Wrap16(c) / 0x1_0000)
  }

  function Smulww(a: I32, b: I32): I32 {
    Wrap32(a * b / 0x1_0000)
  }

  function Smlabb(a: I32, b: I32, c: I32): I32 {
    Wrap32(a + Wrap16(b) * Wrap16(c))
  }

  lemma Ordered(q: int, a: int, b: int)
    requires q >= 0 && 0 <= a <= b
    ensures 0 <= q * a <= q * b
  {
  }

  // ---- logarithm ----

  /** The digits of x in base two, up to n of them. */
  function BitLength(x: nat, n: nat): (r: nat)
    ensures r <= n && (r == 0 <==> x == 0 || n == 0)
  {
    if x == 0 || n == 0 then 0 else 1 + BitLength(x / 2, n - 1)
  }

  lemma {:induction false} FewBits(x: nat, k: nat, n: nat)
    requires x < Pow2(k)
    ensures BitLength(x, n) <= k
  {
    if x > 0 && n > 0 {
      FewBits(x / 2, k - 1, n - 1);
    }
  }

  function Clz32(x: I32): (r: nat)
    ensures r <= 32 && (x > 0 ==> 1 <= r <= 31)
  {
    if x < 0 then 0
    else
      LessThan31(x);
      32 - BitLength(x, 32)
  }

  lemma LessThan31(x: nat)
    requires x < 0x8000_0000
    ensures BitLength(x, 32) <= 31
  {
    PowHigh();
    FewBits(x, 31, 32);
  }

  /** Rotation to the right by the given number of places, modulo 32. */
  function Ror32(x: I32, rot: int): int {
    var u := x % 0x1_0000_0000;
    var k := rot % 32;
    u / Pow2(k) + u % Pow2(k) * Pow2(32 - k)
  }

  /** The seven bits below the leading one. */
  function Frac7(x: I32): (r: nat)
    ensures r <= 127
  {
    Ror32(x, 24 - Clz32(x)) % 0x80
  }

  /** About 128 times the logarithm to base two, of anything not negative. */
  function Lin2Log(x: I32): (r: I32)
    requires x >= 0
    ensures -128 <= r <= 4106
  {
    LogOf(Frac7(x), 31 - Clz32(x))
  }

  function LogOf(f: nat, e: int): (r: I32)
    requires f <= 127 && -1 <= e <= 31
    ensures -128 <= r <= 4106
  {
    FracProduct(f);
    var p := f * (128 - f);
    ShiftedSmall(p, 179);
    Wrap32(Smlawb(f, p, 179) + e * 128)
  }

  lemma ShiftedSmall(p: int, c: int)
    requires 0 <= p <= 4096 && 0 <= c < 0x8000
    ensures 0 <= p * c <= 4096 * 0x8000 && 0 <= p * c / 0x1_0000 <= 2048 && (c == 179 ==> p * c / 0x1_0000 <= 11)
  {
    Ordered(c, p, 4096);
  }

  lemma FracProduct(f: nat)
    requires f <= 127
    ensures 0 <= f * (128 - f) <= 4096
  {
    var g := f - 64;
    assert f * (128 - f) == 4096 - g * g by { Squares(g); }
    SquareSign(g);
    Ordered(f, 0, 128 - f);
  }

  lemma Squares(g: int)
    ensures (g + 64) * (64 - g) == 4096 - g * g
  {
  }

  lemma SquareSign(g: int)
    ensures g * g >= 0
  {
  }

  /** Of a number below 256 the seven bits are the number scaled up to 128 and more. */
  lemma SmallFrac(x: I32, e: nat)
    requires e <= 7 && Pow2(e) <= x < Pow2(e + 1)
    ensures Clz32(x) == 31 - e && Frac7(x) == x * Pow2(7 - e) - 128
  {
    hide Pow2, Ror32, BitLength;
    BitsAre(x, e, 32);
    RotatedUp(x, e);
    ScaledUp(x, e);
  }

  lemma ScaledUp(x: nat, e: nat)
    requires e <= 7 && Pow2(e) <= x < Pow2(e + 1)
    ensures x * Pow2(7 - e) % 128 == x * Pow2(7 - e) - 128
  {
    PowValues();
    hide Pow2;
    assert e == 0 || e == 1 || e == 2 || e == 3 || e == 4 || e == 5 || e == 6 || e == 7;
  }

  lemma RotatedUp(x: I32, e: nat)
    requires e <= 7 && 0 < x < Pow2(e + 1)
    ensures Ror32(x, e - 7) == x * Pow2(7 - e)
  {
    hide *;
    Turn(e);
    if e == 7 {
      NotRotated(x);
    } else {
      Pow2Mono(e + 1, 25 + e);
      ComesAround(x, e - 7, 25 + e);
    }
  }

  /** A number below the place where the rotation cuts comes around whole. */
  lemma ComesAround(x: I32, rot: int, k: nat)
    requires 0 < x < Pow2(k) && rot % 32 == k && k < 32
    ensures Ror32(x, rot) == x * Pow2(32 - k)
  {
    hide Pow2;
    RestWithin(x, Pow2(k));
  }

  lemma NotRotated(x: I32)
    requires x > 0
    ensures Ror32(x, 7 - 7) == x && Pow2(7 - 7) == 1
  {
    assert Pow2(0) == 1;
    hide Pow2;
    WithinOne(x);
  }

  lemma Turn(e: nat)
    requires e <= 7
    ensures (e - 7) % 32 == if e == 7 then 0 else 25 + e
  {
  }

  lemma WithinOne(x: nat)
    ensures x / 1 == x && x % 1 == 0
  {
  }

  lemma RestWithin(x: nat, p: nat)
    requires x < p
    ensures x / p == 0 && x % p == x
  {
  }

  lemma {:induction false} BitsAre(x: nat, e: nat, n: nat)
    requires Pow2(e) <= x < Pow2(e + 1) && e < n
    ensures BitLength(x, n) == e + 1
  {
    if e > 0 {
      assert Pow2(e + 1) == 2 * Pow2(e);
      BitsAre(x / 2, e - 1, n - 1);
    }
  }

  /** Of a larger number they are the seven bits below its leading one. */
  lemma LargeFrac(x: I32, e: nat)
    requires 7 <= e <= 30 && Pow2(e) <= x < Pow2(e + 1)
    ensures Clz32(x) == 31 - e && Frac7(x) == x / Pow2(e - 7) - 128
  {
    hide *;
    BitsAre(x, e, 32);
    ClzIs(x);
    RotatedDown(x, e - 7);
    TopEight(x, e);
    FracIs(x, e);
  }

  lemma ClzIs(x: I32)
    requires x > 0
    ensures Clz32(x) == 32 - BitLength(x, 32)
  {
  }

  lemma FracIs(x: I32, e: nat)
    requires Clz32(x) == 31 - e
    ensures Frac7(x) == Ror32(x, e - 7) % 0x80
  {
  }

  lemma TopEight(x: nat, e: nat)
    requires 7 <= e <= 30 && Pow2(e) <= x < Pow2(e + 1)
    ensures 128 <= x / Pow2(e - 7) < 256
  {
    var p := Pow2(e - 7);
    Pow2Sum(e - 7, 7);
    Pow2Sum(e - 7, 8);
    PowValues();
    hide Pow2;
    QuotientIn(x, p, 128, 256);
  }

  lemma QuotientIn(x: nat, p: nat, lo: nat, hi: nat)
    requires p > 0 && p * lo <= x < p * hi
    ensures lo <= x / p < hi
  {
    var q := x / p;
    assert q * p <= x < (q + 1) * p;
    if q < lo { Ordered(p, q + 1, lo); }
    if q >= hi { Ordered(p, hi, q); }
  }

  lemma {:induction false} Pow2Sum(a: nat, b: nat)
    ensures Pow2(a + b) == Pow2(a) * Pow2(b)
  {
    if b > 0 {
      Pow2Sum(a, b - 1);
      assert Pow2(a + b) == 2 * Pow2(a + b - 1);
      DoubledFactor(2 * Pow2(b - 1), Pow2(b - 1), Pow2(a));
    }
  }

  lemma {:induction false} BitsBracket(x: nat, n: nat)
    requires 0 < x < Pow2(n)
    ensures BitLength(x, n) >= 1 && Pow2(BitLength(x, n) - 1) <= x < Pow2(BitLength(x, n))
  {
    if x > 1 {
      BitsBracket(x / 2, n - 1);
    } else {
      assert BitLength(0, n - 1) == 0 && Pow2(1) == 2 && Pow2(0) == 1;
    }
  }

  /** The leading power of two, and the seven bits below it: x is between the two multiples of a 128th of
      that power that they name. */
  lemma FracBetween(x: I32)
    requires x > 0
    ensures var e, f := 31 - Clz32(x), Frac7(x);
            && 0 <= e <= 30 && Pow2(e) <= x < Pow2(e + 1)
            && Pow2(e) * (128 + f) <= 128 * x < Pow2(e) * (129 + f)
  {
    hide *;
    Within32(x);
    BitsBracket(x, 32);
    ClzIs(x);
    var e := 31 - Clz32(x);
    if e <= 7 {
      SmallFrac(x, e);
      Pow2Sum(e, 7 - e);
      Seventh();
      ScaledBetween(x, Pow2(e), Pow2(7 - e));
    } else {
      LargeFrac(x, e);
      Pow2Sum(e - 7, 7);
      Seventh();
      DividedBetween(x, Pow2(e - 7));
    }
  }

  lemma Within32(x: I32)
    requires x > 0
    ensures x < Pow2(32) && BitLength(x, 32) <= 31
  {
    PowHigh();
    assert Pow2(32) == 2 * Pow2(31);
    LessThan31(x);
  }

  /** The logarithm is the exponent and the seven bits below it, exactly at a power of two and at most
      eleven 128ths above it elsewhere. */
  lemma LogLaw(x: I32)
    requires x > 0
    ensures var e, f := 31 - Clz32(x), Frac7(x);
            128 * e + f <= Lin2Log(x) <= 128 * e + f + 11 && (f == 0 ==> Lin2Log(x) == 128 * e)
  {
    hide Clz32, Frac7, LogOf;
    LogOfNear(Frac7(x), 31 - Clz32(x));
  }

  lemma LogOfNear(f: nat, e: nat)
    requires f <= 127 && e <= 31
    ensures 128 * e + f <= LogOf(f, e) <= 128 * e + f + 11 && (f == 0 ==> LogOf(f, e) == 128 * e)
  {
    FracProduct(f);
    ShiftedSmall(f * (128 - f), 179);
  }

  /** Both never fall. */
  lemma LogMonotone(x: I32, y: I32)
    requires 0 < x <= y
    ensures Lin2Log(x) <= Lin2Log(y)
  {
    hide *;
    FracBetween(x);
    FracBetween(y);
    LogIs(x);
    LogIs(y);
    var d, e, f, g := 31 - Clz32(x), 31 - Clz32(y), Frac7(x), Frac7(y);
    if e < d {
      Pow2Mono(e + 1, d);
    } else if d < e {
      LogOfRises(f, 127, d);
      LogOfTop(d, g, e);
    } else {
      if g < f {
        Ordered(Pow2(d), 129 + g, 128 + f);
      }
      LogOfRises(f, g, d);
    }
  }

  lemma LogIs(x: I32)
    requires x > 0
    ensures 0 <= Frac7(x) <= 127 && 0 <= 31 - Clz32(x) <= 30 && Lin2Log(x) == LogOf(Frac7(x), 31 - Clz32(x))
  {
    hide LogOf, Frac7, Clz32;
  }

  lemma LogOfTop(d: nat, g: nat, e: nat)
    requires d < e <= 31 && g <= 127
    ensures LogOf(127, d) <= LogOf(g, e)
  {
    LogOfNear(g, e);
    assert LogOf(127, d) == 128 * d + 127;
    hide LogOf;
  }

  lemma {:induction false} LogOfRises(f: nat, g: nat, e: nat)
    requires f <= g <= 127 && e <= 31
    ensures LogOf(f, e) <= LogOf(g, e)
  {
    if f < g {
      LogOfRises(f, g - 1, e);
      LogOfStep(g - 1, e);
    }
  }

  lemma LogOfStep(f: nat, e: nat)
    requires f <= 126 && e <= 31
    ensures LogOf(f, e) <= LogOf(f + 1, e)
  {
    FracProduct(f);
    FracProduct(f + 1);
    var p, q := f * (128 - f), (f + 1) * (127 - f);
    assert q == p + 127 - 2 * f;
    ShiftedSmall(p, 179);
    ShiftedSmall(q, 179);
  }

  lemma AntilogMonotone(x: I32, y: I32)
    requires x <= y
    ensures Log2Lin(x) <= Log2Lin(y)
  {
    if x >= 0 && y < 3967 {
      AntilogRises(x, y);
    } else {
      assert Log2Lin(x) == 0 || Log2Lin(y) == MAX32;
      hide Log2Lin;
    }
  }

  lemma AntilogRises(x: I32, y: I32)
    requires 0 <= x <= y < 3967
    ensures Log2Lin(x) <= Log2Lin(y)
  {
    hide *;
    AntilogIn(x);
    AntilogIn(y);
    Rests(x, y);
    if x / 128 < y / 128 {
      Pow2Mono(x / 128 + 1, y / 128);
    } else {
      InnerRises(x % 128, y % 128);
      SameOctave(x, y);
    }
  }

  lemma Rests(x: int, y: int)
    requires 0 <= x <= y
    ensures 0 <= x / 128 <= y / 128 && 0 <= x % 128 <= 127 && 0 <= y % 128 <= 127
    ensures x / 128 == y / 128 ==> x % 128 <= y % 128 && (x < 2048 <==> y < 2048)
  {
  }

  lemma AntilogIn(x: I32)
    requires 0 <= x < 3967
    ensures 0 <= x / 128 <= 30 && Pow2(x / 128) <= Log2Lin(x) < Pow2(x / 128 + 1)
  {
    hide Smlawb, Smulbb;
    Inner(x % 128);
    AntilogFits(x / 128, Smlawb(x % 128, Smulbb(x % 128, 128 - x % 128), -174));
    AntilogIs(x);
    assert Pow2(x / 128 + 1) == 2 * Pow2(x / 128);
    hide Pow2, Log2Lin;
  }

  lemma {:induction false} InnerRises(f: nat, g: nat)
    requires f <= g <= 127
    ensures Smlawb(f, Smulbb(f, 128 - f), -174) <= Smlawb(g, Smulbb(g, 128 - g), -174)
  {
    if f < g {
      InnerRises(f, g - 1);
      InnerStep(g - 1);
    }
  }

  lemma InnerStep(f: nat)
    requires f <= 126
    ensures Smlawb(f, Smulbb(f, 128 - f), -174) <= Smlawb(f + 1, Smulbb(f + 1, 127 - f), -174)
  {
    hide *;
    InnerIs(f);
    InnerIs(f + 1);
    NextProduct(f);
    FloorStep(f * (128 - f), (f + 1) * (127 - f));
  }

  lemma InnerIs(f: nat)
    requires f <= 127
    ensures 0 <= f * (128 - f) <= 4096 && Smlawb(f, Smulbb(f, 128 - f), -174) == f + f * (128 - f) * -174 / 0x1_0000
  {
    FracProduct(f);
  }

  lemma NextProduct(f: nat)
    ensures (f + 1) * (127 - f) == f * (128 - f) + 127 - 2 * f && 128 - (f + 1) == 127 - f
  {
  }

  lemma FloorStep(p: int, q: int)
    requires q <= p + 127
    ensures p * -174 / 0x1_0000 <= 1 + q * -174 / 0x1_0000
  {
  }

  lemma SameOctave(x: I32, y: I32)
    requires 0 <= x <= y < 3967 && x / 128 == y / 128 && (x < 2048 <==> y < 2048)
    requires Smlawb(x % 128, Smulbb(x % 128, 128 - x % 128), -174)
          <= Smlawb(y % 128, Smulbb(y % 128, 128 - y % 128), -174)
    ensures Log2Lin(x) <= Log2Lin(y)
  {
    hide Smlawb, Smulbb;
    Inner(x % 128);
    Inner(y % 128);
    AntilogIs(x);
    AntilogIs(y);
    hide Pow2, Log2Lin;
    var p := Pow2(x / 128);
    var a := Smlawb(x % 128, Smulbb(x % 128, 128 - x % 128), -174);
    var b := Smlawb(y % 128, Smulbb(y % 128, 128 - y % 128), -174);
    Ordered(p, a, b);
    Ordered(p / 128, a, b);
  }

  /** The inverse is at most the power of two and its 128ths, and at least eleven of these less. */
  lemma AntilogLaw(x: I32)
    requires 0 <= x < 3967
    ensures var p, f := Pow2(x / 128), x % 128;
            p * (117 + f) < 128 * (Log2Lin(x) + 1) && 128 * Log2Lin(x) <= p * (128 + f)
            && (f == 0 ==> Log2Lin(x) == p)
  {
    hide *;
    var p, f := Pow2(x / 128), x % 128;
    var inner := Smlawb(f, Smulbb(f, 128 - f), -174);
    Inner(f);
    InnerNear(f);
    AntilogFits(x / 128, inner);
    AntilogIs(x);
    if x >= 2048 {
      WholeParts(x / 128);
      WholeSum(p, p / 128, inner, f);
    } else {
      PartSum(p, inner, f);
    }
  }

  lemma AntilogIs(x: I32)
    requires 0 <= x < 3967
    ensures var p, inner := Pow2(x / 128), Smlawb(x % 128, Smulbb(x % 128, 128 - x % 128), -174);
            Log2Lin(x) == if x < 2048 then p + p * inner / 128 else p + p / 128 * inner
  {
    hide Pow2, Smlawb, Smulbb;
  }

  lemma PartSum(p: nat, inner: nat, f: nat)
    requires p >= 1 && f - 11 <= inner <= f && (f == 0 ==> inner == 0)
    ensures var r := p + p * inner / 128;
            p * (117 + f) < 128 * (r + 1) && 128 * r <= p * (128 + f) && (f == 0 ==> r == p)
  {
    Ordered(p, 117 + f, 128 + inner);
    Ordered(p, 128 + inner, 128 + f);
    assert p * (128 + inner) == 128 * p + p * inner;
  }

  lemma WholeSum(p: nat, h: nat, inner: nat, f: nat)
    requires p == 128 * h && p >= 1 && f - 11 <= inner <= f && (f == 0 ==> inner == 0)
    ensures var r := p + h * inner;
            p * (117 + f) < 128 * (r + 1) && 128 * r <= p * (128 + f) && (f == 0 ==> r == p)
  {
    Ordered(p, 117 + f, 128 + inner);
    Ordered(p, 128 + inner, 128 + f);
    assert p * (128 + inner) == 128 * p + 128 * (h * inner);
  }

  lemma WholeParts(e: nat)
    requires 7 <= e
    ensures Pow2(e) == 128 * (Pow2(e) / 128)
  {
    Pow2Sum(e - 7, 7);
    Seventh();
    hide Pow2;
  }

  lemma InnerNear(f: nat)
    requires f <= 127
    ensures f - 11 <= Smlawb(f, Smulbb(f, 128 - f), -174) <= f
    ensures f == 0 ==> Smlawb(f, Smulbb(f, 128 - f), -174) == 0
  {
    hide *;
    InnerIs(f);
    Falling(f * (128 - f));
  }

  lemma Falling(p: int)
    requires 0 <= p <= 4096
    ensures -11 <= p * -174 / 0x1_0000 <= 0
  {
  }

  lemma ScaledBetween(x: nat, p: nat, q: nat)
    requires p > 0 && p * q == 128
    ensures p * (x * q) == 128 * x && p * (x * q) < p * (x * q + 1)
  {
    assert p * (x * q) == p * q * x;
  }

  lemma DividedBetween(x: nat, p: nat)
    requires p > 0
    ensures p * 128 * (x / p) <= 128 * x < p * 128 * (x / p + 1)
  {
    assert p * (x / p) <= x < p * (x / p + 1);
  }

  /** What comes around from the right has its seven low bits clear. */
  lemma RotatedDown(x: I32, k: nat)
    requires x > 0 && k <= 23
    ensures Ror32(x, k) % 0x80 == x / Pow2(k) % 0x80
  {
    hide *;
    RorParts(x, k);
    Pow2Sum(25 - k, 7);
    Seventh();
    RestBelow(x, Pow2(k));
    MovedUp(x / Pow2(k), x % Pow2(k), Pow2(25 - k));
  }

  lemma RorParts(x: I32, k: nat)
    requires x > 0 && k <= 23
    ensures Ror32(x, k) == x / Pow2(k) + x % Pow2(k) * Pow2(32 - k) && 25 - k + 7 == 32 - k
  {
    hide Pow2;
  }

  lemma Seventh()
    ensures Pow2(7) == 128
  {
    PowValues();
  }

  lemma RestBelow(x: nat, p: nat)
    requires p > 0
    ensures 0 <= x / p && 0 <= x % p < p
  {
  }

  lemma MovedUp(a: nat, b: nat, c: nat)
    ensures (a + b * (c * 128)) % 0x80 == a % 0x80
  {
    assert b * (c * 128) == b * c * 128;
    MultipleMod(b * c, 128);
  }

  function Smulbb(a: I32, b: I32): I32 {
    Wrap32(Wrap16(a) * Wrap16(b))
  }

  /** About two to the power of a 128th of x; positive exactly when x is not negative. */
  function Log2Lin(x: I32): (r: I32)
    ensures r >= 0 && (r == 0 <==> x < 0)
    ensures x <= 3839 ==> r <= 0x4000_0000
  {
    if x < 0 then 0
    else if x >= 3967 then MAX32
    else
      var out, f := Pow2(x / 128), x % 128;
      var inner := Smlawb(f, Smulbb(f, 128 - f), -174);
      Inner(f);
      AntilogFits(x / 128, inner);
      if x < 2048 then out + out * inner / 128 else out + out / 128 * inner
  }

  lemma Inner(f: nat)
    requires f <= 127
    ensures 0 <= Smlawb(f, Smulbb(f, 128 - f), -174) <= 127
  {
    FracProduct(f);
    var p := f * (128 - f);
    assert p <= 128 * f by { SquareSign(f); }
    var q: int := f;
    assert p * -174 >= -0x1_0000 * q;
  }

  /** The two products stay below the power they are added to. */
  lemma AntilogFits(e: nat, inner: nat)
    requires e <= 30 && inner <= 127
    ensures var out := Pow2(e);
            && 1 <= out <= 0x4000_0000 && (e <= 29 ==> out <= 0x2000_0000)
            && (e < 16 ==> 0 <= out * inner <= 0x8000 * 127 && 0 <= out * inner / 128 < out)
            && (e >= 16 ==> 0 <= out / 128 * inner < out)
  {
    PowHigh();
    PowValues();
    Pow2Mono(e, 30);
    var out := Pow2(e);
    if e <= 29 { Pow2Mono(e, 29); }
    Ordered(out, inner, 127);
    if e < 16 {
      assert Pow2(15) == 0x8000;
      Pow2Mono(e, 15);
    } else {
      Pow2Mono(16, e);
      Ordered(out / 128, inner, 127);
    }
    hide Pow2;
  }

  // ---- sigmoid ----

  const SLOPE: seq<int> := [237, 153, 73, 30, 12, 7]
  const POS: seq<int> := [16384, 23955, 28861, 31213, 32178, 32548]
  const NEG: seq<int> := [16384, 8812, 3906, 1554, 589, 219]

  function SigmQ15(x: I32): (r: I32)
    ensures 0 <= r <= 32767
  {
    if x < 0 then
      if x <= -192 then 0 else NEG[-x / 32] - SLOPE[-x / 32] * (-x % 32)
    else if x >= 192 then 32767
    else POS[x / 32] + SLOPE[x / 32] * (x % 32)
  }

  /** The pieces do not meet: at two points the sigmoid steps down. */
  lemma SigmStep(x: int)
    requires In32(x) && In32(x + 1)
    ensures SigmQ15(x) <= SigmQ15(x + 1) <==> x != 159 && x != -160
    ensures SigmQ15(x) / 128 <= SigmQ15(x + 1) / 128
  {
    if 0 <= x < 191 {
      Steps(x / 32, x % 32);
    } else if -192 < x < 0 {
      Steps(-x / 32, -x % 32);
    }
  }

  lemma Steps(i: nat, k: nat)
    requires i < 6 && k < 32
    ensures i == 0 || i == 1 || i == 2 || i == 3 || i == 4 || i == 5
  {
  }

  /** In the eight bits that are kept of it, it never does. */
  lemma {:induction false} SigmMonotone(a: I32, b: I32)
    requires a <= b
    ensures SigmQ15(a) / 128 <= SigmQ15(b) / 128
    decreases b - a
  {
    if a < b {
      SigmStep(a);
      SigmMonotone(a + 1, b);
    }
  }

  /** A half at zero, nothing and one at its ends, and two points at the same distance from zero add up
      to one, less at most one part in 2^15. */
  lemma SigmSymmetric(x: int)
    requires In32(x) && In32(-x)
    ensures 0x7FFF <= SigmQ15(x) + SigmQ15(-x) <= 0x8000
    ensures SigmQ15(0) == 0x4000 && (x <= -192 ==> SigmQ15(x) == 0) && (x >= 192 ==> SigmQ15(x) == 0x7FFF)
  {
    if 0 <= x < 192 {
      Steps(x / 32, x % 32);
    } else if -192 < x < 0 {
      Steps(-x / 32, -x % 32);
    }
  }
}
