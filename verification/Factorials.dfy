/** The approximate logarithm of the factorial, between lines that touch it: with every rounding
    error in it, it is convex enough for the odds of splits to be odds. */
module Factorials {
  import opened Arithmetic
  import opened FixedPoint

  const MOST := 159

  /** About the logarithm to base two of n!, in parts of 2^15. */
  function Stirling(n: nat): (r: I32)
    requires n <= MOST
    ensures -0x2000_0000 < r < 0x2000_0000
  {
    if n == 0 then 0
    else
      var l: int := Lin2Log(n);
      StirlingFits(n, l);
      (2 * n + 1) * (l * 128) - 47274 * n + 43442 + 47274 / (12 * n)
  }

  lemma StirlingFits(n: nat, l: int)
    requires 1 <= n <= MOST && -128 <= l <= 4106
    ensures -0x1000_0000 <= (2 * n + 1) * (l * 128) <= 0x1000_0000
    ensures 0 <= 47274 / (12 * n) <= 47274
  {
    Ordered(2 * n + 1, l + 128, 4234);
  }

  // ---- lines ----

  /** The highest of eight lines that touch the logarithm of the factorial from below: for w = 1
      their height at n, for w = 2 twice their height at n/2. */
  function Cup(n: int, w: int): int {
    if 540 * n < 1229 * w then 20000 * n - 23900 * w
    else if 205 * n < 1468 * w then 74000 * n - 146800 * w
    else if 155 * n < 2436 * w then 115000 * n - 440400 * w
    else if 110 * n < 3059 * w then 146000 * n - 927600 * w
    else if 110 * n < 4737 * w then 168000 * n - 1539400 * w
    else if 45 * n < 2891 * w then 190000 * n - 2486800 * w
    else if 130 * n < 11499 * w then 199000 * n - 3065000 * w
    else 225000 * n - 5364800 * w
  }

  predicate Over(n: int, w: int, c: int) {
    && c >= 20000 * n - 23900 * w && c >= 74000 * n - 146800 * w && c >= 115000 * n - 440400 * w
    && c >= 146000 * n - 927600 * w && c >= 168000 * n - 1539400 * w && c >= 190000 * n - 2486800 * w
    && c >= 199000 * n - 3065000 * w && c >= 225000 * n - 5364800 * w
  }

  lemma CupIsOver(n: int, w: int)
    requires w == 1 || w == 2
    ensures Over(n, w, Cup(n, w))
  {
  }

  lemma CupIsConvex(k: int, j: int)
    ensures Cup(k, 1) + Cup(j, 1) >= Cup(k + j, 2)
  {
    CupIsOver(k, 1);
    CupIsOver(j, 1);
    var n, c, x, y := k + j, Cup(k + j, 2), Cup(k, 1), Cup(j, 1);
    assert c == 20000 * n - 23900 * 2 || c == 74000 * n - 146800 * 2 || c == 115000 * n - 440400 * 2
           || c == 146000 * n - 927600 * 2 || c == 168000 * n - 1539400 * 2 || c == 190000 * n - 2486800 * 2
           || c == 199000 * n - 3065000 * 2 || c == 225000 * n - 5364800 * 2;
    hide Cup;
  }

  lemma CupIsTight(n: nat)
    requires n <= MOST
    ensures Cup(n / 2, 2) + Cup(n - n / 2, 2) + 2 * n * 0x8000 <= Cup(n, 1) + 0xE_0000
  {
  }

  /** The logarithm of n!, from the octave of n: m is n scaled up to 128 and more. */
  function OctaveStirling(n: int, m: int, base: int): int {
    (2 * n + 1) * (OctaveLog(m, base) * 128) - 47274 * n + 43442
  }

  function OctaveLog(m: int, base: int): int {
    m - 128 + (m - 128) * (256 - m) * 179 / 0x1_0000 + base
  }

  // ---- between the lines, eight values at a time ----

  /** With room for the last term of the sum. */
  predicate Cupped(n: int, s: int) {
    Cup(n, 1) <= s <= Cup(n, 2) + n * 0x8000 - 3940
  }

  predicate Eight(n: int, c: int) {
    n == c || n == c + 1 || n == c + 2 || n == c + 3 || n == c + 4 || n == c + 5 || n == c + 6 || n == c + 7
  }

  lemma CuppedTo2()
    ensures Cupped(1, OctaveStirling(1, 128, 0))
  {
  }

  lemma CuppedTo4(n: int)
    requires 2 <= n < 4
    ensures Cupped(n, OctaveStirling(n, n * 64, 128))
  {
    assert n == 2 || n == 3;
  }

  lemma CuppedTo8(n: int)
    requires 4 <= n < 8
    ensures Cupped(n, OctaveStirling(n, n * 32, 256))
  {
    assert Eight(n, 0);
  }

  lemma CuppedTo16(n: int)
    requires 8 <= n < 16
    ensures Cupped(n, OctaveStirling(n, n * 16, 384))
  {
    assert Eight(n, 8);
  }

  lemma CuppedTo24(n: int)
    requires 16 <= n < 24
    ensures Cupped(n, OctaveStirling(n, n * 8, 512))
  {
    assert Eight(n, 16);
  }

  lemma CuppedTo32(n: int)
    requires 24 <= n < 32
    ensures Cupped(n, OctaveStirling(n, n * 8, 512))
  {
    assert Eight(n, 24);
  }

  lemma CuppedTo40(n: int)
    requires 32 <= n < 40
    ensures Cupped(n, OctaveStirling(n, n * 4, 640))
  {
    assert Eight(n, 32);
  }

  lemma CuppedTo48(n: int)
    requires 40 <= n < 48
    ensures Cupped(n, OctaveStirling(n, n * 4, 640))
  {
    assert Eight(n, 40);
  }

  lemma CuppedTo56(n: int)
    requires 48 <= n < 56
    ensures Cupped(n, OctaveStirling(n, n * 4, 640))
  {
    assert Eight(n, 48);
  }

  lemma CuppedTo64(n: int)
    requires 56 <= n < 64
    ensures Cupped(n, OctaveStirling(n, n * 4, 640))
  {
    assert Eight(n, 56);
  }

  lemma CuppedTo72(n: int)
    requires 64 <= n < 72
    ensures Cupped(n, OctaveStirling(n, n * 2, 768))
  {
    assert Eight(n, 64);
  }

  lemma CuppedTo80(n: int)
    requires 72 <= n < 80
    ensures Cupped(n, OctaveStirling(n, n * 2, 768))
  {
    assert Eight(n, 72);
  }

  lemma CuppedTo88(n: int)
    requires 80 <= n < 88
    ensures Cupped(n, OctaveStirling(n, n * 2, 768))
  {
    assert Eight(n, 80);
  }

  lemma CuppedTo96(n: int)
    requires 88 <= n < 96
    ensures Cupped(n, OctaveStirling(n, n * 2, 768))
  {
    assert Eight(n, 88);
  }

  lemma CuppedTo104(n: int)
    requires 96 <= n < 104
    ensures Cupped(n, OctaveStirling(n, n * 2, 768))
  {
    assert Eight(n, 96);
  }

  lemma CuppedTo112(n: int)
    requires 104 <= n < 112
    ensures Cupped(n, OctaveStirling(n, n * 2, 768))
  {
    assert Eight(n, 104);
  }

  lemma CuppedTo120(n: int)
    requires 112 <= n < 120
    ensures Cupped(n, OctaveStirling(n, n * 2, 768))
  {
    assert Eight(n, 112);
  }

  lemma CuppedTo128(n: int)
    requires 120 <= n < 128
    ensures Cupped(n, OctaveStirling(n, n * 2, 768))
  {
    assert Eight(n, 120);
  }

  lemma CuppedTo136(n: int)
    requires 128 <= n < 136
    ensures Cupped(n, OctaveStirling(n, n, 896))
  {
    assert Eight(n, 128);
  }

  lemma CuppedTo144(n: int)
    requires 136 <= n < 144
    ensures Cupped(n, OctaveStirling(n, n, 896))
  {
    assert Eight(n, 136);
  }

  lemma CuppedTo152(n: int)
    requires 144 <= n < 152
    ensures Cupped(n, OctaveStirling(n, n, 896))
  {
    assert Eight(n, 144);
  }

  lemma CuppedTo160(n: int)
    requires 152 <= n < 160
    ensures Cupped(n, OctaveStirling(n, n, 896))
  {
    assert Eight(n, 152);
  }

  // ---- all values ----

  lemma LogInOctave(n: nat, e: nat)
    requires e <= 7 && Pow2(e) <= n < Pow2(e + 1) && n < 256
    ensures Lin2Log(n) == OctaveLog(n * Pow2(7 - e), 128 * e)
  {
    hide Clz32, Frac7, Pow2, LogOf, OctaveLog;
    SmallFrac(n, e);
    LogOfFrac(n * Pow2(7 - e) - 128, e);
  }

  lemma LogOfFrac(f: int, e: nat)
    requires 0 <= f <= 127 && e <= 7
    ensures LogOf(f, e) == OctaveLog(f + 128, 128 * e)
  {
    FracProduct(f);
    ShiftedSmall(f * (128 - f), 179);
  }

  lemma OctaveCupped(n: nat, e: nat)
    requires e <= 7 && Pow2(e) <= n < Pow2(e + 1) && n <= MOST
    ensures Cupped(n, OctaveStirling(n, n * Pow2(7 - e), 128 * e))
  {
    PowValues();
    hide Pow2, Cupped, OctaveStirling;
    if n < 2 {
      CuppedTo2();
    } else if n < 4 {
      CuppedTo4(n);
    } else if n < 8 {
      CuppedTo8(n);
    } else if n < 16 {
      CuppedTo16(n);
    } else if n < 24 {
      CuppedTo24(n);
    } else if n < 32 {
      CuppedTo32(n);
    } else if n < 40 {
      CuppedTo40(n);
    } else if n < 48 {
      CuppedTo48(n);
    } else if n < 56 {
      CuppedTo56(n);
    } else if n < 64 {
      CuppedTo64(n);
    } else if n < 72 {
      CuppedTo72(n);
    } else if n < 80 {
      CuppedTo80(n);
    } else if n < 88 {
      CuppedTo88(n);
    } else if n < 96 {
      CuppedTo96(n);
    } else if n < 104 {
      CuppedTo104(n);
    } else if n < 112 {
      CuppedTo112(n);
    } else if n < 120 {
      CuppedTo120(n);
    } else if n < 128 {
      CuppedTo128(n);
    } else if n < 136 {
      CuppedTo136(n);
    } else if n < 144 {
      CuppedTo144(n);
    } else if n < 152 {
      CuppedTo152(n);
    } else {
      CuppedTo160(n);
    }
  }

  lemma StirlingCupped(n: nat)
    requires n <= MOST
    ensures Cup(n, 1) <= Stirling(n)
    ensures Stirling(n) <= Cup(n, 2) + n * 0x8000 || n == 0
  {
    if n > 0 {
      var e := Octave(n);
      LogInOctave(n, e);
      OctaveCupped(n, e);
      LastTerm(n);
      hide OctaveLog, Lin2Log, Cup, Pow2;
    }
  }

  lemma LastTerm(n: nat)
    requires n >= 1
    ensures 0 <= 47274 / (12 * n) <= 3940
  {
    var q := 47274 / (12 * n);
    assert 12 * n * q <= 47274 < 12 * n * (q + 1);
    if q > 3940 {
      Ordered(q, 1, n);
    }
  }

  function Octave(n: nat): (e: nat)
    requires 1 <= n < 256
    ensures e <= 7 && Pow2(e) <= n < Pow2(e + 1)
  {
    PowValues();
    if n < 2 then 0 else if n < 4 then 1 else if n < 8 then 2 else if n < 16 then 3
    else if n < 32 then 4 else if n < 64 then 5 else if n < 128 then 6 else 7
  }
}
