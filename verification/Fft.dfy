/** The mixed-radix transform and the discrete Fourier transform it computes.  The
    twiddle factors of length n are the powers of one number w with w^n = 1. */
module Fft {
  import opened Arithmetic

  datatype Cpx = Cpx(re: real, im: real)

  const ZERO := Cpx(0.0, 0.0)
  const ONE := Cpx(1.0, 0.0)

  function Add(a: Cpx, b: Cpx): Cpx {
    Cpx(a.re + b.re, a.im + b.im)
  }

  function Mul(a: Cpx, b: Cpx): Cpx {
    Cpx(a.re * b.re - a.im * b.im, a.re * b.im + a.im * b.re)
  }

  lemma MulAssoc(a: Cpx, b: Cpx, c: Cpx)
    ensures Mul(Mul(a, b), c) == Mul(a, Mul(b, c))
  {
    ProductAssoc(a.re, a.im, b.re, b.im, c.re, c.im);
  }

  lemma ProductAssoc(a: real, x: real, b: real, y: real, c: real, z: real)
    ensures (a * b - x * y) * c - (a * y + x * b) * z == a * (b * c - y * z) - x * (b * z + y * c)
    ensures (a * b - x * y) * z + (a * y + x * b) * c == a * (b * z + y * c) + x * (b * c - y * z)
  {
  }

  lemma MulComm(a: Cpx, b: Cpx)
    ensures Mul(a, b) == Mul(b, a)
  {
  }

  lemma MulAdd(a: Cpx, b: Cpx, c: Cpx)
    ensures Mul(Add(a, b), c) == Add(Mul(a, c), Mul(b, c))
  {
  }

  lemma AddLaws(a: Cpx, b: Cpx, c: Cpx)
    ensures Add(Add(a, b), c) == Add(a, Add(b, c)) && Add(a, b) == Add(b, a) && Add(a, ZERO) == a
    ensures Mul(a, ONE) == a && Mul(a, ZERO) == ZERO && Mul(ZERO, a) == ZERO && Mul(ONE, a) == a
  {
  }

  /** Reals multiply as such, and (0, 1) squared is minus one: with the ring laws below these are the
      complex numbers. */
  lemma ImaginaryUnit(s: real, a: Cpx)
    ensures Mul(Cpx(s, 0.0), a) == Cpx(s * a.re, s * a.im)
    ensures Mul(Cpx(0.0, 1.0), Cpx(0.0, 1.0)) == Cpx(-1.0, 0.0)
    ensures Mul(Cpx(0.0, 1.0), a) == Cpx(-a.im, a.re)
  {
  }

  function Pow(w: Cpx, e: nat): Cpx {
    if e == 0 then ONE else Mul(Pow(w, e - 1), w)
  }

  lemma {:induction false} PowAdd(w: Cpx, a: nat, b: nat)
    ensures Pow(w, a + b) == Mul(Pow(w, a), Pow(w, b))
  {
    hide Mul;
    if b == 0 {
      AddLaws(Pow(w, a), ZERO, ZERO);
    } else {
      PowAdd(w, a, b - 1);
      MulAssoc(Pow(w, a), Pow(w, b - 1), w);
    }
  }

  lemma {:induction false} PowMul(w: Cpx, a: nat, b: nat)
    ensures 0 <= a * b && Pow(Pow(w, a), b) == Pow(w, a * b)
  {
    hide Mul;
    if b > 0 {
      PowMul(w, a, b - 1);
      assert a * b == a * (b - 1) + a;
      PowAdd(w, a * (b - 1), a);
    }
  }

  lemma {:induction false} PowUnit(u: Cpx, e: nat)
    requires u == ONE
    ensures Pow(u, e) == ONE
  {
    hide Mul;
    if e > 0 {
      PowUnit(u, e - 1);
      AddLaws(Pow(u, e - 1), ZERO, ZERO);
    }
  }

  /** Powers of a root of unity repeat. */
  lemma PowWrap(w: Cpx, n: nat, a: nat, t: nat)
    requires Pow(w, n) == ONE
    ensures 0 <= n * t && Pow(w, a + n * t) == Pow(w, a)
  {
    hide Mul;
    PowMul(w, n, t);
    PowUnit(Pow(w, n), t);
    PowAdd(w, a, n * t);
    AddLaws(Pow(w, a), ZERO, ZERO);
  }

  // ---- sums ----

  function Sum(f: nat -> Cpx, n: nat): Cpx {
    if n == 0 then ZERO else Add(Sum(f, n - 1), f(n - 1))
  }

  lemma {:induction false} SumSame(f: nat -> Cpx, g: nat -> Cpx, n: nat)
    requires forall j :: 0 <= j < n ==> f(j) == g(j)
    ensures Sum(f, n) == Sum(g, n)
  {
    hide Add;
    if n > 0 {
      SumSame(f, g, n - 1);
    }
  }

  lemma {:induction false} SumScale(f: nat -> Cpx, c: Cpx, n: nat)
    ensures Mul(Sum(f, n), c) == Sum((j: nat) => Mul(f(j), c), n)
  {
    hide Add, Mul;
    AddLaws(c, ZERO, ZERO);
    if n > 0 {
      SumScale(f, c, n - 1);
      MulAdd(Sum(f, n - 1), f(n - 1), c);
    }
  }

  function Both(f: nat -> Cpx, g: nat -> Cpx): nat -> Cpx {
    (j: nat) => Add(f(j), g(j))
  }

  lemma {:induction false} SumPlus(f: nat -> Cpx, g: nat -> Cpx, n: nat)
    ensures Sum(Both(f, g), n) == Add(Sum(f, n), Sum(g, n))
  {
    if n > 0 {
      SumPlus(f, g, n - 1);
      hide Add;
      FourTerms(Sum(f, n - 1), f(n - 1), Sum(g, n - 1), g(n - 1));
    }
  }

  lemma FourTerms(a: Cpx, b: Cpx, c: Cpx, d: Cpx)
    ensures Add(Add(a, c), Add(b, d)) == Add(Add(a, b), Add(c, d))
  {
  }

  lemma {:induction false} SumExtend(f: nat -> Cpx, a: nat, b: nat)
    ensures Sum(f, a + b) == Add(Sum(f, a), Sum((j: nat) => f(a + j), b))
  {
    hide Add;
    AddLaws(Sum(f, a), ZERO, ZERO);
    if b > 0 {
      SumExtend(f, a, b - 1);
      AddLaws(Sum(f, a), Sum((j: nat) => f(a + j), b - 1), f(a + b - 1));
    }
  }

  /** The terms q, q + p, q + 2p, ... */
  function Strided(f: nat -> Cpx, q: nat, p: nat): nat -> Cpx {
    (j: nat) => (ProductNat(j, p); f(q + j * p))
  }

  lemma ProductNat(a: nat, b: nat)
    ensures 0 <= a * b
  {
  }

  /** Summing by residue classes modulo p is summing. */
  lemma {:induction false} SumByResidue(f: nat -> Cpx, p: nat, m: nat)
    ensures 0 <= p * m && Sum(f, p * m) == Sum((q: nat) => Sum(Strided(f, q, p), m), p)
  {
    hide Add;
    if m == 0 {
      SumZero((q: nat) => Sum(Strided(f, q, p), 0), p);
    } else {
      SumByResidue(f, p, m - 1);
      assert p * m == p * (m - 1) + p;
      var base: nat := p * (m - 1);
      SumExtend(f, base, p);
      var row := (q: nat) => f(base + q);
      var head := (q: nat) => Sum(Strided(f, q, p), m - 1);
      SumPlus(head, row, p);
      forall q: nat | q < p ensures Both(head, row)(q) == Sum(Strided(f, q, p), m) {
        assert q + (m - 1) * p == base + q;
      }
      SumSame(Both(head, row), (q: nat) => Sum(Strided(f, q, p), m), p);
    }
  }

  lemma {:induction false} SumZero(f: nat -> Cpx, n: nat)
    requires forall j :: 0 <= j < n ==> f(j) == ZERO
    ensures Sum(f, n) == ZERO
  {
    if n > 0 {
      SumZero(f, n - 1);
    }
  }

  // ---- the transform ----

  ghost predicate Holds(x: seq<Cpx>, stride: nat, n: nat) {
    n >= 1 && stride >= 1 && (n - 1) * stride < |x|
  }

  lemma Inside(x: seq<Cpx>, stride: nat, n: nat, j: nat)
    requires Holds(x, stride, n) && j < n
    ensures 0 <= j * stride < |x|
  {
    assert j * stride <= (n - 1) * stride;
  }

  /** Term j of bin k. */
  function Term(x: seq<Cpx>, stride: nat, w: Cpx, k: nat): nat -> Cpx {
    (j: nat) =>
      ProductNat(j, stride);
      ProductNat(j, k);
      if j * stride < |x| then Mul(x[j * stride], Pow(w, j * k)) else ZERO
  }

  /** The discrete Fourier transform of every stride-th sample. */
  function Dft(x: seq<Cpx>, stride: nat, n: nat, w: Cpx, k: nat): Cpx {
    Sum(Term(x, stride, w, k), n)
  }

  // ---- the factor ----

  /** No divisor between two and p. */
  ghost predicate FreeBelow(n: nat, p: nat) {
    forall d :: 2 <= d < p ==> n % d != 0
  }

  ghost predicate SmallestFactorOf(p: nat, n: nat) {
    2 <= p <= n && n % p == 0 && forall d :: 2 <= d < p ==> n % d != 0
  }

  /** A divisor below n pairs with one whose square does not exceed n. */
  lemma FactorPair(n: nat, d: nat, p: nat)
    requires 2 <= d < n && n % d == 0 && p * p > n && d >= p >= 2
    ensures exists e :: 2 <= e < p && n % e == 0
  {
    var e := n / d;
    assert n == d * e;
    ProductOrder(d, e, p);
    MultipleMod(d, e);
    assert n % e == 0;
  }

  lemma ProductOrder(d: nat, e: nat, p: nat)
    requires d >= p >= 2 && d < d * e < p * p
    ensures 2 <= e < p
  {
    assert e <= 1 ==> d * e <= d * 1;
    assert e >= p ==> d * e >= p * p;
  }

  /** The smallest divisor above one. */
  method SmallestFactor(n: nat) returns (p: nat)
    requires n >= 2
    ensures SmallestFactorOf(p, n)
  {
    if n % 2 == 0 {
      return 2;
    }
    p := 3;
    while p * p <= n
      invariant p >= 3 && p % 2 == 1 && FreeBelow(n, p)
      decreases n + 2 - p
    {
      NotBelow(n, p);
      if n % p == 0 {
        return;
      }
      hide FreeBelow;
      FreeStep(n, p);
      p := p + 2;
    }
    Prime(n, p);
    p := n;
  }

  lemma FreeStep(n: nat, p: nat)
    requires n % 2 == 1 && p % 2 == 1 && FreeBelow(n, p) && n % p != 0
    ensures FreeBelow(n, p + 2)
  {
    OddStep(n, p);
  }

  lemma Prime(n: nat, p: nat)
    requires n >= 2 && p * p > n && p >= 3 && FreeBelow(n, p)
    ensures SmallestFactorOf(n, n)
  {
    forall d | 2 <= d < n ensures n % d != 0 {
      if n % d == 0 && d >= p {
        FactorPair(n, d, p);
      }
    }
  }

  lemma NotBelow(n: nat, p: nat)
    requires p * p <= n
    ensures p <= n
  {
    assert p == 0 || p * p >= p * 1;
  }

  /** An odd number has no even divisor. */
  lemma OddStep(n: nat, p: nat)
    requires n % 2 == 1 && p % 2 == 1
    ensures n % (p + 1) != 0
  {
    var q, h := n / (p + 1), (p + 1) / 2;
    DoubledFactor(p + 1, h, q);
    assert n == (p + 1) * q + n % (p + 1);
  }

  // ---- one level of the recursion ----

  /** The residue-q subsequence, transformed with w^p, gives the terms q, q + p, ... */
  lemma SubTerm(x: seq<Cpx>, stride: nat, p: nat, m: nat, w: Cpx, k: nat, q: nat, j: nat)
    requires p >= 1 && m >= 1 && q < p && j < m && Holds(x, stride, p * m) && Pow(w, p * m) == ONE
    ensures 0 <= q * stride <= |x|
    ensures Mul(Term(x[q * stride..], stride * p, Pow(w, p), k % m)(j), Pow(w, k * q))
         == Strided(Term(x, stride, w, k), q, p)(j)
  {
    hide *;
    SubIndex(x, stride, p, m, q, j);
    Exponent(w, p, m, k, q, j);
    ProductNat(stride, p);
    ProductNat(j, stride);
    var from: nat, step: nat, e: nat := q * stride, stride * p, (q + j * p) * k;
    var at: nat := (q + j * p) * stride;
    assert x[from..][j * step] == x[at];
    TermAt(x[from..], step, Pow(w, p), k % m, j);
    StridedAt(x, stride, w, k, q, p, j);
    MulAssoc(x[at], Pow(Pow(w, p), j * (k % m)), Pow(w, k * q));
  }

  lemma TermAt(x: seq<Cpx>, stride: nat, w: Cpx, k: nat, j: nat)
    requires 0 <= j * stride < |x| && 0 <= j * k
    ensures Term(x, stride, w, k)(j) == Mul(x[j * stride], Pow(w, j * k))
  {
    hide Mul, Pow;
  }

  lemma StridedAt(x: seq<Cpx>, stride: nat, w: Cpx, k: nat, q: nat, p: nat, j: nat)
    requires 0 <= j * p && 0 <= (q + j * p) * stride < |x| && 0 <= (q + j * p) * k
    ensures Strided(Term(x, stride, w, k), q, p)(j) == Mul(x[(q + j * p) * stride], Pow(w, (q + j * p) * k))
  {
    hide Mul, Pow;
  }

  lemma ResidueBound(p: nat, m: nat, q: nat, j: nat)
    requires q < p && j < m
    ensures 0 <= j * p && q + j * p < p * m
  {
    assert (j + 1) * p <= m * p;
  }

  lemma StrideAssoc(q: nat, j: nat, p: nat, stride: nat)
    ensures 0 <= j * p && 0 <= stride * p && (q + j * p) * stride == q * stride + j * (stride * p)
    ensures 0 <= q * stride && 0 <= j * (stride * p)
  {
    assert j * p * stride == j * (stride * p);
  }

  lemma SubIndex(x: seq<Cpx>, stride: nat, p: nat, m: nat, q: nat, j: nat)
    requires p >= 1 && m >= 1 && q < p && j < m && Holds(x, stride, p * m)
    ensures 0 <= q * stride <= |x| && 0 <= j * (stride * p) && 0 <= j * p && 0 <= (q + j * p) * stride < |x|
    ensures (q + j * p) * stride == q * stride + j * (stride * p)
  {
    hide Holds;
    ResidueBound(p, m, q, j);
    StrideAssoc(q, j, p, stride);
    Inside(x, stride, p * m, q + j * p);
  }

  /** (w^p)^(j (k mod m)) w^(kq) = w^((q + jp) k), because w^(pm) = 1. */
  lemma Exponent(w: Cpx, p: nat, m: nat, k: nat, q: nat, j: nat)
    requires p >= 1 && m >= 1 && Pow(w, p * m) == ONE
    ensures 0 <= j * (k % m) && 0 <= k * q && 0 <= j * p && 0 <= (q + j * p) * k
    ensures Mul(Pow(Pow(w, p), j * (k % m)), Pow(w, k * q)) == Pow(w, (q + j * p) * k)
  {
    hide Mul, Pow;
    var r, t: nat := k % m, k / m;
    Exponents(p, m, r, t, j, q, k);
    var a: nat, b: nat, c: nat, e: nat, n: nat := j * r, k * q, j * t, (q + j * p) * k, p * m;
    ExponentOf(w, p, n, a, b, c, e);
  }

  lemma ExponentOf(w: Cpx, p: nat, n: nat, a: nat, b: nat, t: nat, e: nat)
    requires Pow(w, n) == ONE && e == p * a + b + n * t
    ensures Mul(Pow(Pow(w, p), a), Pow(w, b)) == Pow(w, e)
  {
    hide Mul, Pow;
    PowMul(w, p, a);
    var pa: nat := p * a;
    PowAdd(w, pa, b);
    PowWrap(w, n, pa + b, t);
  }

  lemma Exponents(p: nat, m: nat, r: nat, t: nat, j: nat, q: nat, k: nat)
    requires k == m * t + r
    ensures 0 <= j * r && 0 <= k * q && 0 <= j * t && 0 <= j * p && 0 <= (q + j * p) * k
    ensures (q + j * p) * k == p * (j * r) + k * q + p * m * (j * t)
  {
    assert (q + j * p) * k == k * q + j * p * k;
    assert j * p * k == j * p * (m * t) + j * p * r;
    assert j * p * (m * t) == p * m * (j * t);
    assert j * p * r == p * (j * r);
  }

  function SubBin(x: seq<Cpx>, stride: nat, p: nat, m: nat, w: Cpx, k: nat): nat -> Cpx
    requires m >= 1
  {
    (q: nat) =>
      ProductNat(q, stride);
      ProductNat(stride, p);
      ProductNat(k, q);
      if q * stride <= |x| then Mul(Dft(x[q * stride..], stride * p, m, Pow(w, p), k % m), Pow(w, k * q)) else ZERO
  }

  /** A bin of the whole transform, from the bins of its p subsequences; bin k needs
      their bins k mod m only. */
  lemma Combine(x: seq<Cpx>, stride: nat, p: nat, m: nat, w: Cpx, k: nat)
    requires p >= 1 && m >= 1 && Holds(x, stride, p * m) && Pow(w, p * m) == ONE
    ensures Dft(x, stride, p * m, w, k) == Sum(SubBin(x, stride, p, m, w, k), p)
  {
    hide Mul, Pow, Add;
    var f := Term(x, stride, w, k);
    SumByResidue(f, p, m);
    forall q: nat | q < p ensures SubBin(x, stride, p, m, w, k)(q) == Sum(Strided(f, q, p), m) {
      CombineOne(x, stride, p, m, w, k, q);
    }
    SumSame(SubBin(x, stride, p, m, w, k), (q: nat) => Sum(Strided(f, q, p), m), p);
  }

  lemma CombineOne(x: seq<Cpx>, stride: nat, p: nat, m: nat, w: Cpx, k: nat, q: nat)
    requires p >= 1 && m >= 1 && q < p && Holds(x, stride, p * m) && Pow(w, p * m) == ONE
    ensures SubBin(x, stride, p, m, w, k)(q) == Sum(Strided(Term(x, stride, w, k), q, p), m)
  {
    hide Mul, Pow, Add, Holds, Strided, Term;
    SubIndex(x, stride, p, m, q, 0);
    ProductNat(k, q);
    ProductNat(stride, p);
    var g := Term(x[q * stride..], stride * p, Pow(w, p), k % m);
    var c := Pow(w, k * q);
    SumScale(g, c, m);
    forall j: nat | j < m ensures Mul(g(j), c) == Strided(Term(x, stride, w, k), q, p)(j) {
      SubTerm(x, stride, p, m, w, k, q, j);
    }
    SumSame((j: nat) => Mul(g(j), c), Strided(Term(x, stride, w, k), q, p), m);
  }

  // ---- the recursion over arrays ----

  lemma SubHolds(x: seq<Cpx>, stride: nat, p: nat, m: nat, w: Cpx, q: nat)
    requires p >= 1 && m >= 1 && q < p && Holds(x, stride, p * m) && Pow(w, p * m) == ONE
    ensures 0 <= q * stride <= |x| && 1 <= stride * p && Holds(x[q * stride..], stride * p, m)
    ensures Pow(Pow(w, p), m) == ONE
  {
    hide Mul, Pow;
    SubIndex(x, stride, p, m, q, m - 1);
    PowMul(w, p, m);
    assert stride * p >= 1 * 1;
  }

  lemma SingleBin(x: seq<Cpx>, stride: nat, w: Cpx)
    requires Holds(x, stride, 1)
    ensures Dft(x, stride, 1, w, 0) == x[0]
  {
    var f := Term(x, stride, w, 0);
    assert Sum(f, 1) == Add(Sum(f, 0), f(0));
    assert f(0) == Mul(x[0], Pow(w, 0));
    AddLaws(x[0], ZERO, ZERO);
  }

  /** A bin by its definition. */
  method DirectBin(x: seq<Cpx>, stride: nat, n: nat, w: Cpx, k: nat) returns (acc: Cpx)
    requires Holds(x, stride, n)
    ensures acc == Dft(x, stride, n, w, k)
  {
    hide Mul, Pow, Add, Holds;
    acc := ZERO;
    for j := 0 to n
      invariant acc == Sum(Term(x, stride, w, k), j)
    {
      Inside(x, stride, n, j);
      ProductNat(j, k);
      var tw := Pow(w, j * k);
      acc := Add(acc, Mul(x[j * stride], tw));
    }
  }

  /** Sub-transforms laid end to end: block q holds the bins of residue q. */
  ghost predicate SubBins(sub: seq<Cpx>, x: seq<Cpx>, stride: nat, p: nat, m: nat, w: Cpx, count: nat)
    requires |sub| == p * m && count <= p && m >= 1
  {
    forall q, r :: 0 <= q < count && 0 <= r < m ==> BlockBin(sub, x, stride, p, m, w, q, r)
  }

  ghost predicate BlockBin(sub: seq<Cpx>, x: seq<Cpx>, stride: nat, p: nat, m: nat, w: Cpx, q: nat, r: nat)
    requires |sub| == p * m && q < p && r < m
  {
    BlockIndex(p, m, q, r);
    ProductNat(q, stride);
    ProductNat(stride, p);
    q * stride <= |x| && sub[q * m + r] == Dft(x[q * stride..], stride * p, m, Pow(w, p), r)
  }

  lemma BlockIndex(p: nat, m: nat, q: nat, r: nat)
    requires q < p && r < m
    ensures 0 <= q * m && q * m + r < p * m && q * m + m <= p * m
  {
    assert (q + 1) * m <= p * m;
  }

  /** A bin from the sub-transforms. */
  method CombinedBin(sub: seq<Cpx>, x: seq<Cpx>, stride: nat, p: nat, m: nat, w: Cpx, k: nat) returns (acc: Cpx)
    requires p >= 1 && m >= 1 && Holds(x, stride, p * m) && Pow(w, p * m) == ONE
    requires |sub| == p * m && SubBins(sub, x, stride, p, m, w, p)
    ensures acc == Dft(x, stride, p * m, w, k)
  {
    hide Mul, Pow, Add, Holds, Dft;
    Combine(x, stride, p, m, w, k);
    var kmod := k % m;
    acc := ZERO;
    for q := 0 to p
      invariant acc == Sum(SubBin(x, stride, p, m, w, k), q)
    {
      BlockIndex(p, m, q, kmod);
      ProductNat(k, q);
      assert BlockBin(sub, x, stride, p, m, w, q, kmod);
      var tw := Pow(w, k * q);
      acc := Add(acc, Mul(sub[q * m + kmod], tw));
    }
  }

  lemma SubBinsGrow(before: seq<Cpx>, after: seq<Cpx>, x: seq<Cpx>, stride: nat, p: nat, m: nat, w: Cpx, count: nat)
    requires |before| == |after| == p * m && count < p && m >= 1 && SubBins(before, x, stride, p, m, w, count)
    requires 0 <= count * m && count * m + m <= p * m && after[..count * m] == before[..count * m]
    requires 0 <= count * stride <= |x| && 0 <= stride * p
    requires forall r :: 0 <= r < m ==> after[count * m + r] == Dft(x[count * stride..], stride * p, m, Pow(w, p), r)
    ensures SubBins(after, x, stride, p, m, w, count + 1)
  {
    hide Dft, Pow;
    forall q, r | 0 <= q < count + 1 && 0 <= r < m ensures BlockBin(after, x, stride, p, m, w, q, r) {
      if q < count {
        assert BlockBin(before, x, stride, p, m, w, q, r);
        BlockIndex(count, m, q, r);
        assert after[q * m + r] == after[..count * m][q * m + r];
      }
    }
  }

  lemma ProperFactor(n: nat, p: nat, m: int)
    requires n == p * m && 2 <= p < n
    ensures 1 <= m < n
  {
    assert m <= 0 ==> p * m <= 0;
    assert m >= 1 ==> p * m >= 2 * m;
  }

  lemma FactorSplit(n: nat, p: nat)
    requires SmallestFactorOf(p, n) && p < n
    ensures n / p >= 1 && p * (n / p) == n && n / p < n
  {
    hide SmallestFactorOf;
    FactorDivides(p, n);
    ProperFactor(n, p, n / p);
  }

  lemma FactorDivides(p: nat, n: nat)
    requires SmallestFactorOf(p, n)
    ensures p >= 2 && n == p * (n / p)
  {
  }

  /** Transforms the n samples of x at the given stride into out[oo..oo + n]. */
  method FftRec(x: seq<Cpx>, stride: nat, n: nat, w: Cpx, out: array<Cpx>, oo: nat)
    requires Holds(x, stride, n) && Pow(w, n) == ONE && oo + n <= out.Length
    modifies out
    ensures forall k :: 0 <= k < n ==> out[oo + k] == Dft(x, stride, n, w, k)
    ensures forall i :: 0 <= i < out.Length && !(oo <= i < oo + n) ==> out[i] == old(out[i])
    decreases n
  {
    hide Mul, Pow, Add, Dft, SubBins, SmallestFactorOf;
    if n == 1 {
      SingleBin(x, stride, w);
      out[oo] := x[0];
      return;
    }
    var p := SmallestFactor(n);
    FactorRange(p, n);
    if p == n {
      for k := 0 to n
        invariant forall i :: 0 <= i < k ==> out[oo + i] == Dft(x, stride, n, w, i)
        invariant forall i :: 0 <= i < out.Length && !(oo <= i < oo + n) ==> out[i] == old(out[i])
      {
        var acc := DirectBin(x, stride, n, w, k);
        out[oo + k] := acc;
      }
      return;
    }
    FactorSplit(n, p);
    var m := n / p;
    var sub := Subtransforms(x, stride, p, m, w);
    for k := 0 to n
      invariant forall i :: 0 <= i < k ==> out[oo + i] == Dft(x, stride, n, w, i)
      invariant forall i :: 0 <= i < out.Length && !(oo <= i < oo + n) ==> out[i] == old(out[i])
    {
      var acc := CombinedBin(sub, x, stride, p, m, w, k);
      out[oo + k] := acc;
    }
  }

  lemma FactorRange(p: nat, n: nat)
    requires SmallestFactorOf(p, n)
    ensures 2 <= p <= n
  {
  }

  /** The p transforms of length m, one for each residue. */
  method Subtransforms(x: seq<Cpx>, stride: nat, p: nat, m: nat, w: Cpx) returns (s: seq<Cpx>)
    requires p >= 2 && m >= 1 && Holds(x, stride, p * m) && Pow(w, p * m) == ONE
    ensures |s| == p * m && SubBins(s, x, stride, p, m, w, p)
    decreases p * m, 0
  {
    hide Mul, Pow, Add, Dft, SubBins, Holds;
    ProductNat(p, m);
    var sub := new Cpx[p * m](_ => ZERO);
    NoBins(sub[..], x, stride, p, m, w);
    ShorterLength(p, m);
    for q := 0 to p
      invariant SubBins(sub[..], x, stride, p, m, w, q)
    {
      SubHolds(x, stride, p, m, w, q);
      BlockIndex(p, m, q, 0);
      ghost var before := sub[..];
      FftRec(x[q * stride..], stride * p, m, Pow(w, p), sub, q * m);
      assert sub[..q * m] == before[..q * m];
      SubBinsGrow(before, sub[..], x, stride, p, m, w, q);
    }
    s := sub[..];
  }

  lemma ShorterLength(p: nat, m: nat)
    requires p >= 2 && m >= 1
    ensures m < p * m
  {
    assert p * m >= 2 * m;
  }

  lemma NoBins(s: seq<Cpx>, x: seq<Cpx>, stride: nat, p: nat, m: nat, w: Cpx)
    requires |s| == p * m && m >= 1
    ensures SubBins(s, x, stride, p, m, w, 0)
  {
  }

  /** The transform of a whole buffer: every bin of the discrete Fourier transform. */
  method Cfft(input: seq<Cpx>, out: array<Cpx>, w: Cpx)
    requires |input| >= 1 && out.Length == |input| && Pow(w, |input|) == ONE
    modifies out
    ensures forall k :: 0 <= k < |input| ==> out[k] == Dft(input, 1, |input|, w, k)
  {
    hide Pow, Dft;
    FftRec(input, 1, |input|, w, out, 0);
  }

  // ---- forward, then inverse ----

  /** w has order exactly n, and u undoes it. */
  ghost predicate PrimitiveRoot(w: Cpx, u: Cpx, n: nat) {
    && n >= 1 && Pow(w, n) == ONE && Mul(u, w) == ONE
    && forall d :: 0 < d < n ==> Pow(w, d) != ONE
  }

  function Powers(w: Cpx, d: nat): nat -> Cpx {
    (k: nat) => (ProductNat(k, d); Pow(w, k * d))
  }

  /** w times a geometric sum is the sum plus its next term less one. */
  lemma {:induction false} Telescope(w: Cpx, d: nat, n: nat)
    ensures 0 <= n * d && Add(Mul(Sum(Powers(w, d), n), Pow(w, d)), ONE) == Add(Sum(Powers(w, d), n), Pow(w, n * d))
  {
    hide Add, Mul;
    ProductNat(n, d);
    AddLaws(Pow(w, d), ZERO, ZERO);
    if n == 0 {
      AddLaws(ZERO, ONE, ZERO);
    } else {
      Telescope(w, d, n - 1);
      ProductNat(n - 1, d);
      var s, q, t := Sum(Powers(w, d), n - 1), Pow(w, d), Pow(w, (n - 1) * d);
      assert n * d == (n - 1) * d + d;
      PowAdd(w, (n - 1) * d, d);
      MulAdd(s, t, q);
      Shuffle(Mul(s, q), Mul(t, q), s, t);
    }
  }

  lemma Shuffle(sq: Cpx, tq: Cpx, s: Cpx, t: Cpx)
    requires Add(sq, ONE) == Add(s, t)
    ensures Add(Add(sq, tq), ONE) == Add(Add(s, t), tq)
  {
  }

  /** There are no zero divisors among complex numbers. */
  lemma Fixed(s: Cpx, q: Cpx)
    requires Mul(s, q) == s && q != ONE
    ensures s == ZERO
  {
    var a, b := q.re - 1.0, q.im;
    assert s.re * a - s.im * b == 0.0 && s.re * b + s.im * a == 0.0;
    NoZeroDivisors(s.re, s.im, a, b);
  }

  lemma NoZeroDivisors(x: real, y: real, a: real, b: real)
    requires x * a - y * b == 0.0 && x * b + y * a == 0.0 && (a != 0.0 || b != 0.0)
    ensures x == 0.0 && y == 0.0
  {
    var n := SumOfSquares(a, b);
    Expand(x, y, a, b);
    ZeroFactor(x, n);
    ZeroFactor(y, n);
  }

  lemma Expand(x: real, y: real, a: real, b: real)
    ensures x * (a * a + b * b) == (x * a - y * b) * a + (x * b + y * a) * b
    ensures y * (a * a + b * b) == (x * b + y * a) * a - (x * a - y * b) * b
  {
  }

  function Product(a: real, b: real): real {
    a * b
  }

  lemma SameSign(a: real, b: real)
    requires (a > 0.0 && b > 0.0) || (a < 0.0 && b < 0.0)
    ensures Product(a, b) > 0.0
  {
  }

  lemma ZeroProduct()
    ensures Product(0.0, 0.0) == 0.0
  {
  }

  lemma SumOfSquares(a: real, b: real) returns (n: real)
    requires a != 0.0 || b != 0.0
    ensures n == a * a + b * b && n > 0.0
  {
    SquaresPositive(a, b);
    n := Product(a, a) + Product(b, b);
  }

  lemma SquaresPositive(a: real, b: real)
    requires a != 0.0 || b != 0.0
    ensures Product(a, a) + Product(b, b) > 0.0
  {
    hide Product;
    ZeroProduct();
    if a != 0.0 {
      SameSign(a, a);
    }
    if b != 0.0 {
      SameSign(b, b);
    }
  }

  lemma ZeroFactor(x: real, n: real)
    requires x * n == 0.0 && n > 0.0
    ensures x == 0.0
  {
  }

  /** The powers of a root of unity other than one add up to nothing. */
  lemma Orthogonal(w: Cpx, d: nat, n: nat)
    requires Pow(w, n) == ONE && Pow(w, d) != ONE
    ensures Sum(Powers(w, d), n) == ZERO
  {
    hide Mul, Pow;
    Telescope(w, d, n);
    PowMul(w, n, d);
    PowUnit(Pow(w, n), d);
    var s := Sum(Powers(w, d), n);
    Cancel(Mul(s, Pow(w, d)), s);
    Fixed(s, Pow(w, d));
  }

  lemma Cancel(a: Cpx, b: Cpx)
    requires Add(a, ONE) == Add(b, ONE)
    ensures a == b
  {
  }

  lemma {:induction false} PowOfProduct(u: Cpx, w: Cpx, e: nat)
    requires Mul(u, w) == ONE
    ensures Mul(Pow(u, e), Pow(w, e)) == ONE
  {
    hide Mul;
    AddLaws(ONE, ONE, ONE);
    if e > 0 {
      PowOfProduct(u, w, e - 1);
      var a, b := Pow(u, e - 1), Pow(w, e - 1);
      MulAssoc(a, u, Mul(b, w));
      MulComm(b, w);
      MulAssoc(u, w, b);
      AddLaws(b, ZERO, ZERO);
    }
  }

  lemma SameOrder(w: Cpx, u: Cpx, d: nat)
    requires Mul(u, w) == ONE
    ensures Pow(u, d) == ONE <==> Pow(w, d) == ONE
  {
    PowOfProduct(u, w, d);
    UnitFactor(Pow(u, d), Pow(w, d));
  }

  lemma UnitFactor(a: Cpx, b: Cpx)
    requires Mul(a, b) == ONE
    ensures a == ONE <==> b == ONE
  {
    AddLaws(a, ZERO, ZERO);
    AddLaws(b, ZERO, ZERO);
  }

  /** The inverse of a primitive root is one too. */
  lemma InverseRoot(w: Cpx, u: Cpx, n: nat)
    requires PrimitiveRoot(w, u, n)
    ensures PrimitiveRoot(u, w, n)
  {
    hide Mul, Pow;
    MulComm(u, w);
    SameOrder(w, u, n);
    forall d | 0 < d < n ensures Pow(u, d) != ONE {
      SameOrder(w, u, d);
    }
  }

  function Kernel(w: Cpx, u: Cpx, i: nat, j: nat): nat -> Cpx {
    (k: nat) =>
      ProductNat(i, k);
      ProductNat(k, j);
      Mul(Pow(w, i * k), Pow(u, k * j))
  }

  function Times(n: nat, a: Cpx): Cpx {
    Cpx(n as real * a.re, n as real * a.im)
  }

  lemma OneMore(n: nat, c: Cpx)
    ensures Add(Times(n, c), c) == Times(n + 1, c) && Times(0, c) == ZERO
  {
    assert (n + 1) as real == n as real + 1.0;
    Shared(n as real, c.re);
    Shared(n as real, c.im);
  }

  lemma Shared(n: real, x: real)
    ensures (n + 1.0) * x == n * x + x
  {
  }

  lemma {:induction false} SumConst(f: nat -> Cpx, c: Cpx, n: nat)
    requires forall k :: 0 <= k < n ==> f(k) == c
    ensures Sum(f, n) == Times(n, c)
  {
    if n > 0 {
      SumConst(f, c, n - 1);
      OneMore(n - 1, c);
      hide Times, Add;
    }
  }

  /** w^(ik) u^(kj) = w^((i - j) k) when i >= j and u undoes w. */
  lemma KernelTerm(w: Cpx, u: Cpx, i: nat, j: nat, k: nat)
    requires j <= i && Mul(u, w) == ONE
    ensures Kernel(w, u, i, j)(k) == Powers(w, i - j)(k)
  {
    hide Mul, Pow;
    ProductNat(i, k);
    ProductNat(k, j);
    ProductNat(k, i - j);
    assert i * k == k * (i - j) + k * j;
    PowAdd(w, k * (i - j), k * j);
    PowOfProduct(u, w, k * j);
    MulComm(Pow(u, k * j), Pow(w, k * j));
    MulAssoc(Pow(w, k * (i - j)), Pow(w, k * j), Pow(u, k * j));
    AddLaws(Pow(w, k * (i - j)), ZERO, ZERO);
  }

  lemma KernelSwap(w: Cpx, u: Cpx, i: nat, j: nat, k: nat)
    ensures Kernel(w, u, i, j)(k) == Kernel(u, w, j, i)(k)
  {
    hide Mul, Pow;
    ProductNat(i, k);
    ProductNat(k, j);
    MulComm(Pow(w, i * k), Pow(u, k * j));
    assert i * k == k * i && k * j == j * k;
  }

  lemma KernelSum(w: Cpx, u: Cpx, n: nat, i: nat, j: nat)
    requires PrimitiveRoot(w, u, n) && i < n && j < n
    ensures Sum(Kernel(w, u, i, j), n) == if i == j then Times(n, ONE) else ZERO
  {
    hide Mul, Pow, Kernel, Powers, Times;
    if j <= i {
      forall k: nat | k < n ensures Kernel(w, u, i, j)(k) == Powers(w, i - j)(k) {
        KernelTerm(w, u, i, j, k);
      }
      SumSame(Kernel(w, u, i, j), Powers(w, i - j), n);
      KernelEnd(w, n, i - j);
    } else {
      InverseRoot(w, u, n);
      forall k: nat | k < n ensures Kernel(w, u, i, j)(k) == Powers(u, j - i)(k) {
        KernelSwap(w, u, i, j, k);
        KernelTerm(u, w, j, i, k);
      }
      SumSame(Kernel(w, u, i, j), Powers(u, j - i), n);
      KernelEnd(u, n, j - i);
    }
  }

  lemma KernelEnd(w: Cpx, n: nat, d: nat)
    requires n >= 1 && Pow(w, n) == ONE && d < n && (d > 0 ==> Pow(w, d) != ONE)
    ensures Sum(Powers(w, d), n) == if d == 0 then Times(n, ONE) else ZERO
  {
    hide Mul, Pow, Times;
    if d == 0 {
      forall k: nat | k < n ensures Powers(w, 0)(k) == ONE {
        PowZero(w);
      }
      SumConst(Powers(w, 0), ONE, n);
    } else {
      Orthogonal(w, d, n);
    }
  }

  lemma PowZero(w: Cpx)
    ensures Pow(w, 0) == ONE
  {
  }

  /** Rows and columns of a square of terms add up to the same. */
  lemma {:induction false} SumSwap(f: (nat, nat) -> Cpx, n: nat, m: nat)
    ensures Sum((k: nat) => Sum((i: nat) => f(i, k), m), n) == Sum((i: nat) => Sum((k: nat) => f(i, k), n), m)
  {
    hide Add;
    if n == 0 {
      SumZero((i: nat) => Sum((k: nat) => f(i, k), n), m);
    } else {
      SumSwap(f, n - 1, m);
      var head := (i: nat) => Sum((k: nat) => f(i, k), n - 1);
      var last := (i: nat) => f(i, n - 1);
      SumPlus(head, last, m);
      SumSame(Both(head, last), (i: nat) => Sum((k: nat) => f(i, k), n), m);
    }
  }

  lemma {:induction false} SumSingle(f: nat -> Cpx, j: nat, n: nat)
    requires j < n && forall i :: 0 <= i < n && i != j ==> f(i) == ZERO
    ensures Sum(f, n) == f(j)
  {
    hide Add;
    if j == n - 1 {
      SumZero(f, n - 1);
      AddLaws(f(j), ZERO, ZERO);
    } else {
      SumSingle(f, j, n - 1);
      AddLaws(f(j), ZERO, ZERO);
    }
  }

  /** Transforming with w and then with its inverse multiplies by n: the unnormalized
      inverse transform undoes the forward one. */
  lemma InverseTransform(x: seq<Cpx>, y: seq<Cpx>, n: nat, w: Cpx, u: Cpx, j: nat)
    requires |x| == |y| == n && j < n && PrimitiveRoot(w, u, n)
    requires forall k :: 0 <= k < n ==> y[k] == Dft(x, 1, n, w, k)
    ensures Dft(y, 1, n, u, j) == Times(n, x[j])
  {
    hide Mul, Pow, Add, Times, PrimitiveRoot;
    var f := (i: nat, k: nat) => if i < n then Mul(x[i], Kernel(w, u, i, j)(k)) else ZERO;
    forall k: nat | k < n ensures Term(y, 1, u, j)(k) == Sum((i: nat) => f(i, k), n) {
      InverseTerm(x, n, w, u, j, k, f);
    }
    SumSame(Term(y, 1, u, j), (k: nat) => Sum((i: nat) => f(i, k), n), n);
    SumSwap(f, n, n);
    var g := (i: nat) => Sum((k: nat) => f(i, k), n);
    forall i: nat | i < n ensures g(i) == if i == j then Times(n, x[j]) else ZERO {
      InverseColumn(x, n, w, u, i, j, f);
    }
    SumSingle(g, j, n);
  }

  lemma InverseTerm(x: seq<Cpx>, n: nat, w: Cpx, u: Cpx, j: nat, k: nat, f: (nat, nat) -> Cpx)
    requires |x| == n && k < n && 0 <= k * j
    requires forall i: nat :: i < n ==> f(i, k) == Mul(x[i], Kernel(w, u, i, j)(k))
    ensures Mul(Dft(x, 1, n, w, k), Pow(u, k * j)) == Sum((i: nat) => f(i, k), n)
  {
    hide Mul, Pow, Add;
    var t, c := Term(x, 1, w, k), Pow(u, k * j);
    SumScale(t, c, n);
    forall i: nat | i < n ensures Mul(t(i), c) == f(i, k) {
      ProductNat(i, k);
      MulAssoc(x[i], Pow(w, i * k), c);
    }
    SumSame((i: nat) => Mul(t(i), c), (i: nat) => f(i, k), n);
  }

  lemma InverseColumn(x: seq<Cpx>, n: nat, w: Cpx, u: Cpx, i: nat, j: nat, f: (nat, nat) -> Cpx)
    requires |x| == n && i < n && j < n && PrimitiveRoot(w, u, n)
    requires forall k: nat :: f(i, k) == Mul(x[i], Kernel(w, u, i, j)(k))
    ensures Sum((k: nat) => f(i, k), n) == if i == j then Times(n, x[j]) else ZERO
  {
    hide Pow, Add, PrimitiveRoot, Kernel;
    KernelSum(w, u, n, i, j);
    var g, c := Kernel(w, u, i, j), x[i];
    SumScale(g, c, n);
    forall k: nat | k < n ensures Mul(g(k), c) == f(i, k) {
      MulComm(g(k), c);
    }
    SumSame((k: nat) => Mul(g(k), c), (k: nat) => f(i, k), n);
    UnitTimes(n, c);
  }

  lemma UnitTimes(n: nat, c: Cpx)
    ensures Mul(Times(n, ONE), c) == Times(n, c) && Mul(ZERO, c) == ZERO
  {
  }
}
