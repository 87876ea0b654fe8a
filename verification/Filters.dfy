/** The recursive filters of the postfilter over the reals.  Each is stated as a recursion of
    one sample at a time; the blocks of four or five that the program computes at once, and
    any cutting of the signal into chunks, give the same samples. */
module Filters {
  type Signal = seq<real>

  // ---- one sample at a time ----

  /** The two latest values, the newest first. */
  datatype Past = Past(one: real, two: real)

  function Shift(p: Past, v: real): Past {
    Past(v, p.one)
  }

  datatype Ar2 = Ar2(c1: real, c2: real)

  function Ar2Step(f: Ar2, p: Past, x: real): real {
    x - f.c1 * p.one - f.c2 * p.two
  }

  function Ar2Past(f: Ar2, p: Past, x: Signal): Past {
    if x == [] then p
    else
      var q := Ar2Past(f, p, x[..|x| - 1]);
      Shift(q, Ar2Step(f, q, x[|x| - 1]))
  }

  /** y[n] = x[n] - c1 y[n-1] - c2 y[n-2], from the given past. */
  function Ar2Out(f: Ar2, p: Past, x: Signal): (y: Signal)
    ensures |y| == |x|
  {
    if x == [] then []
    else Ar2Out(f, p, x[..|x| - 1]) + [Ar2Past(f, p, x).one]
  }

  function Ar1Step(c: real, p: real, x: real): real {
    x - c * p
  }

  function Ar1Last(c: real, p: real, x: Signal): real {
    if x == [] then p else Ar1Step(c, Ar1Last(c, p, x[..|x| - 1]), x[|x| - 1])
  }

  /** y[n] = x[n] - c y[n-1], from the given past. */
  function Ar1Out(c: real, p: real, x: Signal): (y: Signal)
    ensures |y| == |x|
  {
    if x == [] then [] else Ar1Out(c, p, x[..|x| - 1]) + [Ar1Last(c, p, x)]
  }

  function Ma1At(c: real, p: real, x: Signal, i: nat): real
    requires i < |x|
  {
    x[i] + c * (if i == 0 then p else x[i - 1])
  }

  /** y[n] = x[n] + c x[n-1]. */
  function Ma1Out(c: real, p: real, x: Signal): (y: Signal)
    ensures |y| == |x|
  {
    seq(|x|, i requires 0 <= i < |x| => Ma1At(c, p, x, i))
  }

  function LastOr(p: real, x: Signal): real {
    if x == [] then p else x[|x| - 1]
  }

  datatype Fir3 = Fir3(c0: real, c1: real, c2: real)

  function PastOf(p: Past, x: Signal): Past {
    if x == [] then p else Shift(PastOf(p, x[..|x| - 1]), x[|x| - 1])
  }

  function FirStep(f: Fir3, p: Past, x: real): real {
    f.c0 * x + f.c1 * p.one + f.c2 * p.two
  }

  /** y[n] = c0 x[n] + c1 x[n-1] + c2 x[n-2]. */
  function FirOut(f: Fir3, p: Past, x: Signal): (y: Signal)
    ensures |y| == |x|
  {
    if x == [] then []
    else
      FirOut(f, p, x[..|x| - 1]) + [FirStep(f, PastOf(p, x[..|x| - 1]), x[|x| - 1])]
  }

  datatype Arma2 = Arma2(ma: Fir3, ar: Ar2)
  datatype ArmaPast = ArmaPast(ma: Past, ar: Past)

  function ArmaOut(f: Arma2, p: ArmaPast, x: Signal): (y: Signal)
    ensures |y| == |x|
  {
    Ar2Out(f.ar, p.ar, FirOut(f.ma, p.ma, x))
  }

  function ArmaAfter(f: Arma2, p: ArmaPast, x: Signal): ArmaPast {
    ArmaPast(PastOf(p.ma, x), Ar2Past(f.ar, p.ar, FirOut(f.ma, p.ma, x)))
  }

  // ---- difference equations ----

  /** The value one or two samples before sample i, from the past at the start. */
  function Back1(p: Past, s: Signal, i: nat): real
    requires i <= |s|
  {
    if i == 0 then p.one else s[i - 1]
  }

  function Back2(p: Past, s: Signal, i: nat): real
    requires i <= |s|
  {
    if i == 0 then p.two else if i == 1 then p.one else s[i - 2]
  }

  lemma {:induction false} PastIs(p: Past, x: Signal)
    ensures PastOf(p, x) == Past(Back1(p, x, |x|), Back2(p, x, |x|))
  {
    if x != [] {
      PastIs(p, x[..|x| - 1]);
    }
  }

  lemma {:induction false} FirAt(f: Fir3, p: Past, x: Signal, i: nat)
    requires i < |x|
    ensures FirOut(f, p, x)[i] == f.c0 * x[i] + f.c1 * Back1(p, x, i) + f.c2 * Back2(p, x, i)
  {
    if i == |x| - 1 {
      PastIs(p, x[..i]);
    } else {
      FirAt(f, p, x[..|x| - 1], i);
    }
  }

  lemma {:induction false} Ar2PastIs(f: Ar2, p: Past, x: Signal)
    ensures var y := Ar2Out(f, p, x); Ar2Past(f, p, x) == Past(Back1(p, y, |y|), Back2(p, y, |y|))
  {
    hide Ar2Step;
    if x != [] {
      Ar2PastIs(f, p, x[..|x| - 1]);
    }
  }

  lemma {:induction false} Ar2At(f: Ar2, p: Past, x: Signal, i: nat)
    requires i < |x|
    ensures var y := Ar2Out(f, p, x); y[i] == x[i] - f.c1 * Back1(p, y, i) - f.c2 * Back2(p, y, i)
  {
    if i == |x| - 1 {
      Ar2PastIs(f, p, x[..i]);
      var y, z := Ar2Out(f, p, x), Ar2Out(f, p, x[..i]);
      assert Back1(p, y, i) == Back1(p, z, i) && Back2(p, y, i) == Back2(p, z, i);
    } else {
      Ar2At(f, p, x[..|x| - 1], i);
    }
  }

  /** The two stages meet one difference equation between input and output. */
  lemma ArmaAt(f: Arma2, p: ArmaPast, x: Signal, i: nat)
    requires i < |x|
    ensures var y := ArmaOut(f, p, x);
            y[i] == f.ma.c0 * x[i] + f.ma.c1 * Back1(p.ma, x, i) + f.ma.c2 * Back2(p.ma, x, i)
                    - f.ar.c1 * Back1(p.ar, y, i) - f.ar.c2 * Back2(p.ar, y, i)
  {
    FirAt(f.ma, p.ma, x, i);
    Ar2At(f.ar, p.ar, FirOut(f.ma, p.ma, x), i);
    hide FirOut, Ar2Out, Back1, Back2;
  }

  // ---- chunks ----

  lemma {:induction false} Ar2Chunks(f: Ar2, p: Past, a: Signal, b: Signal)
    ensures Ar2Past(f, p, a + b) == Ar2Past(f, Ar2Past(f, p, a), b)
    ensures Ar2Out(f, p, a + b) == Ar2Out(f, p, a) + Ar2Out(f, Ar2Past(f, p, a), b)
  {
    if b == [] {
      assert a + b == a;
    } else {
      var c := b[..|b| - 1];
      assert (a + b)[..|a + b| - 1] == a + c;
      Ar2Chunks(f, p, a, c);
    }
  }

  lemma {:induction false} Ar1Chunks(c: real, p: real, a: Signal, b: Signal)
    ensures Ar1Last(c, p, a + b) == Ar1Last(c, Ar1Last(c, p, a), b)
    ensures Ar1Out(c, p, a + b) == Ar1Out(c, p, a) + Ar1Out(c, Ar1Last(c, p, a), b)
  {
    if b == [] {
      assert a + b == a;
    } else {
      assert (a + b)[..|a + b| - 1] == a + b[..|b| - 1];
      Ar1Chunks(c, p, a, b[..|b| - 1]);
    }
  }

  lemma {:induction false} FirChunks(f: Fir3, p: Past, a: Signal, b: Signal)
    ensures PastOf(p, a + b) == PastOf(PastOf(p, a), b)
    ensures FirOut(f, p, a + b) == FirOut(f, p, a) + FirOut(f, PastOf(p, a), b)
  {
    if b == [] {
      assert a + b == a;
    } else {
      assert (a + b)[..|a + b| - 1] == a + b[..|b| - 1];
      FirChunks(f, p, a, b[..|b| - 1]);
    }
  }

  /** Filtering any two chunks one after the other is filtering them joined, empty chunks and chunks
      of one sample included. */
  lemma ArmaChunks(f: Arma2, p: ArmaPast, a: Signal, b: Signal)
    ensures ArmaOut(f, p, a + b) == ArmaOut(f, p, a) + ArmaOut(f, ArmaAfter(f, p, a), b)
    ensures ArmaAfter(f, p, a + b) == ArmaAfter(f, ArmaAfter(f, p, a), b)
  {
    FirChunks(f.ma, p.ma, a, b);
    Ar2Chunks(f.ar, p.ar, FirOut(f.ma, p.ma, a), FirOut(f.ma, PastOf(p.ma, a), b));
    hide FirOut, Ar2Out, PastOf, Ar2Past;
  }

  function Joined(chunks: seq<Signal>): Signal {
    if chunks == [] then [] else Joined(chunks[..|chunks| - 1]) + chunks[|chunks| - 1]
  }

  /** What is put out for one chunk after another, the state carried along. */
  function ChunkedArma(f: Arma2, p: ArmaPast, chunks: seq<Signal>): (Signal, ArmaPast) {
    if chunks == [] then ([], p)
    else
      var (y, q) := ChunkedArma(f, p, chunks[..|chunks| - 1]);
      var x := chunks[|chunks| - 1];
      (y + ArmaOut(f, q, x), ArmaAfter(f, q, x))
  }

  lemma {:induction false} AnyChunks(f: Arma2, p: ArmaPast, chunks: seq<Signal>)
    ensures ChunkedArma(f, p, chunks) == (ArmaOut(f, p, Joined(chunks)), ArmaAfter(f, p, Joined(chunks)))
  {
    if chunks != [] {
      AnyChunks(f, p, chunks[..|chunks| - 1]);
      ArmaChunks(f, p, Joined(chunks[..|chunks| - 1]), chunks[|chunks| - 1]);
    }
  }

  lemma Ma1Same(c: real, p: real, x: Signal, i: nat, q: real, y: Signal, j: nat)
    requires i < |x| && j < |y| && x[i] == y[j]
    requires (if i == 0 then p else x[i - 1]) == if j == 0 then q else y[j - 1]
    ensures Ma1At(c, p, x, i) == Ma1At(c, q, y, j)
  {
  }

  /** The same for the first-order average, the last input carried along. */
  lemma Ma1Chunks(c: real, p: real, a: Signal, b: Signal)
    ensures Ma1Out(c, p, a + b) == Ma1Out(c, p, a) + Ma1Out(c, LastOr(p, a), b)
    ensures LastOr(p, a + b) == LastOr(LastOr(p, a), b)
  {
    var x, y := a + b, Ma1Out(c, p, a) + Ma1Out(c, LastOr(p, a), b);
    forall i | 0 <= i < |x| ensures Ma1Out(c, p, x)[i] == y[i] {
      if i < |a| {
        Ma1Same(c, p, x, i, p, a, i);
      } else {
        Ma1Same(c, p, x, i, LastOr(p, a), b, i - |a|);
      }
    }
  }

  // ---- emphasis undone ----

  lemma {:induction false} Ar1At(c: real, p: real, x: Signal, i: nat)
    requires i < |x|
    ensures Ar1Out(c, p, x)[i] == x[i] - c * (if i == 0 then p else Ar1Out(c, p, x)[i - 1])
    ensures Ar1Last(c, p, x) == Ar1Out(c, p, x)[|x| - 1]
  {
    if i < |x| - 1 {
      Ar1At(c, p, x[..|x| - 1], i);
    } else if i > 0 {
      Ar1At(c, p, x[..|x| - 1], i - 1);
    }
  }

  /** The first-order average takes back what the first-order recursion did, from a common past,
      and the two keep a common past; and the other way round. */
  lemma EmphasisUndone(c: real, p: real, x: Signal)
    ensures Ma1Out(c, p, Ar1Out(c, p, x)) == x
    ensures LastOr(p, Ar1Out(c, p, x)) == Ar1Last(c, p, x)
  {
    forall i | 0 <= i < |x| ensures Ma1Out(c, p, Ar1Out(c, p, x))[i] == x[i] {
      Ar1At(c, p, x, i);
    }
    if x != [] {
      Ar1At(c, p, x, 0);
    }
  }

  lemma {:induction false} EmphasisRedone(c: real, p: real, x: Signal)
    ensures Ar1Out(c, p, Ma1Out(c, p, x)) == x
    ensures Ar1Last(c, p, Ma1Out(c, p, x)) == LastOr(p, x)
  {
    if x != [] {
      var v := x[..|x| - 1];
      var y := Ma1Out(c, p, x);
      assert y[..|x| - 1] == Ma1Out(c, p, v) by {
        assert forall i :: 0 <= i < |v| ==> Ma1At(c, p, x, i) == Ma1At(c, p, v, i);
      }
      EmphasisRedone(c, p, v);
      assert y[|x| - 1] == x[|x| - 1] + c * LastOr(p, v);
      assert Ar1Last(c, p, y) == x[|x| - 1];
      assert Ar1Out(c, p, y) == v + [x[|x| - 1]] == x;
    }
  }

  // ---- blocks ----

  lemma Ar2Snoc(f: Ar2, p: Past, v: Signal, a: real)
    ensures var o := Ar2Step(f, Ar2Past(f, p, v), a);
            Ar2Past(f, p, v + [a]) == Shift(Ar2Past(f, p, v), o) && Ar2Out(f, p, v + [a]) == Ar2Out(f, p, v) + [o]
  {
    assert (v + [a])[..|v|] == v;
  }

  lemma Ar1Snoc(c: real, p: real, v: Signal, a: real)
    ensures var o := Ar1Step(c, Ar1Last(c, p, v), a);
            Ar1Last(c, p, v + [a]) == o && Ar1Out(c, p, v + [a]) == Ar1Out(c, p, v) + [o]
  {
    assert (v + [a])[..|v|] == v;
  }

  lemma Ar2Next(f: Ar2, p: Past, x: Signal, k: nat)
    requires k < |x|
    ensures var q := Ar2Past(f, p, x[..k]);
            && Ar2Past(f, p, x[..k + 1]) == Shift(q, Ar2Step(f, q, x[k]))
            && Ar2Out(f, p, x[..k + 1]) == Ar2Out(f, p, x[..k]) + [Ar2Step(f, q, x[k])]
  {
    assert x[..k + 1] == x[..k] + [x[k]];
    Ar2Snoc(f, p, x[..k], x[k]);
  }

  lemma Ar1Next(c: real, p: real, x: Signal, k: nat)
    requires k < |x|
    ensures var o := Ar1Step(c, Ar1Last(c, p, x[..k]), x[k]);
            Ar1Last(c, p, x[..k + 1]) == o && Ar1Out(c, p, x[..k + 1]) == Ar1Out(c, p, x[..k]) + [o]
  {
    assert x[..k + 1] == x[..k] + [x[k]];
    Ar1Snoc(c, p, x[..k], x[k]);
  }

  lemma FirSnoc(f: Fir3, p: Past, v: Signal, a: real)
    ensures PastOf(p, v + [a]) == Shift(PastOf(p, v), a)
    ensures FirOut(f, p, v + [a]) == FirOut(f, p, v) + [FirStep(f, PastOf(p, v), a)]
  {
    assert (v + [a])[..|v|] == v;
  }

  datatype Four = Four(a: real, b: real, c: real, d: real) {
    function Seq(): Signal { [a, b, c, d] }
  }

  datatype Five = Five(a: real, b: real, c: real, d: real, e: real) {
    function Seq(): Signal { [a, b, c, d, e] }
  }

  ghost predicate FourOuts(f: Ar2, p: Past, x: Four, y: Four) {
    && y.a == Ar2Step(f, p, x.a) && y.b == Ar2Step(f, Past(y.a, p.one), x.b)
    && y.c == Ar2Step(f, Past(y.b, y.a), x.c) && y.d == Ar2Step(f, Past(y.c, y.b), x.d)
  }

  ghost predicate FiveOuts(c: real, p: real, x: Five, y: Five) {
    && y.a == Ar1Step(c, p, x.a) && y.b == Ar1Step(c, y.a, x.b) && y.c == Ar1Step(c, y.b, x.c)
    && y.d == Ar1Step(c, y.c, x.d) && y.e == Ar1Step(c, y.d, x.e)
  }

  // A sample plus so many weighted ones.

  function Plus1(x: real, i: real, u: real): real {
    x + i * u
  }

  function Plus2(x: real, i: real, u: real, j: real, v: real): real {
    x + i * u + j * v
  }

  function Plus3(x: real, i: real, u: real, j: real, v: real, k: real, w: real): real {
    x + i * u + j * v + k * w
  }

  function Plus4(x: real, i: real, u: real, j: real, v: real, k: real, w: real, l: real, z: real): real {
    x + i * u + j * v + k * w + l * z
  }

  function Plus5(x: real, i: real, u: real, j: real, v: real, k: real, w: real, l: real, z: real, m: real,
                 t: real): real {
    x + i * u + j * v + k * w + l * z + m * t
  }

  /** What one input, the newest output and the one before it contribute to the outputs after them. */
  datatype Taps2 = Taps2(imp1: real, imp2: real, imp3: real, imp4: real, ymp1: real, ymp2: real, ymp3: real, ymp4: real)

  function TapsOf(a: real, b: real): Taps2 {
    var imp2, imp3 := a * a + b, a * (a * a) + 2.0 * a * b;
    Taps2(a, imp2, imp3, a * (a * (a * a)) + b * b + 3.0 * (a * a) * b, b, b * a, b * imp2, b * imp3)
  }

  /** Four outputs of the second-order recursion from the past and four inputs, at once. */
  ghost predicate FourAtOnce(t: Taps2, p: Past, x: Four, y: Four) {
    && y.a == Plus2(x.a, t.imp1, p.one, t.ymp1, p.two)
    && y.b == Plus3(x.b, t.imp1, x.a, t.imp2, p.one, t.ymp2, p.two)
    && y.c == Plus4(x.c, t.imp1, x.b, t.imp2, x.a, t.imp3, p.one, t.ymp3, p.two)
    && y.d == Plus5(x.d, t.imp1, x.c, t.imp2, x.b, t.imp3, x.a, t.imp4, p.one, t.ymp4, p.two)
  }

  lemma TapsSecond(a: real, b: real, y1: real, y2: real, x0: real, x1: real)
    ensures Plus3(x1, a, x0, a * a + b, y1, b * a, y2) == Plus2(x1, a, Plus2(x0, a, y1, b, y2), b, y1)
  {
  }

  lemma TapsThird(a: real, b: real, y1: real, y2: real, x0: real, x1: real, x2: real)
    ensures var imp2, imp3 := a * a + b, a * (a * a) + 2.0 * a * b;
            Plus4(x2, a, x1, imp2, x0, imp3, y1, b * imp2, y2)
            == Plus2(x2, a, Plus3(x1, a, x0, imp2, y1, b * a, y2), b, Plus2(x0, a, y1, b, y2))
  {
  }

  lemma TapsFourth(a: real, b: real, y1: real, y2: real, x0: real, x1: real, x2: real, x3: real)
    ensures var imp2, imp3, imp4 := a * a + b, a * (a * a) + 2.0 * a * b, a * (a * (a * a)) + b * b + 3.0 * (a * a) * b;
            Plus5(x3, a, x2, imp2, x1, imp3, x0, imp4, y1, b * imp3, y2)
            == Plus2(x3, a, Plus4(x2, a, x1, imp2, x0, imp3, y1, b * imp2, y2), b,
                     Plus3(x1, a, x0, imp2, y1, b * a, y2))
  {
  }

  lemma Ar2Same(c1: real, c2: real, p: Past, x: real)
    ensures Plus2(x, -c1, p.one, -c2, p.two) == Ar2Step(Ar2(c1, c2), p, x)
  {
    Negated(c1, p.one);
    Negated(c2, p.two);
  }

  lemma Negated(c: real, y: real)
    ensures -c * y == -(c * y)
  {
  }

  lemma TapsAt(a: real, b: real, p: Past, x: Four)
    ensures var t := TapsOf(a, b);
            var o0 := Plus2(x.a, a, p.one, b, p.two);
            var o1 := Plus3(x.b, a, x.a, t.imp2, p.one, t.ymp2, p.two);
            var o2 := Plus4(x.c, a, x.b, t.imp2, x.a, t.imp3, p.one, t.ymp3, p.two);
            var o3 := Plus5(x.d, a, x.c, t.imp2, x.b, t.imp3, x.a, t.imp4, p.one, t.ymp4, p.two);
            && t.imp1 == a && t.ymp1 == b
            && o1 == Plus2(x.b, a, o0, b, p.one) && o2 == Plus2(x.c, a, o1, b, o0) && o3 == Plus2(x.d, a, o2, b, o1)
  {
    hide Plus2, Plus3, Plus4, Plus5;
    TapsSecond(a, b, p.one, p.two, x.a, x.b);
    TapsThird(a, b, p.one, p.two, x.a, x.b, x.c);
    TapsFourth(a, b, p.one, p.two, x.a, x.b, x.c, x.d);
  }

  lemma Ar2Block(c1: real, c2: real, p: Past, x: Four, y: Four)
    requires FourAtOnce(TapsOf(-c1, -c2), p, x, y)
    ensures FourOuts(Ar2(c1, c2), p, x, y)
  {
    hide TapsOf, Plus2, Plus3, Plus4, Plus5, Ar2Step;
    TapsAt(-c1, -c2, p, x);
    Ar2Same(c1, c2, p, x.a);
    Ar2Same(c1, c2, Past(y.a, p.one), x.b);
    Ar2Same(c1, c2, Past(y.b, y.a), x.c);
    Ar2Same(c1, c2, Past(y.c, y.b), x.d);
  }

  datatype Taps1 = Taps1(ar1: real, ar1_2: real, ar1_3: real, ar1_4: real, ar1_5: real)

  function PowersOf(a: real): Taps1 {
    Taps1(a, a * a, a * (a * a), a * (a * (a * a)), a * (a * (a * (a * a))))
  }

  /** Five outputs of the first-order recursion. */
  ghost predicate FiveAtOnce(t: Taps1, p: real, x: Five, y: Five) {
    && y.a == Plus1(x.a, t.ar1, p)
    && y.b == Plus2(x.b, t.ar1, x.a, t.ar1_2, p)
    && y.c == Plus3(x.c, t.ar1, x.b, t.ar1_2, x.a, t.ar1_3, p)
    && y.d == Plus4(x.d, t.ar1, x.c, t.ar1_2, x.b, t.ar1_3, x.a, t.ar1_4, p)
    && y.e == Plus5(x.e, t.ar1, x.d, t.ar1_2, x.c, t.ar1_3, x.b, t.ar1_4, x.a, t.ar1_5, p)
  }

  lemma Powers(a: real, p: real, x0: real, x1: real, x2: real, x3: real, x4: real)
    ensures var a2 := a * a; var a3 := a * a2; var a4 := a * a3;
            && Plus2(x1, a, x0, a2, p) == Plus1(x1, a, Plus1(x0, a, p))
            && Plus3(x2, a, x1, a2, x0, a3, p) == Plus1(x2, a, Plus2(x1, a, x0, a2, p))
            && Plus4(x3, a, x2, a2, x1, a3, x0, a4, p) == Plus1(x3, a, Plus3(x2, a, x1, a2, x0, a3, p))
            && Plus5(x4, a, x3, a2, x2, a3, x1, a4, x0, a * a4, p)
               == Plus1(x4, a, Plus4(x3, a, x2, a2, x1, a3, x0, a4, p))
  {
  }

  lemma PowersAt(a: real, p: real, x: Five)
    ensures var t := PowersOf(a);
            var o0 := Plus1(x.a, a, p);
            var o1 := Plus2(x.b, a, x.a, t.ar1_2, p);
            var o2 := Plus3(x.c, a, x.b, t.ar1_2, x.a, t.ar1_3, p);
            var o3 := Plus4(x.d, a, x.c, t.ar1_2, x.b, t.ar1_3, x.a, t.ar1_4, p);
            var o4 := Plus5(x.e, a, x.d, t.ar1_2, x.c, t.ar1_3, x.b, t.ar1_4, x.a, t.ar1_5, p);
            t.ar1 == a && o1 == Plus1(x.b, a, o0) && o2 == Plus1(x.c, a, o1) && o3 == Plus1(x.d, a, o2)
                && o4 == Plus1(x.e, a, o3)
  {
    hide Plus1, Plus2, Plus3, Plus4, Plus5;
    Powers(a, p, x.a, x.b, x.c, x.d, x.e);
  }

  lemma Ar1Same(c: real, p: real, x: real)
    ensures Plus1(x, -c, p) == Ar1Step(c, p, x)
  {
    Negated(c, p);
  }

  lemma Ar1Block(c: real, p: real, x: Five, y: Five)
    requires FiveAtOnce(PowersOf(-c), p, x, y)
    ensures FiveOuts(c, p, x, y)
  {
    hide PowersOf, Plus1, Plus2, Plus3, Plus4, Plus5, Ar1Step;
    PowersAt(-c, p, x);
    Ar1Same(c, p, x.a);
    Ar1Same(c, y.a, x.b);
    Ar1Same(c, y.b, x.c);
    Ar1Same(c, y.c, x.d);
    Ar1Same(c, y.d, x.e);
  }

  lemma Ar2Four(f: Ar2, p: Past, x: Four, y: Four)
    requires FourOuts(f, p, x, y)
    ensures Ar2Out(f, p, x.Seq()) == y.Seq() && Ar2Past(f, p, x.Seq()) == Past(y.d, y.c)
  {
    Ar2Snoc(f, p, [], x.a);
    Ar2Snoc(f, p, [x.a], x.b);
    Ar2Snoc(f, p, [x.a, x.b], x.c);
    Ar2Snoc(f, p, [x.a, x.b, x.c], x.d);
    assert [] + [x.a] == [x.a] && [x.a] + [x.b] == [x.a, x.b] && [x.a, x.b] + [x.c] == [x.a, x.b, x.c];
    assert [x.a, x.b, x.c] + [x.d] == x.Seq();
    hide Ar2Step;
  }

  lemma Ar1Five(c: real, p: real, x: Five, y: Five)
    requires FiveOuts(c, p, x, y)
    ensures Ar1Out(c, p, x.Seq()) == y.Seq() && Ar1Last(c, p, x.Seq()) == y.e
  {
    Ar1Snoc(c, p, [], x.a);
    Ar1Snoc(c, p, [x.a], x.b);
    Ar1Snoc(c, p, [x.a, x.b], x.c);
    Ar1Snoc(c, p, [x.a, x.b, x.c], x.d);
    Ar1Snoc(c, p, [x.a, x.b, x.c, x.d], x.e);
    assert [] + [x.a] == [x.a] && [x.a] + [x.b] == [x.a, x.b] && [x.a, x.b] + [x.c] == [x.a, x.b, x.c];
    assert [x.a, x.b, x.c] + [x.d] == [x.a, x.b, x.c, x.d] && [x.a, x.b, x.c, x.d] + [x.e] == x.Seq();
    hide Ar1Step;
  }

  /** A block of outputs behind what has been put out. */
  lemma Ar2Append(f: Ar2, p: Past, v: Signal, x: Four, y: Four)
    requires FourOuts(f, Ar2Past(f, p, v), x, y)
    ensures Ar2Out(f, p, v + x.Seq()) == Ar2Out(f, p, v) + y.Seq() && Ar2Past(f, p, v + x.Seq()) == Past(y.d, y.c)
  {
    Ar2Four(f, Ar2Past(f, p, v), x, y);
    Ar2Chunks(f, p, v, x.Seq());
    hide Ar2Out, Ar2Past, Ar2Step;
  }

  lemma Ar1Append(c: real, p: real, v: Signal, x: Five, y: Five)
    requires FiveOuts(c, Ar1Last(c, p, v), x, y)
    ensures Ar1Out(c, p, v + x.Seq()) == Ar1Out(c, p, v) + y.Seq() && Ar1Last(c, p, v + x.Seq()) == y.e
  {
    Ar1Five(c, Ar1Last(c, p, v), x, y);
    Ar1Chunks(c, p, v, x.Seq());
    hide Ar1Out, Ar1Last, Ar1Step;
  }

  // ---- the filters in place ----

  ghost predicate Unread(input: array<real>, x: Signal, k: nat)
    reads input
  {
    k <= |x| <= input.Length && forall i :: k <= i < |x| ==> input[i] == x[i]
  }

  ghost predicate Behind(out: array<real>, was: Signal, k: nat)
    reads out
  {
    k <= |was| == out.Length && forall i :: k <= i < |was| ==> out[i] == was[i]
  }

  /** One output in the place of the input just read. */
  method PutSample(input: array<real>, out: array<real>, nn: nat, y: real, ghost x: Signal, ghost was: Signal)
    requires nn < |x| <= out.Length && Unread(input, x, nn) && Behind(out, was, nn)
    modifies out
    ensures Unread(input, x, nn + 1) && Behind(out, was, nn + 1) && out[..nn + 1] == old(out[..nn]) + [y]
  {
    out[nn] := y;
  }

  lemma NextInput(input: array<real>, x: Signal, nn: nat)
    requires Unread(input, x, nn) && nn < |x|
    ensures nn < input.Length && input[nn] == x[nn]
  {
  }

  /** Reads four inputs and writes four outputs, each input before the output in its place. */
  method Ar2Quad(input: array<real>, nn: nat, t: Taps2, ytmp1: real, ytmp0: real, out: array<real>)
      returns (ghost xs: Four, ghost ys: Four)
    requires nn + 4 <= input.Length && nn + 4 <= out.Length
    modifies out
    ensures xs.Seq() == old(input[nn..nn + 4]) && FourAtOnce(t, Past(ytmp1, ytmp0), xs, ys)
    ensures out[..nn + 4] == old(out[..nn]) + ys.Seq()
    ensures forall i :: nn + 4 <= i < out.Length ==> out[i] == old(out[i])
    ensures forall i :: nn + 4 <= i < input.Length ==> input[i] == old(input[i])
  {
    hide Plus2, Plus3, Plus4, Plus5;
    var xtmp0 := input[nn];
    var xtmp1 := input[nn + 1];
    var xtmp2 := input[nn + 2];
    out[nn + 2] := Plus4(xtmp2, t.imp1, xtmp1, t.imp2, xtmp0, t.imp3, ytmp1, t.ymp3, ytmp0);
    var xtmp3 := input[nn + 3];
    out[nn + 3] := Plus5(xtmp3, t.imp1, xtmp2, t.imp2, xtmp1, t.imp3, xtmp0, t.imp4, ytmp1, t.ymp4, ytmp0);
    out[nn] := Plus2(xtmp0, t.imp1, ytmp1, t.ymp1, ytmp0);
    out[nn + 1] := Plus3(xtmp1, t.imp1, xtmp0, t.imp2, ytmp1, t.ymp2, ytmp0);
    xs := Four(xtmp0, xtmp1, xtmp2, xtmp3);
    ys := Four(out[nn], out[nn + 1], out[nn + 2], out[nn + 3]);
    assert out[..nn + 4] == out[..nn] + ys.Seq() && out[..nn] == old(out[..nn]);
  }

  /** The whole blocks of four. */
  method Ar2Blocks(input: array<real>, n: nat, c1: real, c2: real, state: Past, out: array<real>, ghost x: Signal,
                   ghost was: Signal)
      returns (nn: nat, now: Past)
    requires n <= out.Length && n <= input.Length && x == input[..n] && was == out[..]
    modifies out
    ensures n < nn + 4 && nn <= n && out[..nn] == Ar2Out(Ar2(c1, c2), state, x[..nn])
    ensures now == Ar2Past(Ar2(c1, c2), state, x[..nn]) && Unread(input, x, nn) && Behind(out, was, nn)
  {
    ghost var f := Ar2(c1, c2);
    var ytmp0, ytmp1 := state.two, state.one;
    var t := TapsOf(-c1, -c2);
    nn := 0;
    hide TapsOf;
    while nn + 3 < n
      invariant nn <= n && out[..nn] == Ar2Out(f, state, x[..nn])
      invariant Past(ytmp1, ytmp0) == Ar2Past(f, state, x[..nn])
      invariant Unread(input, x, nn) && Behind(out, was, nn)
    {
      hide Ar2Out, Ar2Past, Ar2Step, FourAtOnce, FourOuts;
      assert x[..nn + 4] == x[..nn] + input[nn..nn + 4];
      ghost var xs, ys := Ar2Quad(input, nn, t, ytmp1, ytmp0, out);
      Ar2Block(c1, c2, Past(ytmp1, ytmp0), xs, ys);
      Ar2Append(f, state, x[..nn], xs, ys);
      assert out[nn + 2] == out[..nn + 4][nn + 2] && out[nn + 3] == out[..nn + 4][nn + 3];
      ytmp0, ytmp1 := out[nn + 2], out[nn + 3];
      nn := nn + 4;
    }
    now := Past(ytmp1, ytmp0);
  }

  /** The output may be written over the input. */
  method PfFiltAr2(input: array<real>, n: nat, c1: real, c2: real, state: Past, out: array<real>) returns (after: Past)
    requires n <= input.Length && n <= out.Length
    modifies out
    ensures out[..n] == Ar2Out(Ar2(c1, c2), state, old(input[..n]))
    ensures forall i :: n <= i < out.Length ==> out[i] == old(out[i])
    ensures after == Ar2Past(Ar2(c1, c2), state, old(input[..n]))
  {
    ghost var f := Ar2(c1, c2);
    ghost var x: Signal, was: Signal := input[..n], out[..];
    hide Ar2Out, Ar2Past, Ar2Step, Plus2;
    var nn, now := Ar2Blocks(input, n, c1, c2, state, out, x, was);
    var ytmp0, ytmp1 := now.two, now.one;
    var ar1, ar2 := -c1, -c2;
    while nn < n
      invariant nn <= n && out[..nn] == Ar2Out(f, state, x[..nn])
      invariant Past(ytmp1, ytmp0) == Ar2Past(f, state, x[..nn])
      invariant Unread(input, x, nn) && Behind(out, was, nn)
    {
      hide Unread, Behind;
      NextInput(input, x, nn);
      Ar2Next(f, state, x, nn);
      var y := Plus2(input[nn], ar1, ytmp1, ar2, ytmp0);
      Ar2Same(c1, c2, Past(ytmp1, ytmp0), x[nn]);
      PutSample(input, out, nn, y, x, was);
      ytmp0, ytmp1 := ytmp1, y;
      nn := nn + 1;
    }
    after := Past(ytmp1, ytmp0);
    assert x[..n] == x;
  }

  method Ar1Quint(input: array<real>, nn: nat, t: Taps1, ytmp: real, out: array<real>)
      returns (ghost xs: Five, ghost ys: Five)
    requires nn + 5 <= input.Length && nn + 5 <= out.Length
    modifies out
    ensures xs.Seq() == old(input[nn..nn + 5]) && FiveAtOnce(t, ytmp, xs, ys)
    ensures out[..nn + 5] == old(out[..nn]) + ys.Seq()
    ensures forall i :: nn + 5 <= i < out.Length ==> out[i] == old(out[i])
    ensures forall i :: nn + 5 <= i < input.Length ==> input[i] == old(input[i])
  {
    hide Plus1, Plus2, Plus3, Plus4, Plus5;
    var xtmp0, xtmp1, xtmp2, xtmp3, xtmp4 := input[nn], input[nn + 1], input[nn + 2], input[nn + 3], input[nn + 4];
    out[nn + 4] := Plus5(xtmp4, t.ar1, xtmp3, t.ar1_2, xtmp2, t.ar1_3, xtmp1, t.ar1_4, xtmp0, t.ar1_5, ytmp);
    out[nn] := Plus1(xtmp0, t.ar1, ytmp);
    out[nn + 1] := Plus2(xtmp1, t.ar1, xtmp0, t.ar1_2, ytmp);
    out[nn + 2] := Plus3(xtmp2, t.ar1, xtmp1, t.ar1_2, xtmp0, t.ar1_3, ytmp);
    out[nn + 3] := Plus4(xtmp3, t.ar1, xtmp2, t.ar1_2, xtmp1, t.ar1_3, xtmp0, t.ar1_4, ytmp);
    xs := Five(xtmp0, xtmp1, xtmp2, xtmp3, xtmp4);
    ys := Five(out[nn], out[nn + 1], out[nn + 2], out[nn + 3], out[nn + 4]);
    assert out[..nn + 5] == out[..nn] + ys.Seq() && out[..nn] == old(out[..nn]);
  }

  /** The whole blocks of five. */
  method Ar1Blocks(input: array<real>, n: nat, c1: real, state: real, out: array<real>, ghost x: Signal,
                   ghost was: Signal)
      returns (nn: nat, ytmp: real)
    requires n <= out.Length && n <= input.Length && x == input[..n] && was == out[..]
    modifies out
    ensures n < nn + 5 && nn <= n && out[..nn] == Ar1Out(c1, state, x[..nn])
    ensures ytmp == Ar1Last(c1, state, x[..nn]) && Unread(input, x, nn) && Behind(out, was, nn)
  {
    var t := PowersOf(-c1);
    ytmp := state;
    nn := 0;
    hide PowersOf;
    while nn + 4 < n
      invariant nn <= n && out[..nn] == Ar1Out(c1, state, x[..nn]) && ytmp == Ar1Last(c1, state, x[..nn])
      invariant Unread(input, x, nn) && Behind(out, was, nn)
    {
      hide Ar1Out, Ar1Last, Ar1Step, FiveAtOnce, FiveOuts;
      assert x[..nn + 5] == x[..nn] + input[nn..nn + 5];
      ghost var xs, ys := Ar1Quint(input, nn, t, ytmp, out);
      Ar1Block(c1, ytmp, xs, ys);
      Ar1Append(c1, state, x[..nn], xs, ys);
      assert out[nn + 4] == out[..nn + 5][nn + 4];
      ytmp := out[nn + 4];
      nn := nn + 5;
    }
  }

  method PfFiltAr1(input: array<real>, n: nat, c1: real, state: real, out: array<real>) returns (after: real)
    requires n <= input.Length && n <= out.Length
    modifies out
    ensures out[..n] == Ar1Out(c1, state, old(input[..n]))
    ensures forall i :: n <= i < out.Length ==> out[i] == old(out[i])
    ensures after == Ar1Last(c1, state, old(input[..n]))
  {
    ghost var x: Signal, was: Signal := input[..n], out[..];
    var ar1 := -c1;
    hide Ar1Out, Ar1Last, Ar1Step, Plus1;
    var nn, ytmp := Ar1Blocks(input, n, c1, state, out, x, was);
    while nn < n
      invariant nn <= n && out[..nn] == Ar1Out(c1, state, x[..nn]) && ytmp == Ar1Last(c1, state, x[..nn])
      invariant Unread(input, x, nn) && Behind(out, was, nn)
    {
      hide Unread, Behind;
      NextInput(input, x, nn);
      Ar1Next(c1, state, x, nn);
      Ar1Same(c1, ytmp, x[nn]);
      ytmp := Plus1(input[nn], ar1, ytmp);
      PutSample(input, out, nn, ytmp, x, was);
      nn := nn + 1;
    }
    after := ytmp;
    assert x[..n] == x;
  }

  /** Runs from the end, so that the output may be written over the input.  What is carried on is
      the last input as it stands after the call: written over, that is the last output, and only
      separate arrays can be filtered in chunks. */
  method PfFiltMa1(input: array<real>, n: nat, c1: real, state: real, out: array<real>) returns (after: real)
    requires n <= input.Length && n <= out.Length
    modifies out
    ensures out[..n] == Ma1Out(c1, state, old(input[..n]))
    ensures forall i :: n <= i < out.Length ==> out[i] == old(out[i])
    ensures after == LastOr(state, input[..n])
    ensures input != out ==> after == LastOr(state, old(input[..n]))
  {
    ghost var x: Signal := input[..n];
    after := state;
    var i := n - 1;
    while i >= 1
      invariant -1 <= i < n && (n > 0 ==> i >= 0)
      invariant forall j :: 0 <= j <= i < n ==> input[j] == x[j]
      invariant forall j :: 1 <= j < n && i < j ==> out[j] == Ma1At(c1, state, x, j)
      invariant forall j :: n <= j < out.Length ==> out[j] == old(out[j])
    {
      out[i] := input[i] + c1 * input[i - 1];
      i := i - 1;
    }
    if n > 0 {
      out[0] := input[0] + c1 * state;
      after := input[n - 1];
    }
    assert forall j :: 0 <= j < n ==> out[j] == Ma1At(c1, state, x, j);
  }

  method SmplPfFir3(input: array<real>, n: nat, coef: Fir3, state: Past, out: array<real>) returns (after: Past)
    requires n <= input.Length && n <= out.Length && input != out
    modifies out
    ensures out[..n] == FirOut(coef, state, input[..n])
    ensures forall i :: n <= i < out.Length ==> out[i] == old(out[i])
    ensures after == PastOf(state, input[..n])
  {
    var xm1, xm2 := state.one, state.two;
    for i := 0 to n
      invariant out[..i] == FirOut(coef, state, input[..i])
      invariant forall j :: n <= j < out.Length ==> out[j] == old(out[j])
    {
      var p1 := if i >= 1 then input[i - 1] else xm1;
      var p2 := if i >= 2 then input[i - 2] else if i == 1 then xm1 else xm2;
      LastTwo(state, input[..i]);
      hide FirOut, FirStep;
      ghost var done := out[..i];
      FirSnoc(coef, state, input[..i], input[i]);
      assert input[..i + 1] == input[..i] + [input[i]];
      out[i] := FirStep(coef, Past(p1, p2), input[i]);
      assert out[..i + 1] == done + [out[i]];
    }
    LastTwo(state, input[..n]);
    if n >= 2 {
      after := Past(input[n - 1], input[n - 2]);
    } else if n == 1 {
      after := Past(input[0], xm1);
    } else {
      after := state;
    }
  }

  lemma LastTwo(p: Past, x: Signal)
    ensures PastOf(p, x) == Past(LastOr(p.one, x), if |x| >= 2 then x[|x| - 2] else if |x| == 1 then p.one else p.two)
  {
    if x != [] {
      var v := x[..|x| - 1];
      assert PastOf(p, x) == Shift(PastOf(p, v), x[|x| - 1]);
      if v != [] {
        assert PastOf(p, v) == Shift(PastOf(p, v[..|v| - 1]), v[|v| - 1]);
      }
    }
  }

  method SmplFiltArma2(input: array<real>, n: nat, f: Arma2, state: ArmaPast, out: array<real>)
      returns (after: ArmaPast)
    requires n <= input.Length && n <= out.Length
    modifies out
    ensures out[..n] == ArmaOut(f, state, old(input[..n])) && after == ArmaAfter(f, state, old(input[..n]))
    ensures forall i :: n <= i < out.Length ==> out[i] == old(out[i])
  {
    var tmp := new real[n](_ => 0.0);
    var maSt := SmplPfFir3(input, n, f.ma, state.ma, tmp);
    assert tmp[..n] == FirOut(f.ma, state.ma, old(input[..n]));
    var arSt := PfFiltAr2(tmp, n, f.ar.c1, f.ar.c2, state.ar, out);
    after := ArmaPast(maSt, arSt);
  }
}
