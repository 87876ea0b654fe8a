/** Reference semantics of the range coder: a symbol narrows an interval of code
    values, and a byte string stands for one code value.  The encoder has to name a
    byte string inside the final interval; the decoder has to find, step by step,
    which sub-interval the byte string lies in.  Integers are unbounded here. */
module RangeSpec {
  const CODE_TOP: int := 0x8000_0000
  const CODE_BOT: int := 0x80_0000

  type Byte = x: int | 0 <= x < 256

  datatype RawSym = Sym(fl: nat, fh: nat, ft: nat)

  /** A symbol with cumulative range [fl, fh) out of ft.  Symbols of zero width
      would leave the coder without a range. */
  type Sym = s: RawSym | s.fl < s.fh <= s.ft <= CODE_BOT witness Sym(0, 1, 1)

  /** Code values [low, low + rng) at the precision of `bytes` bytes less one bit. */
  datatype RawInterval = Interval(low: int, rng: nat, bytes: nat)

  type Interval = iv: RawInterval | CODE_BOT < iv.rng <= CODE_TOP && iv.bytes >= 1
    witness Interval(0, CODE_TOP, 4)

  const START: Interval := Interval(0, CODE_TOP, 4)

  /** Keep the part of the interval that belongs to s; what is left over from dividing
      the range by ft goes to the lowest symbol. */
  function Narrow(iv: Interval, s: Sym): (r: RawInterval)
    ensures 0 < r.rng <= iv.rng && r.bytes == iv.bytes
    ensures iv.low <= r.low && r.low + r.rng <= iv.low + iv.rng
  {
    WidthFits(iv.rng, s.ft);
    NarrowBy(iv, s, iv.rng / s.ft)
  }

  function NarrowBy(iv: Interval, s: Sym, w: nat): (r: RawInterval)
    requires w >= 1 && w * s.ft <= iv.rng
    ensures 0 < r.rng <= iv.rng && r.bytes == iv.bytes
    ensures iv.low <= r.low && r.low + r.rng <= iv.low + iv.rng
  {
    Portions(iv.rng, s, w);
    if s.fl > 0 then
      Interval(iv.low + iv.rng - w * (s.ft - s.fl), w * (s.fh - s.fl), iv.bytes)
    else
      Interval(iv.low, iv.rng - w * (s.ft - s.fh), iv.bytes)
  }

  lemma Portions(rng: nat, s: Sym, w: nat)
    requires w >= 1 && w * s.ft <= rng
    ensures 0 < w * (s.fh - s.fl) && 0 <= w * (s.ft - s.fh) < rng
    ensures w * (s.fh - s.fl) + w * (s.ft - s.fh) == w * (s.ft - s.fl) <= rng
  {
    assert w * (s.fh - s.fl) >= 1 * 1;
    assert 0 <= w * (s.ft - s.fh);
    assert w * (s.ft - s.fl) <= w * s.ft;
  }

  lemma WidthFits(rng: nat, ft: nat)
    requires 0 < ft <= CODE_BOT < rng
    ensures rng / ft >= 1 && rng / ft * ft <= rng
  {
  }

  lemma NarrowFits(rng: nat, s: Sym)
    requires CODE_BOT < rng
    ensures var w := rng / s.ft;
            w >= 1 && 0 < w * (s.fh - s.fl) && w * s.ft <= rng
            && w * (s.fh - s.fl) + w * (s.ft - s.fh) == w * (s.ft - s.fl) <= rng
            && 0 <= w * (s.ft - s.fh) < rng
  {
    WidthFits(rng, s.ft);
    Portions(rng, s, rng / s.ft);
  }

  /** Scale by whole bytes until the range exceeds CODE_BOT again. */
  function Renorm(iv: RawInterval): Interval
    requires 0 < iv.rng <= CODE_TOP && iv.bytes >= 1
    decreases if iv.rng <= CODE_BOT then CODE_BOT + 1 - iv.rng else 0
  {
    if iv.rng <= CODE_BOT then Renorm(Interval(iv.low * 256, iv.rng * 256, iv.bytes + 1)) else iv
  }

  /** The symbols of one total tile the interval: the first starts at its low end, each next one where the
      one before ends, the last ends at its high end.  All but the first have their share of the range,
      cut to a whole number for one part; the first has the rest. */
  lemma NarrowTiles(iv: Interval, s: Sym, t: Sym)
    ensures s.fl == 0 ==> Narrow(iv, s).low == iv.low
    ensures s.fh == t.fl && s.ft == t.ft ==> Narrow(iv, t).low == Narrow(iv, s).low + Narrow(iv, s).rng
    ensures s.fh == s.ft ==> Narrow(iv, s).low + Narrow(iv, s).rng == iv.low + iv.rng
    ensures s.fl > 0 ==> Narrow(iv, s).rng == iv.rng / s.ft * (s.fh - s.fl)
  {
    if s.fh == t.fl && s.ft == t.ft {
      Tiling(iv.rng / s.ft, s.ft, s.fl, s.fh);
    }
    NarrowEnds(iv, s);
  }

  lemma NarrowEnds(iv: Interval, s: Sym)
    ensures s.fh == s.ft ==> Narrow(iv, s).low + Narrow(iv, s).rng == iv.low + iv.rng
    ensures s.fl == 0 ==> Narrow(iv, s).low == iv.low
  {
    Tiling(iv.rng / s.ft, s.ft, s.fl, s.fh);
  }

  lemma Tiling(w: int, ft: int, fl: int, fh: int)
    ensures w * (ft - fl) == w * (fh - fl) + w * (ft - fh)
  {
  }

  function Step(iv: Interval, s: Sym): Interval {
    Renorm(Narrow(iv, s))
  }

  function Run(iv: Interval, syms: seq<Sym>): Interval
    decreases |syms|
  {
    if syms == [] then iv else Run(Step(iv, syms[0]), syms[1..])
  }

  lemma {:induction false} RunAppend(iv: Interval, a: seq<Sym>, b: seq<Sym>)
    ensures Run(iv, a + b) == Run(Run(iv, a), b)
    decreases |a|
  {
    if a == [] {
      assert a + b == b;
    } else {
      assert (a + b)[1..] == a[1..] + b;
      RunAppend(Step(iv, a[0]), a[1..], b);
    }
  }

  lemma RunSnoc(iv: Interval, a: seq<Sym>, s: Sym)
    ensures Run(iv, a + [s]) == Step(Run(iv, a), s)
  {
    RunAppend(iv, a, [s]);
    assert Run(Run(iv, a), [s]) == Run(Step(Run(iv, a), s), []);
  }

  lemma RunOne(iv: Interval, s: Sym)
    ensures Run(iv, []) == iv && Run(iv, [s]) == Step(iv, s)
  {
    assert Run(Step(iv, s), [s][1..]) == Step(iv, s);
  }

  // ---- byte strings as code values ----

  /** Beyond its end a byte string continues with zeros. */
  function ByteAt(b: seq<Byte>, i: nat): Byte {
    if i < |b| then b[i] else 0
  }

  function Prefix(b: seq<Byte>, n: nat): nat {
    if n == 0 then 0 else Prefix(b, n - 1) * 256 + ByteAt(b, n - 1)
  }

  /** The first 8 * n - 1 bits of b, read as one number. */
  function Code(b: seq<Byte>, n: nat): nat {
    Prefix(b, n) / 2
  }

  /** The eight bits that extend Code(b, n) to Code(b, n + 1). */
  function NextBits(b: seq<Byte>, n: nat): Byte
    requires n >= 1
  {
    (ByteAt(b, n - 1) % 2 * 256 + ByteAt(b, n)) / 2
  }

  lemma CodeExtend(b: seq<Byte>, n: nat)
    requires n >= 1
    ensures Code(b, n + 1) == Code(b, n) * 256 + NextBits(b, n)
  {
    var p := Prefix(b, n);
    assert p == Prefix(b, n - 1) * 256 + ByteAt(b, n - 1);
    assert p % 2 == ByteAt(b, n - 1) % 2;
    assert Prefix(b, n + 1) == p * 256 + ByteAt(b, n);
  }

  ghost predicate InCode(b: seq<Byte>, iv: RawInterval) {
    iv.low <= Code(b, iv.bytes) < iv.low + iv.rng
  }

  /** Renormalizing changes the precision, not the set of byte strings. */
  lemma {:induction false} RenormInCode(b: seq<Byte>, iv: RawInterval)
    requires 0 < iv.rng <= CODE_TOP && iv.bytes >= 1
    ensures InCode(b, Renorm(iv)) <==> InCode(b, iv)
    decreases if iv.rng <= CODE_BOT then CODE_BOT + 1 - iv.rng else 0
  {
    if iv.rng <= CODE_BOT {
      var up := Interval(iv.low * 256, iv.rng * 256, iv.bytes + 1);
      CodeExtend(b, iv.bytes);
      assert InCode(b, up) <==> InCode(b, iv);
      RenormInCode(b, up);
    }
  }

  lemma StepInCode(b: seq<Byte>, iv: Interval, s: Sym)
    ensures InCode(b, Step(iv, s)) <==> InCode(b, Narrow(iv, s))
    ensures InCode(b, Step(iv, s)) ==> InCode(b, iv)
  {
    RenormInCode(b, Narrow(iv, s));
  }

  /** What is inside the interval of a whole run is inside that of its first part. */
  lemma {:induction false} RunInCode(b: seq<Byte>, iv: Interval, syms: seq<Sym>)
    requires InCode(b, Run(iv, syms))
    ensures InCode(b, iv)
    decreases |syms|
  {
    if syms != [] {
      RunInCode(b, Step(iv, syms[0]), syms[1..]);
      StepInCode(b, iv, syms[0]);
    }
  }

  /** The decoder's estimate of the cumulative frequency, from the distance of the
      code value to the top of the interval. */
  function Estimate(val: nat, width: nat, ft: nat): (f: nat)
    requires width > 0 && ft > 0
    ensures f < ft
  {
    QuotientCompare(val, width, 0);
    var q: nat := val / width;
    ft - (if q + 1 < ft then q + 1 else ft)
  }

  /** The estimate falls in [fl, fh) exactly when the code value lies in the narrowed
      interval. */
  lemma EstimateLocates(iv: Interval, code: int, s: Sym)
    requires iv.low <= code < iv.low + iv.rng
    ensures iv.rng / s.ft >= 1
    ensures var f := Estimate(iv.low + iv.rng - 1 - code, iv.rng / s.ft, s.ft);
            var nar := Narrow(iv, s);
            nar.low <= code < nar.low + nar.rng <==> s.fl <= f < s.fh
  {
    NarrowFits(iv.rng, s);
    var w := iv.rng / s.ft;
    var val := iv.low + iv.rng - 1 - code;
    QuotientCompare(val, w, s.ft - s.fh);
    QuotientCompare(val, w, s.ft - s.fl);
  }

  lemma QuotientCompare(val: nat, w: nat, n: nat)
    requires w > 0
    ensures val / w >= n <==> val >= w * n
  {
    var q := val / w;
    assert val == w * q + val % w;
    if q >= n {
      assert w * q >= w * n;
    } else {
      assert w * n >= w * (q + 1);
    }
  }

  /** Two symbols of one alphabet total can hold the same code value only when
      their cumulative ranges overlap. */
  lemma SymsOverlap(b: seq<Byte>, iv: Interval, s: Sym, t: Sym)
    requires s.ft == t.ft
    requires InCode(b, Step(iv, s)) && InCode(b, Step(iv, t))
    ensures s.fl < t.fh && t.fl < s.fh
  {
    StepInCode(b, iv, s);
    StepInCode(b, iv, t);
    var code := Code(b, iv.bytes);
    EstimateLocates(iv, code, s);
    EstimateLocates(iv, code, t);
  }

  // ---- tables ----

  ghost predicate Below(c: seq<nat>, i: nat, j: nat)
    requires i < |c| && j < |c|
  {
    c[i] < c[j]
  }

  ghost predicate IsCdf(c: seq<nat>) {
    |c| >= 2 && c[|c| - 1] <= 0xffff && forall i, j :: 0 <= i < j < |c| ==> Below(c, i, j)
  }

  /** A cumulative table in which every symbol has width at least one. */
  type Cdf = c: seq<nat> | IsCdf(c) ghost witness CdfWitness()

  ghost function CdfWitness(): (c: seq<nat>)
    ensures IsCdf(c)
  {
    assert forall i, j :: 0 <= i < j < 2 ==> Below([0, 1], i, j);
    [0, 1]
  }

  lemma CdfOrder(c: Cdf, i: nat, j: nat)
    requires i <= j < |c|
    ensures c[i] <= c[j] && (i < j ==> c[i] < c[j])
  {
    assert i < j ==> Below(c, i, j);
  }

  function CdfSym(c: Cdf, i: nat): Sym
    requires i < |c| - 1
  {
    CdfOrder(c, 0, i);
    CdfOrder(c, i, i + 1);
    CdfOrder(c, i + 1, |c| - 1);
    Sym(c[i] - c[0], c[i + 1] - c[0], c[|c| - 1] - c[0])
  }

  lemma CdfWindow(c: Cdf, start: nat, n: nat)
    requires n >= 2 && start + n <= |c|
    ensures IsCdf(c[start..start + n])
  {
    CdfOrder(c, start + n - 1, |c| - 1);
    var w := c[start..start + n];
    forall i, j | 0 <= i < j < n ensures Below(w, i, j) {
      CdfOrder(c, start + i, start + j);
    }
  }

  /** The symbol of a window, in the frequencies of the whole table. */
  lemma WindowSym(c: Cdf, start: nat, n: nat, i: nat)
    requires n >= 2 && start + n <= |c| && i < n - 1
    ensures IsCdf(c[start..start + n]) && c[start] <= c[start + i] < c[start + i + 1] <= c[start + n - 1]
    ensures CdfSym(c[start..start + n], i)
         == Sym(c[start + i] - c[start], c[start + i + 1] - c[start], c[start + n - 1] - c[start])
  {
    CdfWindow(c, start, n);
    CdfOrder(c, start, start + i);
    CdfOrder(c, start + i, start + i + 1);
    CdfOrder(c, start + i + 1, start + n - 1);
  }

  lemma CdfUnique(b: seq<Byte>, iv: Interval, c: Cdf, i: nat, j: nat)
    requires i < |c| - 1 && j < |c| - 1
    requires InCode(b, Step(iv, CdfSym(c, i))) && InCode(b, Step(iv, CdfSym(c, j)))
    ensures i == j
  {
    SymsOverlap(b, iv, CdfSym(c, i), CdfSym(c, j));
    if i < j {
      CdfOrder(c, i + 1, j);
    } else if j < i {
      CdfOrder(c, j + 1, i);
    }
  }

  /** The symbols of a table adjoin, each as wide as the step of the table. */
  lemma CdfTiles(c: Cdf, i: nat)
    requires i < |c| - 1
    ensures CdfSym(c, i).fh - CdfSym(c, i).fl == c[i + 1] - c[i] && CdfSym(c, i).ft == c[|c| - 1] - c[0]
    ensures i == 0 ==> CdfSym(c, i).fl == 0
    ensures i == |c| - 2 ==> CdfSym(c, i).fh == CdfSym(c, i).ft
    ensures i < |c| - 2 ==> CdfSym(c, i + 1).fl == CdfSym(c, i).fh
  {
  }

  /** The symbol of a value in the stretch of a table from lo to hi. */
  ghost predicate InStretch(c: Cdf, lo: int, hi: int, v: int, s: Sym) {
    && 0 <= lo < hi < |c| && 0 <= v < hi - lo && IsCdf(c[lo..hi + 1]) && s == CdfSym(c[lo..hi + 1], v)
  }

  /** One of ft equally likely values. */
  function UniformSym(v: nat, ft: nat): Sym
    requires v < ft <= CODE_BOT
  {
    Sym(v, v + 1, ft)
  }

  lemma UniformUnique(b: seq<Byte>, iv: Interval, ft: nat, v: nat, w: nat)
    requires v < ft && w < ft <= CODE_BOT
    requires InCode(b, Step(iv, UniformSym(v, ft))) && InCode(b, Step(iv, UniformSym(w, ft)))
    ensures v == w
  {
    SymsOverlap(b, iv, UniformSym(v, ft), UniformSym(w, ft));
  }

  // ---- unique readability ----

  lemma Regroup<T>(a: seq<T>, b: seq<T>, c: seq<T>)
    ensures (a + b) + c == a + (b + c)
  {
  }

  /** x stands in s from position at on. */
  ghost predicate Stands(s: seq<Sym>, at: nat, x: seq<Sym>) {
    at + |x| <= |s| && s[at..at + |x|] == x
  }

  lemma StandsParts(a: seq<Sym>, b: seq<Sym>)
    ensures Stands(a + b, 0, a) && Stands(a + b, |a|, b)
  {
  }

  lemma StandsIn(s: seq<Sym>, at: nat, x: seq<Sym>, from: nat, y: seq<Sym>)
    requires Stands(s, at, x) && Stands(x, from, y)
    ensures Stands(s, at + from, y)
  {
    assert forall j :: 0 <= j < |y| ==> y[j] == x[from..from + |y|][j] == x[from + j];
    assert forall j :: 0 <= j < |x| ==> x[j] == s[at..at + |x|][j] == s[at + j];
  }

  lemma SameSnoc<T>(x: seq<T>, y: seq<T>)
    requires |x| == |y| > 0
    requires x[..|x| - 1] == y[..|x| - 1] && x[|x| - 1] == y[|x| - 1]
    ensures x == y
  {
    assert x == x[..|x| - 1] + [x[|x| - 1]];
    assert y == y[..|x| - 1] + [y[|x| - 1]];
  }

  /** b continues from iv with the symbols syms. */
  ghost predicate Reads(b: seq<Byte>, iv: Interval, syms: seq<Sym>) {
    InCode(b, Run(iv, syms))
  }

  lemma ReadsHead(b: seq<Byte>, iv: Interval, s: Sym, rest: seq<Sym>)
    requires Reads(b, iv, [s] + rest)
    ensures InCode(b, Step(iv, s)) && Reads(b, Step(iv, s), rest)
  {
    assert ([s] + rest)[1..] == rest;
    RunInCode(b, Step(iv, s), rest);
  }

  lemma ReadsAfter(b: seq<Byte>, iv: Interval, syms: seq<Sym>, rest: seq<Sym>)
    requires Reads(b, iv, syms + rest)
    ensures Reads(b, iv, syms) && Reads(b, Run(iv, syms), rest)
  {
    RunAppend(iv, syms, rest);
    RunInCode(b, Run(iv, syms), rest);
  }

  lemma CdfHeadUnique(b: seq<Byte>, iv: Interval, c: Cdf, i: nat, j: nat, p: seq<Sym>, q: seq<Sym>)
    requires i < |c| - 1 && j < |c| - 1
    requires Reads(b, iv, [CdfSym(c, i)] + p) && Reads(b, iv, [CdfSym(c, j)] + q)
    ensures i == j
    ensures Reads(b, Step(iv, CdfSym(c, i)), p) && Reads(b, Step(iv, CdfSym(c, i)), q)
  {
    ReadsHead(b, iv, CdfSym(c, i), p);
    ReadsHead(b, iv, CdfSym(c, j), q);
    CdfUnique(b, iv, c, i, j);
  }

  lemma UniformHeadUnique(b: seq<Byte>, iv: Interval, ft: nat, v: nat, w: nat, p: seq<Sym>, q: seq<Sym>)
    requires v < ft && w < ft <= CODE_BOT
    requires Reads(b, iv, [UniformSym(v, ft)] + p) && Reads(b, iv, [UniformSym(w, ft)] + q)
    ensures v == w
    ensures Reads(b, Step(iv, UniformSym(v, ft)), p) && Reads(b, Step(iv, UniformSym(v, ft)), q)
  {
    ReadsHead(b, iv, UniformSym(v, ft), p);
    ReadsHead(b, iv, UniformSym(w, ft), q);
    UniformUnique(b, iv, ft, v, w);
  }

  // ---- lists whose tables depend on what was read before ----

  /** The table of the next index, as a function of the indices so far. */
  type Model = seq<nat> -> Cdf

  ghost predicate Admissible(next: Model, xs: seq<nat>) {
    forall i :: 0 <= i < |xs| ==> xs[i] < |next(xs[..i])| - 1
  }

  ghost function AdaptiveSyms(next: Model, xs: seq<nat>): (r: seq<Sym>)
    requires Admissible(next, xs)
    ensures |r| == |xs|
  {
    if xs == [] then []
    else
      var n := |xs| - 1;
      AdmissiblePrefix(next, xs, n);
      AdaptiveSyms(next, xs[..n]) + [CdfSym(next(xs[..n]), xs[n])]
  }

  lemma AdmissiblePrefix(next: Model, xs: seq<nat>, n: nat)
    requires n <= |xs| && Admissible(next, xs)
    ensures Admissible(next, xs[..n])
  {
    forall i | 0 <= i < n ensures xs[..n][i] < |next(xs[..n][..i])| - 1 {
      assert xs[..n][..i] == xs[..i];
    }
  }

  /** Symbol i is that of value i in the table that follows from the values before. */
  lemma {:induction false} AdaptiveAt(next: Model, xs: seq<nat>, i: nat)
    requires Admissible(next, xs) && i < |xs|
    ensures AdaptiveSyms(next, xs)[i] == CdfSym(next(xs[..i]), xs[i])
  {
    var n := |xs| - 1;
    AdmissiblePrefix(next, xs, n);
    if i < n {
      AdaptiveAt(next, xs[..n], i);
      assert xs[..n][..i] == xs[..i];
    }
  }

  lemma AdmissibleLast(next: Model, xs: seq<nat>)
    requires xs != []
    ensures var n := |xs| - 1;
            Admissible(next, xs) <==> Admissible(next, xs[..n]) && xs[n] < |next(xs[..n])| - 1
  {
    var n := |xs| - 1;
    forall i | 0 <= i < n ensures xs[..n][..i] == xs[..i] {
    }
    if Admissible(next, xs) {
      AdmissiblePrefix(next, xs, n);
    }
    if Admissible(next, xs[..n]) && xs[n] < |next(xs[..n])| - 1 {
      assert xs[..n] + [xs[n]] == xs;
      AdaptiveSnoc(next, xs[..n], xs[n]);
    }
  }

  lemma AdaptiveSnoc(next: Model, xs: seq<nat>, x: nat)
    requires Admissible(next, xs) && x < |next(xs)| - 1
    ensures Admissible(next, xs + [x])
    ensures AdaptiveSyms(next, xs + [x]) == AdaptiveSyms(next, xs) + [CdfSym(next(xs), x)]
  {
    forall i | 0 <= i < |xs| + 1 ensures (xs + [x])[i] < |next((xs + [x])[..i])| - 1 {
      assert (xs + [x])[..i] == xs[..i];
    }
    assert (xs + [x])[..|xs|] == xs;
  }

  lemma AdaptiveSlice(next: Model, xs: seq<nat>, k: nat)
    requires k < |xs| && Admissible(next, xs)
    ensures Admissible(next, xs[..k]) && Admissible(next, xs[..k + 1]) && xs[k] < |next(xs[..k])| - 1
    ensures AdaptiveSyms(next, xs[..k + 1]) == AdaptiveSyms(next, xs[..k]) + [CdfSym(next(xs[..k]), xs[k])]
  {
    hide AdaptiveSyms;
    AdmissiblePrefix(next, xs, k);
    assert xs[..k + 1] == xs[..k] + [xs[k]];
    AdaptiveSnoc(next, xs[..k], xs[k]);
  }

  /** From one byte string only one list of a given length can be read. */
  lemma {:induction false} AdaptiveUnique(b: seq<Byte>, iv: Interval, next: Model,
                                          x: seq<nat>, y: seq<nat>, p: seq<Sym>, q: seq<Sym>)
    requires |x| == |y| && Admissible(next, x) && Admissible(next, y)
    requires Reads(b, iv, AdaptiveSyms(next, x) + p) && Reads(b, iv, AdaptiveSyms(next, y) + q)
    ensures x == y
    ensures Reads(b, Run(iv, AdaptiveSyms(next, x)), p) && Reads(b, Run(iv, AdaptiveSyms(next, x)), q)
    decreases |x|
  {
    ReadsAfter(b, iv, AdaptiveSyms(next, x), p);
    ReadsAfter(b, iv, AdaptiveSyms(next, y), q);
    if x != [] {
      var n := |x| - 1;
      AdmissiblePrefix(next, x, n);
      AdmissiblePrefix(next, y, n);
      var hx, hy := AdaptiveSyms(next, x[..n]), AdaptiveSyms(next, y[..n]);
      var sx, sy := [CdfSym(next(x[..n]), x[n])], [CdfSym(next(y[..n]), y[n])];
      Regroup(hx, sx, p);
      Regroup(hy, sy, q);
      AdaptiveUnique(b, iv, next, x[..n], y[..n], sx + p, sy + q);
      CdfHeadUnique(b, Run(iv, hx), next(x[..n]), x[n], y[n], p, q);
      SameSnoc(x, y);
    }
  }

  /** Any table will do where no index is read. */
  const NO_TABLE: Cdf := Pair()

  function Pair(): Cdf {
    assert forall i, j :: 0 <= i < j < 2 ==> Below([0, 1], i, j);
    [0, 1]
  }

  /** One index out of each table of a list. */
  ghost function TableModel(cdfs: seq<Cdf>): Model {
    (xs: seq<nat>) => if |xs| < |cdfs| then cdfs[|xs|] else NO_TABLE
  }

  lemma TableAdmissible(cdfs: seq<Cdf>, xs: seq<nat>)
    requires |xs| <= |cdfs|
    ensures Admissible(TableModel(cdfs), xs) <==> Indexes(cdfs, xs)
  {
    forall i | 0 <= i < |xs| ensures TableModel(cdfs)(xs[..i]) == cdfs[i] {
    }
  }

  ghost predicate Indexes(cdfs: seq<Cdf>, xs: seq<nat>) {
    |xs| <= |cdfs| && forall i :: 0 <= i < |xs| ==> xs[i] < |cdfs[i]| - 1
  }

  ghost function TableSyms(cdfs: seq<Cdf>, xs: seq<nat>): (r: seq<Sym>)
    requires Indexes(cdfs, xs)
    ensures |r| == |xs|
  {
    TableAdmissible(cdfs, xs);
    AdaptiveSyms(TableModel(cdfs), xs)
  }

  lemma TableSnoc(cdfs: seq<Cdf>, xs: seq<nat>, x: nat)
    requires |xs| < |cdfs| && Indexes(cdfs, xs) && x < |cdfs[|xs|]| - 1
    ensures Indexes(cdfs, xs + [x])
    ensures TableSyms(cdfs, xs + [x]) == TableSyms(cdfs, xs) + [CdfSym(cdfs[|xs|], x)]
  {
    TableAdmissible(cdfs, xs);
    AdaptiveSnoc(TableModel(cdfs), xs, x);
  }

  lemma TableSlice(cdfs: seq<Cdf>, xs: seq<nat>, k: nat)
    requires k < |xs| && Indexes(cdfs, xs)
    ensures TableSyms(cdfs, xs[..k + 1]) == TableSyms(cdfs, xs[..k]) + [CdfSym(cdfs[k], xs[k])]
  {
    assert xs[..k + 1] == xs[..k] + [xs[k]];
    TableSnoc(cdfs, xs[..k], xs[k]);
  }

  lemma TableAt(cdfs: seq<Cdf>, xs: seq<nat>, i: nat)
    requires Indexes(cdfs, xs) && i < |xs|
    ensures TableSyms(cdfs, xs)[i] == CdfSym(cdfs[i], xs[i])
  {
    TableAdmissible(cdfs, xs);
    AdaptiveAt(TableModel(cdfs), xs, i);
  }

  lemma TableUnique(b: seq<Byte>, iv: Interval, cdfs: seq<Cdf>,
                    x: seq<nat>, y: seq<nat>, p: seq<Sym>, q: seq<Sym>)
    requires |x| == |y| && Indexes(cdfs, x) && Indexes(cdfs, y)
    requires Reads(b, iv, TableSyms(cdfs, x) + p) && Reads(b, iv, TableSyms(cdfs, y) + q)
    ensures x == y
    ensures Reads(b, Run(iv, TableSyms(cdfs, x)), p) && Reads(b, Run(iv, TableSyms(cdfs, x)), q)
  {
    TableAdmissible(cdfs, x);
    TableAdmissible(cdfs, y);
    AdaptiveUnique(b, iv, TableModel(cdfs), x, y, p, q);
  }
}
