/** The carry-propagating range encoder (RFC 6716, section 5.1), proved to name the
    interval that RangeSpec assigns to the symbols it was given. */
module RangeEncoding {
  import opened Arithmetic
  import opened RangeSpec

  type Word = x: int | 0 <= x < 0x1_0000_0000

  /** A byte string as a base-256 numeral. */
  function Value(b: seq<Byte>): nat {
    if b == [] then 0 else Value(b[..|b| - 1]) * 256 + b[|b| - 1]
  }

  function Repeat(x: Byte, n: nat): (r: seq<Byte>)
    ensures |r| == n
  {
    if n == 0 then [] else Repeat(x, n - 1) + [x]
  }

  lemma ValueSnoc(b: seq<Byte>, x: Byte)
    ensures Value(b + [x]) == Value(b) * 256 + x
  {
    assert (b + [x])[..|b|] == b;
  }

  /** Adding one to a numeral that ends in n digits 255 clears them and bumps what
      stands before them. */
  lemma {:induction false} CarryRipple(p: seq<Byte>, bumped: seq<Byte>, n: nat)
    requires Value(p) + 1 == Value(bumped)
    ensures Value(p + Repeat(255, n)) + 1 == Value(bumped + Repeat(0, n))
  {
    hide Value, Repeat;
    if n == 0 {
      RepeatSnoc(p, 255, 0);
      RepeatSnoc(bumped, 0, 0);
    } else {
      CarryRipple(p, bumped, n - 1);
      RepeatSnoc(p, 255, n - 1);
      RepeatSnoc(bumped, 0, n - 1);
      ValueSnoc(p + Repeat(255, n - 1), 255);
      ValueSnoc(bumped + Repeat(0, n - 1), 0);
    }
  }

  lemma RepeatSnoc(p: seq<Byte>, x: Byte, n: nat)
    ensures p + Repeat(x, 0) == p
    ensures p + Repeat(x, n + 1) == (p + Repeat(x, n)) + [x]
  {
  }

  lemma {:induction false} PrefixIsValue(b: seq<Byte>, tail: seq<Byte>)
    ensures Prefix(b + tail, |b|) == Value(b)
    decreases |b|
  {
    if b != [] {
      var c := b[..|b| - 1];
      assert b + tail == c + ([b[|b| - 1]] + tail);
      PrefixIsValue(c, [b[|b| - 1]] + tail);
    }
  }

  function Pow256(n: nat): (r: nat)
    ensures r >= 1
  {
    if n == 0 then 1 else 256 * Pow256(n - 1)
  }

  lemma {:induction false} PrefixBounds(b: seq<Byte>, tail: seq<Byte>, m: nat)
    ensures Value(b) * Pow256(m) <= Prefix(b + tail, |b| + m) < (Value(b) + 1) * Pow256(m)
  {
    if m == 0 {
      PrefixIsValue(b, tail);
    } else {
      PrefixBounds(b, tail, m - 1);
      var p, v := Pow256(m - 1), Value(b);
      Scale(v, p);
      Scale(v + 1, p);
    }
  }

  lemma Scale(x: nat, p: nat)
    ensures x * (256 * p) == 256 * (x * p)
  {
  }

  lemma RawTotal(nbits: nat)
    requires nbits <= 15
    ensures Pow2(nbits) <= 0x8000
  {
    Pow2Mono(nbits, 15);
    assert Pow2(4) == 16 && Pow2(8) == 256 && Pow2(12) == 0x1000;
  }

  /** Bit length: floor(log2 x) + 1 for positive x. */
  function Ilog(x: nat): nat {
    if x == 0 then 0 else 1 + Ilog(x / 2)
  }

  lemma {:induction false} IlogBrackets(x: nat)
    requires x > 0
    ensures Ilog(x) >= 1 && Pow2(Ilog(x) - 1) <= x < Pow2(Ilog(x))
  {
    if x == 1 {
      assert Ilog(0) == 0;
    } else {
      IlogBrackets(x / 2);
      var n := Ilog(x / 2);
      assert Pow2(n) == 2 * Pow2(n - 1);
      assert Pow2(n + 1) == 2 * Pow2(n);
    }
  }

  /** (CODE_TOP - 1) >> n, plus one. */
  function Granule(n: int): (g: nat)
    requires 0 <= n <= 9
    ensures g >= 1 && g * Pow2(n) == CODE_TOP
  {
    PowValues();
    CODE_TOP / Pow2(n)
  }

  lemma GranuleValues()
    ensures Granule(0) == CODE_TOP && Granule(1) == 0x4000_0000 && Granule(2) == 0x2000_0000
    ensures Granule(3) == 0x1000_0000 && Granule(4) == 0x800_0000 && Granule(5) == 0x400_0000
    ensures Granule(6) == 0x200_0000 && Granule(7) == 0x100_0000 && Granule(8) == CODE_BOT
    ensures Granule(9) == 0x40_0000
  {
    PowValues();
  }

  /** (x + m - 1) with the low bits m - 1 cleared, for a power of two m. */
  function RoundUp(x: nat, m: nat): (r: nat)
    requires m > 0
    ensures r % m == 0 && x <= r < x + m
  {
    MultipleMod((x + m - 1) / m, m);
    (x + m - 1) / m * m
  }

  lemma IlogGranule(rng: nat)
    requires CODE_BOT < rng <= CODE_TOP
    ensures 24 <= Ilog(rng) <= 32 && Granule(32 - Ilog(rng)) <= rng
    ensures Ilog(rng) == 32 <==> rng == CODE_TOP
    ensures rng < 2 * Granule(32 - Ilog(rng))
  {
    IlogBrackets(rng);
    var n := Ilog(rng);
    assert 24 <= n <= 32 by {
      PowHigh();
      assert Pow2(32) == 2 * CODE_TOP;
      if n <= 23 {
        Pow2Mono(n, 23);
      }
      if n >= 33 {
        Pow2Mono(32, n - 1);
      }
    }
    IlogCases(rng, n);
  }

  lemma IlogCases(rng: nat, n: nat)
    requires 24 <= n <= 32 && Pow2(n - 1) <= rng < Pow2(n) && rng <= CODE_TOP
    ensures Granule(32 - n) <= rng < 2 * Granule(32 - n) && (n == 32 <==> rng == CODE_TOP)
  {
    GranuleValues();
    PowHigh();
    if n <= 28 {
      if n == 24 {} else if n == 25 {} else if n == 26 {} else if n == 27 {} else {}
    } else {
      if n == 29 {} else if n == 30 {} else if n == 31 {} else {}
    }
  }

  /** The code point end chosen by the flush, and how many of its bits matter.  The
      comparison is in 32-bit arithmetic that wraps around. */
  function FlushPoint(val: nat, rng: nat): (nat, nat)
    requires CODE_BOT < rng <= CODE_TOP
  {
    IlogGranule(rng);
    var l := 32 - Ilog(rng);
    var msk := Granule(l) - 1;
    var end := RoundUp(val, msk + 1);
    if end + msk >= (val + rng) % 0x1_0000_0000 then
      (l + 1, RoundUp(val, msk / 2 + 1))
    else
      (l, end)
  }

  /** Every continuation of the chosen code point stays inside [val, val + rng). */
  lemma FlushPointInside(val: nat, rng: nat)
    requires CODE_BOT < rng <= CODE_TOP && val + rng <= 2 * CODE_TOP
    ensures var (len, end) := FlushPoint(val, rng);
            && len <= 9 && end % Granule(len) == 0 && (len == 0 ==> end == 0)
            && val <= end && end + Granule(len) <= val + rng
  {
    IlogGranule(rng);
    var l := 32 - Ilog(rng);
    HalfGranule(l);
    assert (val + rng) % 0x1_0000_0000 <= val + rng;
    if l == 0 {
      GranuleValues();
    }
  }

  lemma HalfGranule(n: nat)
    requires n <= 8
    ensures Granule(n) == 2 * Granule(n + 1) && (Granule(n) - 1) / 2 + 1 == Granule(n + 1)
  {
    GranuleValues();
  }

  /** After one byte of the code point is out, at most its second-highest bit remains. */
  lemma FlushShift(end: nat, len: nat)
    requires 1 <= len <= 9 && end < 2 * CODE_TOP && end % Granule(len) == 0
    ensures end * 256 % CODE_TOP == 0 || end * 256 % CODE_TOP == CODE_TOP / 2
    ensures len <= 8 ==> end * 256 % CODE_TOP == 0
  {
    GranuleValues();
    if len == 9 {
      assert end % 0x40_0000 == 0;
    } else {
      assert end % CODE_BOT == 0 by { CoarseGranule(end, len); }
    }
  }

  lemma CoarseGranule(end: nat, len: nat)
    requires 1 <= len <= 8 && end % Granule(len) == 0
    ensures end % CODE_BOT == 0
  {
    GranuleValues();
    var g := Granule(len);
    var k := g / CODE_BOT;
    assert g == k * CODE_BOT;
    assert end == end / g * k * CODE_BOT by {
      assert end == end / g * g;
      assert end / g * (k * CODE_BOT) == end / g * k * CODE_BOT;
    }
    MultipleMod(end / g * k, CODE_BOT);
  }

  function Shifted(x: nat, j: nat): nat {
    if j == 0 then x else 256 * Shifted(x, j - 1)
  }

  /** A numeral that carries the code point e, followed by anything, stays inside
      the interval when len bits of e are significant. */
  lemma TailInside(out: seq<Byte>, tail: seq<Byte>, iv: Interval, e: nat, j: nat, len: nat)
    requires len <= 9 && j <= 2 && len <= 8 * j
    requires |out| + 4 == iv.bytes + j && Value(out) * CODE_TOP == Shifted(e, j)
    requires iv.low <= e && e + Granule(len) <= iv.low + iv.rng
    ensures InCode(out + tail, iv)
  {
    hide Granule, Pow256, Shifted, Value, Prefix;
    PrefixBounds(out, tail, 4 - j);
    TailValue(Value(out), e, j);
    TailScales(j, len);
    var unit := Pow256(4 - j);
    assert 2 * e <= Prefix(out + tail, iv.bytes) < 2 * e + unit;
  }

  /** The written digits of a code point, brought to its scale. */
  lemma TailValue(v: nat, e: nat, j: nat)
    requires j <= 2 && v * CODE_TOP == Shifted(e, j)
    ensures v * Pow256(4 - j) == 2 * e && (v + 1) * Pow256(4 - j) == 2 * e + Pow256(4 - j)
  {
    TailUnits();
    assert Shifted(e, 0) == e && Shifted(e, 1) == 256 * e && Shifted(e, 2) == 256 * (256 * e);
    hide Pow256, Shifted;
    if j == 0 {
      assert v * 0x1_0000_0000 == 2 * e;
    } else if j == 1 {
      assert v * 0x100_0000 == 2 * e;
    } else {
      assert v * 0x1_0000 == 2 * e;
    }
  }

  lemma TailUnits()
    ensures Pow256(4) == 0x1_0000_0000 && Pow256(3) == 0x100_0000 && Pow256(2) == 0x1_0000
  {
    GranuleValues();
  }

  lemma TailScales(j: nat, len: nat)
    requires len <= 9 && j <= 2 && len <= 8 * j
    ensures Pow256(4 - j) % 2 == 0 && Pow256(4 - j) <= 2 * Granule(len)
  {
    TailUnits();
    GranuleValues();
    hide Granule, Pow256;
    assert len == 0 || len == 1 || len == 2 || len == 3 || len == 4 || len == 5 || len == 6 || len == 7 || len == 8
           || len == 9;
  }

  /** The digits not yet written: a carry can still reach them. */
  function Pending(rem: int, ext: nat): (r: seq<Byte>)
    requires -1 <= rem <= 255
    ensures |r| == ext + if rem >= 0 then 1 else 0
  {
    (if rem >= 0 then [rem] else []) + Repeat(255, ext)
  }

  /** What the encoder's two branches add to val and put into rng. */
  lemma NarrowAt(iv: Interval, s: Sym)
    ensures var r := iv.rng / s.ft;
            var add := iv.rng - r * (s.ft - s.fl);
            && (s.fl > 0 ==> Narrow(iv, s) == Interval(iv.low + add, r * (s.fh - s.fl), iv.bytes)
                             && 0 <= add && 0 < r * (s.fh - s.fl) && add + r * (s.fh - s.fl) <= iv.rng)
            && (s.fl == 0 ==> Narrow(iv, s) == Interval(iv.low, iv.rng - r * (s.ft - s.fh), iv.bytes)
                              && 0 < iv.rng - r * (s.ft - s.fh) <= iv.rng)
  {
    NarrowFits(iv.rng, s);
  }

  lemma ShiftAt(d: nat, val: nat)
    ensures (d * 256 + val / CODE_BOT) * CODE_TOP + val * 256 % CODE_TOP == (d * CODE_TOP + val) * 256
  {
    assert val * 256 == val / CODE_BOT * CODE_TOP + val * 256 % CODE_TOP;
  }

  /** The digit shifted out of val, what is left, and why no carry can be lost. */
  lemma ShiftDigit(val: nat, rng: nat, rem: int)
    requires 0 < rng <= CODE_BOT && val + rng <= 2 * CODE_TOP
    requires rem == -1 || rem == 255 ==> val + rng <= CODE_TOP
    ensures var c, v := val / CODE_BOT, val * 256 % CODE_TOP;
            && 0 <= c < 512 && val * 256 == c * CODE_TOP + v
            && v + 256 * rng <= 2 * CODE_TOP
            && (c >= 256 ==> rem != -1 && rem != 255)
            && (c == 255 && (rem == -1 || rem == 255) ==> v + 256 * rng <= CODE_TOP)
            && (c == 511 ==> v + 256 * rng <= CODE_TOP)
  {
    var c := val / CODE_BOT;
    assert val == c * CODE_BOT + val % CODE_BOT;
    assert val * 256 % CODE_TOP == val % CODE_BOT * 256;
  }

  class RangeEncoder {
    const buf: array<Byte>
    var offs: nat
    var rng: Word
    var val: Word
    var ext: nat
    var rem: int
    var err: int
    var nbitsTotal: int
    /** All bytes emitted so far, whether or not they found room in buf. */
    ghost var Out: seq<Byte>
    ghost var Syms: seq<Sym>
    /** Set when a caller asked for a symbol its table does not have. */
    ghost var Misused: bool

    constructor (size: nat)
      ensures Valid() && Syms == [] && Out == [] && !Misused && err == 0
      ensures fresh(buf) && buf.Length == size
    {
      buf := new Byte[size](_ => 0);
      offs, rng, val, ext, rem, err, nbitsTotal := 0, CODE_TOP, 0, 0, -1, 0, 33;
      Out, Syms, Misused := [], [], false;
      new;
      assert Digits() == [];
    }

    ghost predicate RemOk() reads this`rem {
      -1 <= rem <= 255
    }

    /** Everything emitted, written or pending. */
    ghost function Digits(): seq<Byte>
      requires RemOk()
      reads this`Out, this`rem, this`ext
    {
      Out + Pending(rem, ext)
    }

    ghost predicate Written() reads this`offs, this`err, this`Out, this`Misused, buf {
      && offs == (if |Out| <= buf.Length then |Out| else buf.Length)
      && buf[..offs] == Out[..offs]
      && err == (if Misused || |Out| > buf.Length then -1 else 0)
    }

    /** A carry out of val is absorbed by the pending digits: it never has to reach
        a byte already written, and never overflows the digit it lands in. */
    ghost predicate CarrySafe() reads this`rng, this`val, this`rem {
      && 0 < rng <= CODE_TOP
      && val + rng <= 2 * CODE_TOP
      && (rem == -1 || rem == 255 ==> val + rng <= CODE_TOP)
    }

    ghost function At(): RawInterval
      requires RemOk()
      reads this`Out, this`rem, this`ext, this`val, this`rng
    {
      Interval(Value(Digits()) * CODE_TOP + val, rng, |Digits()| + 4)
    }

    ghost predicate Valid() reads this, buf {
      && Loose()
      && rng > CODE_BOT
      && At() == Run(START, Syms)
    }

    ghost predicate Loose()
      reads this`offs, this`err, this`Out, this`Misused, this`rng, this`val, this`rem, this`ext, this`nbitsTotal, buf
    {
      RemOk() && Written() && CarrySafe() && nbitsTotal == 33 + 8 * |Digits()|
    }

    method WriteByte(b: Byte)
      requires Written()
      modifies this`offs, this`err, this`Out, buf
      ensures Written() && Out == old(Out) + [b]
    {
      Out := Out + [b];
      if offs < buf.Length {
        buf[offs] := b;
        offs := offs + 1;
        assert buf[..offs] == old(buf[..offs]) + [b];
      } else {
        err := -1;
      }
    }

    /** Write the pending digits r, 255, 255, ..., with a carry rippled into them. */
    method WritePending(r: int, carry: int)
      requires Written() && -1 <= r <= 255
      requires carry == 0 || (carry == 1 && 0 <= r < 255)
      modifies this`offs, this`err, this`Out, this`ext, buf
      ensures Written() && ext == 0
      ensures Value(Out) == Value(old(Out) + Pending(r, old(ext))) + carry
      ensures |Out| == |old(Out) + Pending(r, old(ext))|
    {
      ghost var e0, out0 := ext, Out;
      if r >= 0 {
        WriteByte(r + carry);
      }
      WriteRun((255 + carry) % 256);
      if carry == 1 {
        ValueSnoc(out0, r);
        ValueSnoc(out0, r + 1);
        CarryRipple(out0 + [r], out0 + [r + 1], e0);
        assert out0 + Pending(r, e0) == out0 + [r] + Repeat(255, e0);
      } else {
        assert Out == out0 + Pending(r, e0);
      }
    }

    /** Write the deferred digits, all of them sym. */
    method WriteRun(sym: Byte)
      requires Written()
      modifies this`offs, this`err, this`Out, this`ext, buf
      ensures Written() && ext == 0 && Out == old(Out) + Repeat(sym, old(ext))
    {
      ghost var e0, out0 := ext, Out;
      assert out0 + Repeat(sym, 0) == out0;
      while ext > 0
        invariant Written() && 0 <= ext <= e0
        invariant Out == out0 + Repeat(sym, e0 - ext)
      {
        WriteByte(sym);
        ext := ext - 1;
        assert Repeat(sym, e0 - ext) == Repeat(sym, e0 - ext - 1) + [sym];
      }
    }

    /** Append the digit c, a byte with a possible carry in bit 8. */
    method CarryOut(c: int)
      requires RemOk() && Written()
      requires 0 <= c < 512 && (c >= 256 ==> 0 <= rem < 255)
      modifies this`offs, this`err, this`Out, this`ext, this`rem, buf
      ensures RemOk() && Written()
      ensures Value(Digits()) == old(Value(Digits())) * 256 + c
      ensures |Digits()| == old(|Digits()|) + 1
      ensures c != 255 ==> rem == c % 256 && Digits() == Out + [rem]
      ensures c == 255 ==> rem == old(rem)
    {
      if c != 255 {
        var carry, r := c / 256, rem;
        assert carry == 0 || carry == 1;
        rem := c % 256;
        WritePending(r, carry);
        assert Digits() == Out + [rem];
        ValueSnoc(Out, rem);
      } else {
        ghost var before := Digits();
        ext := ext + 1;
        assert Digits() == before + [255];
        ValueSnoc(before, 255);
      }
    }

    method Normalize()
      requires Loose()
      modifies this`offs, this`err, this`Out, this`ext, this`rem, this`val, this`rng, this`nbitsTotal, buf
      ensures Loose() && rng > CODE_BOT
      ensures At() == Renorm(old(At()))
    {
      while rng <= CODE_BOT
        invariant Loose()
        invariant Renorm(At()) == Renorm(old(At()))
        decreases CODE_TOP - rng
      {
        ShiftOut();
      }
    }

    /** One round of the renormalization loop. */
    method ShiftOut()
      requires Loose() && rng <= CODE_BOT
      modifies this`offs, this`err, this`Out, this`ext, this`rem, this`val, this`rng, this`nbitsTotal, buf
      ensures Loose() && rng == old(rng) * 256
      ensures At() == Interval(old(At()).low * 256, old(rng) * 256, old(At()).bytes + 1)
    {
      hide Value, Pending, Renorm;
      ShiftDigit(val, rng, rem);
      ShiftAt(Value(Digits()), val);
      var c := val / CODE_BOT;
      var rest := val * 256 % CODE_TOP;
      CarryOut(c);
      val := rest;
      rng := rng * 256;
      nbitsTotal := nbitsTotal + 8;
    }

    method Encode(fl: nat, fh: nat, ft: nat)
      requires Valid()
      requires ft == 0 || (fl < fh <= ft <= CODE_BOT)
      modifies this, buf
      ensures ft == 0 ==> Misused && err == -1 && Syms == old(Syms) && Out == old(Out)
      ensures ft > 0 ==> Syms == old(Syms) + [Sym(fl, fh, ft)] && Misused == old(Misused)
      ensures Valid()
    {
      if ft == 0 {
        err := -1;
        Misused := true;
        return;
      }
      RunSnoc(START, Syms, Sym(fl, fh, ft));
      Syms := Syms + [Sym(fl, fh, ft)];
      NarrowTo(fl, fh, ft);
      Normalize();
    }

    method NarrowTo(fl: nat, fh: nat, ft: nat)
      requires Loose() && rng > CODE_BOT && fl < fh <= ft <= CODE_BOT
      modifies this`val, this`rng
      ensures Loose()
      ensures At() == Narrow(old(At()), Sym(fl, fh, ft))
    {
      NarrowAt(At(), Sym(fl, fh, ft));
      var r := rng / ft;
      if fl > 0 {
        val := val + (rng - r * (ft - fl));
        rng := r * (fh - fl);
      } else {
        rng := rng - r * (ft - fh);
      }
    }

    method EncodeCDF(s: int, cdf: seq<nat>)
      requires Valid()
      requires IsCdf(cdf) || |cdf| < 2 || cdf[|cdf| - 1] <= cdf[0]
      modifies this, buf
      ensures Valid()
      ensures IsCdf(cdf) && 0 <= s < |cdf| - 1 ==>
                Syms == old(Syms) + [CdfSym(cdf, s)] && Misused == old(Misused)
      ensures !(IsCdf(cdf) && 0 <= s < |cdf| - 1) ==> Misused && err == -1 && Syms == old(Syms)
    {
      var n := |cdf|;
      if n < 2 || s < 0 || s + 1 >= n {
        err := -1;
        Misused := true;
        return;
      }
      var base := cdf[0];
      if cdf[n - 1] <= base {
        assert !Below(cdf, 0, n - 1);
        err := -1;
        Misused := true;
        return;
      }
      ghost var sym := CdfSym(cdf, s);
      Encode(cdf[s] - base, cdf[s + 1] - base, cdf[n - 1] - base);
    }

    /** A uniform nbits-bit symbol. */
    method EncodeRawSymbol(sym: nat, nbits: nat)
      requires Valid() && nbits <= 15 && sym < Pow2(nbits)
      modifies this, buf
      ensures Valid() && sym < Pow2(nbits) <= CODE_BOT
      ensures Syms == old(Syms) + [UniformSym(sym, Pow2(nbits))] && Misused == old(Misused)
    {
      RawTotal(nbits);
      Encode(sym, sym + 1, Pow2(nbits));
    }

    method Encode64FineSym(sym: nat)
      requires Valid() && sym < 64
      modifies this, buf
      ensures Valid()
      ensures Syms == old(Syms) + [UniformSym(sym, 64)] && Misused == old(Misused)
    {
      Encode(sym, sym + 1, 64);
    }

    /** Emit the len significant bits of the code point end. */
    method EmitPoint(len: nat, end: nat) returns (ghost j: nat)
      requires RemOk() && Written()
      requires len <= 9 && end < 2 * CODE_TOP && end % Granule(len) == 0 && (len == 0 ==> end == 0)
      requires rem == -1 || rem == 255 ==> end < CODE_TOP
      modifies this`offs, this`err, this`Out, this`ext, this`rem, buf
      ensures RemOk() && Written()
      ensures j <= 2 && len <= 8 * j && |Digits()| == old(|Digits()|) + j
      ensures Value(Digits()) * CODE_TOP == Shifted(old(Value(Digits())) * CODE_TOP + end, j)
    {
      ghost var e0: nat := Value(Digits()) * CODE_TOP + end;
      var l: int, e: nat := len, end;
      if len > 0 { FlushShift(end, len); }
      ghost var e1 := end * 256 % CODE_TOP;
      j := 0;
      while l > 0
        invariant RemOk() && Written()
        invariant j <= 2 && l == len - 8 * j
        invariant |Digits()| == old(|Digits()|) + j
        invariant Value(Digits()) * CODE_TOP + e == Shifted(e0, j)
        invariant j == 0 ==> e == end && rem == old(rem)
        invariant j == 1 ==> e == e1
        invariant j == 2 ==> e == 0
      {
        e := EmitTop(e);
        l := l - 8;
        j := j + 1;
      }
      assert e == 0;
    }

    /** Emit the top bits of the code point e and shift them out of it. */
    method EmitTop(e: nat) returns (rest: nat)
      requires RemOk() && Written()
      requires e < 2 * CODE_TOP && (rem == -1 || rem == 255 ==> e < CODE_TOP)
      modifies this`offs, this`err, this`Out, this`ext, this`rem, buf
      ensures RemOk() && Written()
      ensures |Digits()| == old(|Digits()|) + 1 && rest == e * 256 % CODE_TOP
      ensures e == 0 || e == CODE_TOP / 2 ==> rest == 0
      ensures Value(Digits()) * CODE_TOP + rest == 256 * (old(Value(Digits())) * CODE_TOP + e)
    {
      CarryOut(e / CODE_BOT);
      rest := e * 256 % CODE_TOP;
    }

    /** Force the last pending digits out. */
    method EmitPending()
      requires RemOk() && Written()
      modifies this`offs, this`err, this`Out, this`ext, this`rem, buf
      ensures Written() && Value(Out) == old(Value(Digits())) && |Out| == old(|Digits()|)
    {
      if rem >= 0 || ext > 0 {
        CarryOut(0);
        ValueSnoc(Out, 0);
      } else {
        assert Digits() == Out;
      }
    }

    /** Flush: afterwards every byte string that starts with Out, in particular Out
        followed by zeros, lies in the interval of the symbols encoded. */
    method Done()
      requires Valid()
      modifies this, buf
      ensures Syms == old(Syms) && Misused == old(Misused)
      ensures offs <= buf.Length && err == (if Misused || |Out| > buf.Length then -1 else 0)
      ensures err == 0 ==> buf[..offs] == Out && forall i :: offs <= i < buf.Length ==> buf[i] == 0
      ensures forall tail: seq<Byte> :: InCode(Out + tail, Run(START, Syms))
      ensures Run(START, Syms).bytes <= |Out| + 4 <= Run(START, Syms).bytes + 2
    {
      Flush();
      if err == 0 {
        ZeroFill();
      }
    }

    method ZeroFill()
      requires offs <= buf.Length
      modifies buf
      ensures buf[..offs] == old(buf[..offs]) && forall i :: offs <= i < buf.Length ==> buf[i] == 0
    {
      var i := offs;
      while i < buf.Length
        invariant offs <= i <= buf.Length && buf[..offs] == old(buf[..offs])
        invariant forall k :: offs <= k < i ==> buf[k] == 0
      {
        buf[i] := 0;
        i := i + 1;
      }
    }

    method Flush()
      requires Valid()
      modifies this`offs, this`err, this`Out, this`ext, this`rem, buf
      ensures Written()
      ensures forall tail: seq<Byte> :: InCode(Out + tail, Run(START, Syms))
      ensures Run(START, Syms).bytes <= |Out| + 4 <= Run(START, Syms).bytes + 2
    {
      ghost var iv: Interval, d := At(), Value(Digits());
      FlushPointInside(val, rng);
      var (len, end) := FlushPoint(val, rng);
      hide FlushPoint, Run, Value, Granule, Digits, InCode, Pending;
      ghost var j := EmitPoint(len, end);
      EmitPending();
      TailsInside(Out, iv, d * CODE_TOP + end, j, len);
    }
  }

  lemma TailsInside(out: seq<Byte>, iv: Interval, e: nat, j: nat, len: nat)
    requires len <= 9 && j <= 2 && len <= 8 * j
    requires |out| + 4 == iv.bytes + j && Value(out) * CODE_TOP == Shifted(e, j)
    requires iv.low <= e && e + Granule(len) <= iv.low + iv.rng
    ensures forall tail: seq<Byte> :: InCode(out + tail, iv)
  {
    forall tail: seq<Byte> ensures InCode(out + tail, iv) {
      TailInside(out, tail, iv, e, j, len);
    }
  }
}
