/** The range decoder (RFC 6716, section 4.1), proved to report, for any byte string,
    which sub-interval of RangeSpec its code value lies in. */
module RangeDecoding {
  import opened Arithmetic
  import opened RangeSpec
  import opened RangeEncoding

  class RangeDecoder {
    const buf: seq<Byte>
    var offs: nat
    var rng: Word
    var val: Word
    var ext: Word
    var rem: Byte
    var err: int
    var nbitsTotal: int
    /** Bytes taken in so far, counting the zeros read past the end. */
    ghost var Taken: nat

    constructor (buf: seq<Byte>)
      ensures Valid() && At() == START && this.buf == buf && err == 0
    {
      this.buf := buf;
      var first := if 0 < |buf| then buf[0] else 0;
      offs := if 0 < |buf| then 1 else 0;
      rng, rem, err, ext, nbitsTotal := 128, first, 0, 0, 9;
      val := 128 - 1 - first / 2;
      Taken := 1;
      new;
      assert Prefix(buf, 1) == Prefix(buf, 0) * 256 + first;
      RenormStart();
      Normalize();
    }

    /** val counts down from the top of the interval to the code value of buf. */
    ghost predicate Loose() reads this {
      && 0 <= val < rng <= CODE_TOP
      && Taken >= 1
      && offs == (if Taken < |buf| then Taken else |buf|)
      && rem == ByteAt(buf, Taken - 1)
      && nbitsTotal == 1 + 8 * Taken
    }

    ghost predicate Valid() reads this {
      Loose() && rng > CODE_BOT
    }

    ghost function Raw(): RawInterval reads this {
      Interval(Code(buf, Taken) + val + 1 - rng, rng, Taken)
    }

    /** The interval reached so far. */
    ghost function At(): Interval
      requires Valid()
      reads this
    {
      Raw()
    }

    method ReadByte() returns (b: Byte)
      requires offs == (if Taken < |buf| then Taken else |buf|)
      modifies this`offs, this`Taken
      ensures b == ByteAt(buf, old(Taken)) && Taken == old(Taken) + 1
      ensures offs == (if Taken < |buf| then Taken else |buf|)
    {
      Taken := Taken + 1;
      if offs < |buf| {
        b := buf[offs];
        offs := offs + 1;
      } else {
        b := 0;
      }
    }

    method Normalize()
      requires Loose()
      modifies this`offs, this`Taken, this`rem, this`val, this`rng, this`nbitsTotal
      ensures Valid() && Raw() == Renorm(old(Raw()))
    {
      while rng <= CODE_BOT
        invariant Loose()
        invariant Renorm(Raw()) == Renorm(old(Raw()))
        decreases CODE_TOP - rng
      {
        ShiftIn();
      }
    }

    /** One round of the renormalization loop. */
    method ShiftIn()
      requires Loose() && rng <= CODE_BOT
      modifies this`offs, this`Taken, this`rem, this`val, this`rng, this`nbitsTotal
      ensures Loose() && rng == old(rng) * 256
      ensures Raw() == Interval(old(Raw()).low * 256, old(rng) * 256, old(Raw()).bytes + 1)
    {
      CodeExtend(buf, Taken);
      SymBits(rem, ByteAt(buf, Taken));
      nbitsTotal := nbitsTotal + 8;
      rng := rng * 256;
      var sym0 := rem;
      rem := ReadByte();
      var sym := (sym0 * 256 + rem) / 2;
      val := Masked(val * 256 + (255 - sym % 256));
    }

    /** The cumulative frequency of the next symbol: it falls into [fl, fh) exactly
        when the code value lies in the sub-interval of that symbol. */
    method Decode(ft: nat) returns (f: nat)
      requires Valid()
      modifies this`ext, this`err
      ensures Valid() && At() == old(At())
      ensures 0 < ft <= CODE_BOT ==> f < ft && ext == rng / ft && err == old(err)
      ensures 0 < ft <= CODE_BOT ==>
                forall s: Sym :: s.ft == ft ==> (InCode(buf, Narrow(At(), s)) <==> s.fl <= f < s.fh)
      ensures ft == 0 || rng / ft == 0 ==> err == 1 && f == 0
    {
      if ft == 0 {
        err, ext := 1, 1;
        return 0;
      }
      ext := rng / ft;
      if ext == 0 {
        err, ext := 1, 1;
        return 0;
      }
      f := Estimate(val, ext, ft);
      if ft <= CODE_BOT {
        EstimateLocatesAll(buf, At(), val, ft);
      }
    }

    /** Advance past a symbol whose sub-interval holds the code value. */
    method Update(fl: nat, fh: nat, ft: nat)
      requires Valid() && fl < fh <= ft <= CODE_BOT && ext == rng / ft
      requires InCode(buf, Narrow(At(), Sym(fl, fh, ft)))
      modifies this`offs, this`Taken, this`rem, this`val, this`rng, this`nbitsTotal
      ensures Valid() && At() == Step(old(At()), Sym(fl, fh, ft))
    {
      UpdateAt(At(), Code(buf, Taken), val, Sym(fl, fh, ft));
      var s := ext * (ft - fh);
      val := val - s;
      if fl > 0 {
        rng := ext * (fh - fl);
      } else {
        rng := rng - s;
      }
      Normalize();
    }

    method DecodeCDF(cdf: seq<nat>) returns (k: nat)
      requires Valid()
      requires IsCdf(cdf) || |cdf| < 2 || cdf[|cdf| - 1] <= cdf[0]
      modifies this
      ensures Valid()
      ensures IsCdf(cdf) ==> k < |cdf| - 1 && err == old(err) && At() == Step(old(At()), CdfSym(cdf, k))
      ensures !IsCdf(cdf) ==> k == 0 && err == 1 && At() == old(At())
    {
      var n := |cdf|;
      if n < 2 {
        err := 1;
        return 0;
      }
      var base := cdf[0];
      if cdf[n - 1] <= base {
        assert !Below(cdf, 0, n - 1);
        err := 1;
        return 0;
      }
      var ft := cdf[n - 1] - base;
      var fs := Decode(ft);
      var target := base + fs;
      k := 0;
      while k < n - 1
        invariant k <= n - 1 && cdf[k] <= target
      {
        if cdf[k + 1] > target {
          break;
        }
        k := k + 1;
      }
      ghost var sym := CdfSym(cdf, k);
      Update(cdf[k] - base, cdf[k + 1] - base, ft);
    }

    /** A uniform nbits-bit symbol. */
    method DecodeRawSymbol(nbits: nat) returns (sym: nat)
      requires Valid() && nbits <= 15
      modifies this
      ensures Valid() && sym < Pow2(nbits) <= CODE_BOT && err == old(err)
      ensures At() == Step(old(At()), UniformSym(sym, Pow2(nbits)))
    {
      RawTotal(nbits);
      sym := Decode(Pow2(nbits));
      ghost var s := UniformSym(sym, Pow2(nbits));
      Update(sym, sym + 1, Pow2(nbits));
    }

    method Decode64FineSym() returns (sym: nat)
      requires Valid()
      modifies this
      ensures Valid() && sym < 64 && err == old(err) && At() == Step(old(At()), UniformSym(sym, 64))
    {
      ext := rng / 64;
      if ext == 0 {
        assert false;
      }
      var s := val / ext;
      QuotientCompare(val, ext, 0);
      EstimateLocatesAll(buf, At(), val, 64);
      var signed := 63 - s;
      if signed < 0 {
        signed := 0;
      } else if signed > 64 {
        signed := 64;
      }
      sym := signed;
      ghost var found := UniformSym(sym, 64);
      assert InCode(buf, Narrow(At(), found));
      Update(sym, sym + 1, 64);
    }
  }

  /** The mask 2^31 - 1. */
  function Masked(x: nat): (r: nat)
    ensures r < CODE_TOP && (x < CODE_TOP ==> r == x)
  {
    x % CODE_TOP
  }

  lemma SymBits(a: Byte, b: Byte)
    ensures (a * 256 + b) / 2 % 256 == (a % 2 * 256 + b) / 2
  {
  }

  lemma EstimateLocatesAll(buf: seq<Byte>, iv: Interval, val: nat, ft: nat)
    requires 0 < ft <= CODE_BOT
    requires val < iv.rng && Code(buf, iv.bytes) == iv.low + iv.rng - 1 - val
    ensures iv.rng / ft >= 1
    ensures forall s: Sym :: s.ft == ft ==>
              (InCode(buf, Narrow(iv, s)) <==> s.fl <= Estimate(val, iv.rng / ft, ft) < s.fh)
  {
    NarrowFits(iv.rng, Sym(0, ft, ft));
    forall s: Sym | s.ft == ft
      ensures InCode(buf, Narrow(iv, s)) <==> s.fl <= Estimate(val, iv.rng / ft, ft) < s.fh
    {
      EstimateLocates(iv, Code(buf, iv.bytes), s);
    }
  }

  /** Dropping the upper part of the interval moves its top down by w * (ft - fh). */
  lemma UpdateAt(iv: Interval, code: int, val: int, s: Sym)
    requires code == iv.low + iv.rng - 1 - val
    requires Narrow(iv, s).low <= code < Narrow(iv, s).low + Narrow(iv, s).rng
    ensures var w, nar := iv.rng / s.ft, Narrow(iv, s);
            var d := w * (s.ft - s.fh);
            && nar.rng == (if s.fl > 0 then w * (s.fh - s.fl) else iv.rng - d)
            && 0 <= d && 0 <= val - d < nar.rng && code == nar.low + nar.rng - 1 - (val - d)
  {
    NarrowFits(iv.rng, s);
  }

  lemma RenormStart()
    ensures Renorm(Interval(0, 128, 1)) == START
  {
    assert Renorm(Interval(0, 128, 1)) == Renorm(Interval(0, 0x8000, 2));
    assert Renorm(Interval(0, 0x8000, 2)) == Renorm(Interval(0, CODE_BOT, 3));
  }
}
