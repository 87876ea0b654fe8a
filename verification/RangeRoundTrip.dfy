/** The range coder alone: any list of symbols, encoded and flushed, is read back. */
module RangeRoundTrip {
  import opened RangeSpec
  import opened RangeEncoding
  import opened RangeDecoding

  datatype Encoded = Encoded(body: seq<Byte>) | Overflow

  /** Encode, flush, cut.  A body that fits stands for the symbols whatever follows it. */
  method EncodeAll(syms: seq<Sym>, size: nat) returns (r: Encoded)
    ensures r.Encoded? ==> |r.body| <= size && forall tail: seq<Byte> :: Reads(r.body + tail, START, syms)
    ensures r.Overflow? ==> Run(START, syms).bytes - 2 > size
  {
    hide RangeEncoder.Valid, Run;
    var enc := new RangeEncoder(size);
    for i := 0 to |syms|
      invariant enc.Valid() && !enc.Misused && fresh(enc) && fresh(enc.buf) && enc.buf.Length == size
      invariant enc.Syms == syms[..i]
    {
      var s := syms[i];
      enc.Encode(s.fl, s.fh, s.ft);
      assert syms[..i + 1] == syms[..i] + [s];
    }
    assert syms[..|syms|] == syms;
    enc.Done();
    if enc.err != 0 {
      return Overflow;
    }
    r := Encoded(enc.buf[..enc.offs]);
  }

  /** A body that stands for syms: every frequency decoded lies in the range of its
      symbol, no error is raised, and the decoder ends where the encoder ended. */
  method DecodeAll(body: seq<Byte>, syms: seq<Sym>) returns (hits: seq<nat>, dec: RangeDecoder)
    requires Reads(body, START, syms)
    ensures |hits| == |syms| && forall i :: 0 <= i < |hits| ==> syms[i].fl <= hits[i] < syms[i].fh
    ensures fresh(dec) && dec.Valid() && dec.err == 0 && dec.At() == Run(START, syms)
  {
    hide RangeDecoder.Valid, RangeDecoder.At, Run, Step, Narrow;
    dec := new RangeDecoder(body);
    hits := [];
    RunOne(START, Sym(0, 1, 1));
    for i := 0 to |syms|
      invariant dec.Valid() && fresh(dec) && dec.buf == body && dec.err == 0 && |hits| == i
      invariant forall j :: 0 <= j < i ==> syms[j].fl <= hits[j] < syms[j].fh
      invariant dec.At() == Run(START, syms[..i])
    {
      var s := syms[i];
      NextSymbol(body, START, syms, i);
      var f := dec.Decode(s.ft);
      dec.Update(s.fl, s.fh, s.ft);
      RunSnoc(START, syms[..i], s);
      assert syms[..i + 1] == syms[..i] + [s];
      hits := hits + [f];
    }
    assert syms[..|syms|] == syms;
  }

  /** The code value lies in the sub-interval of the next symbol. */
  lemma NextSymbol(body: seq<Byte>, iv: Interval, syms: seq<Sym>, i: nat)
    requires i < |syms| && Reads(body, iv, syms)
    ensures InCode(body, Narrow(Run(iv, syms[..i]), syms[i]))
  {
    hide Run, Narrow, Step;
    assert syms == syms[..i] + ([syms[i]] + syms[i + 1..]);
    ReadsAfter(body, iv, syms[..i], [syms[i]] + syms[i + 1..]);
    ReadsHead(body, Run(iv, syms[..i]), syms[i], syms[i + 1..]);
    StepInCode(body, Run(iv, syms[..i]), syms[i]);
  }

  /** Encoder and decoder at the same interval have the same range and bit count. */
  lemma InStep(enc: RangeEncoder, dec: RangeDecoder, syms: seq<Sym>)
    requires enc.Valid() && dec.Valid() && enc.Syms == syms && dec.At() == Run(START, syms)
    ensures enc.rng == dec.rng && enc.nbitsTotal == dec.nbitsTotal
  {
    hide Run;
  }

  /** Symbols that go in come out, through a buffer of any size that does not overflow. */
  method Transmit(syms: seq<Sym>, size: nat, rest: seq<Byte>) returns (r: Encoded, hits: seq<nat>)
    ensures r.Encoded? ==> |hits| == |syms| && forall i :: 0 <= i < |hits| ==> syms[i].fl <= hits[i] < syms[i].fh
  {
    hits := [];
    r := EncodeAll(syms, size);
    if r.Encoded? {
      hide Reads;
      var dec;
      hits, dec := DecodeAll(r.body + rest, syms);
    }
  }
}
