/** Signs, and the excitation block as a whole. */
module PulseBlock {
  import opened Arithmetic
  import opened RangeSpec
  import opened RangeEncoding
  import opened RangeDecoding
  import opened CdfTables
  import opened CcTables
  import opened PulseSpec
  import opened PulseVector
  import opened PulseCoding
  import opened RunCoding

  // ---- signs ----

  lemma SignSnoc(n: nat, signs: seq<RawBits>, raw: RawBits)
    requires WfSigns(n, signs, |signs|) && |signs| * SIGN_BATCH < n
    requires raw.nbits == BatchBits(n, |signs|) && raw.sym < Pow2(raw.nbits)
    ensures WfSigns(n, signs + [raw], |signs| + 1)
    ensures raw.nbits <= SIGN_BATCH && Pow2(raw.nbits) <= CODE_BOT
    ensures SignSyms(n, signs + [raw]) == SignSyms(n, signs) + [UniformSym(raw.sym, Pow2(raw.nbits))]
  {
    RawTotal(raw.nbits);
    assert (signs + [raw])[..|signs|] == signs;
  }

  lemma SignPrefix(n: nat, signs: seq<RawBits>, i: nat)
    requires WfSigns(n, signs, |signs|) && i < |signs|
    ensures WfSigns(n, signs[..i], i) && i * SIGN_BATCH < n
    ensures signs[i].nbits == BatchBits(n, i) <= SIGN_BATCH && signs[i].sym < Pow2(signs[i].nbits)
    ensures signs[..i + 1] == signs[..i] + [signs[i]]
  {
    hide Pow2;
    assert i > 0 ==> (i - 1) * SIGN_BATCH < n;
  }

  method EncodeSigns(enc: RangeEncoder, signSyms: seq<RawBits>, ghost n: nat)
    requires enc.Valid() && WfSigns(n, signSyms, |signSyms|)
    modifies enc, enc.buf
    ensures enc.Valid() && enc.Misused == old(enc.Misused)
    ensures enc.Syms == old(enc.Syms) + SignSyms(n, signSyms)
  {
    hide RangeEncoder.Valid, WfSigns, Pow2, BatchBits, SignSyms;
    ghost var syms: seq<Sym> := [];
    NoSigns(n);
    assert signSyms[..0] == [];
    for i := 0 to |signSyms|
      invariant enc.Valid() && enc.Misused == old(enc.Misused)
      invariant WfSigns(n, signSyms[..i], i) && syms == SignSyms(n, signSyms[..i])
      invariant enc.Syms == old(enc.Syms) + syms
    {
      SignPrefix(n, signSyms, i);
      SignSnoc(n, signSyms[..i], signSyms[i]);
      enc.EncodeRawSymbol(signSyms[i].sym, signSyms[i].nbits);
      syms := syms + [UniformSym(signSyms[i].sym, Pow2(signSyms[i].nbits))];
    }
    assert signSyms[..|signSyms|] == signSyms;
  }

  lemma NoSigns(n: nat)
    ensures WfSigns(n, [], 0) && SignSyms(n, []) == []
  {
  }

  /** Bit n - 1 - r of sym, moved to position 15 of a word. */
  lemma TopBit(sym: nat, n: nat, r: nat)
    requires r < n <= SIGN_BATCH
    ensures sym * Pow2(16 - n) * Pow2(r) / 0x4000 / 2 % 2 == sym / Pow2(n - 1 - r) % 2
  {
    PowAdd(16 - n, r);
    PowAdd(16 - n + r, n - 1 - r);
    Pow15();
    hide Pow2;
    ShiftToTop(sym, Pow2(16 - n), Pow2(r), Pow2(n - 1 - r));
  }

  lemma ShiftToTop(x: nat, a: nat, b: nat, d: nat)
    requires a > 0 && b > 0 && d > 0 && a * b * d == 0x8000
    ensures x * a * b / 0x4000 / 2 == x / d
  {
    var p := a * b;
    assert p > 0;
    assert x * a * b == x * p;
    DivideTwice(x * p);
    CancelFactor(x, p, d);
  }

  lemma Pow15()
    ensures Pow2(15) == 0x8000
  {
    assert Pow2(5) == 32;
    PowAdd(5, 5);
    PowAdd(5, 10);
  }

  lemma {:induction false} PowAdd(a: nat, b: nat)
    ensures Pow2(a + b) == Pow2(a) * Pow2(b)
    decreases b
  {
    if b > 0 {
      PowAdd(a, b - 1);
    }
  }

  lemma DivideTwice(x: nat)
    ensures x / 0x4000 / 2 == x / 0x8000
  {
  }

  lemma CancelFactor(x: nat, p: nat, d: nat)
    requires p > 0 && d > 0
    ensures p * d > 0 && x * p / (p * d) == x / d
  {
    assert p * d >= 1 * 1;
    var q, r := x / d, x % d;
    assert x == d * q + r;
    QuotientCompare(x, d, 0);
    assert x * p == (p * d) * q + r * p by {
      assert (d * q + r) * p == p * d * q + r * p;
    }
    assert r * p < p * d;
    DivideUnique(x * p, p * d, q, r * p);
  }

  /** Turns the magnitudes of one batch into signed values. */
  method FlipSigns(magList0: seq<int>, p: nat, raw: RawBits) returns (magList: seq<int>)
    requires 1 <= raw.nbits <= SIGN_BATCH && raw.sym < Pow2(raw.nbits) && p + raw.nbits <= |magList0|
    ensures |magList| == |magList0|
    ensures forall q :: p <= q < p + raw.nbits ==>
              magList[q] == magList0[q] * if raw.sym / Pow2(raw.nbits - 1 - (q - p)) % 2 == 1 then 1 else -1
    ensures forall q :: 0 <= q < |magList| && !(p <= q < p + raw.nbits) ==> magList[q] == magList0[q]
  {
    hide Pow2;
    var nbits := raw.nbits;
    magList := magList0;
    var bitfield := raw.sym * Pow2(16 - nbits);
    PowUnit();
    for r := 0 to nbits
      invariant |magList| == |magList0|
      invariant bitfield == raw.sym * Pow2(16 - nbits) * Pow2(r)
      invariant forall q :: p <= q < p + r ==>
                  magList[q] == magList0[q] * if raw.sym / Pow2(nbits - 1 - (q - p)) % 2 == 1 then 1 else -1
      invariant forall q :: 0 <= q < |magList| && !(p <= q < p + r) ==> magList[q] == magList0[q]
    {
      TopBit(raw.sym, nbits, r);
      var sign := bitfield / 0x4000 / 2 % 2 * 2 - 1;
      magList := magList[p + r := magList[p + r] * sign];
      PowDouble(raw.sym * Pow2(16 - nbits), r);
      bitfield := bitfield * 2;
    }
  }

  lemma PowUnit()
    ensures Pow2(0) == 1
  {
  }

  lemma PowDouble(x: nat, r: nat)
    ensures x * Pow2(r + 1) == x * Pow2(r) * 2
  {
    assert x * (2 * Pow2(r)) == x * Pow2(r) * 2;
  }

  /** The values after the signs of the first i batches have been applied. */
  ghost predicate SignedSoFar(mag: seq<nat>, signs: seq<RawBits>, vals: seq<int>, p: nat)
    requires WfSigns(|mag|, signs, |signs|)
    requires p == |signs| * SIGN_BATCH || p == |mag| <= |signs| * SIGN_BATCH
  {
    && |vals| == |mag|
    && (forall q :: 0 <= q < p && q < |mag| ==> (SoFarBit(|mag|, signs, q); vals[q] == mag[q] * SignOf(signs, q)))
    && forall q :: p <= q < |mag| ==> vals[q] == mag[q]
  }

  lemma SoFarBit(n: nat, signs: seq<RawBits>, q: nat)
    requires WfSigns(n, signs, |signs|) && q < n && q < |signs| * SIGN_BATCH
    ensures q / SIGN_BATCH < |signs| && signs[q / SIGN_BATCH].nbits > q % SIGN_BATCH
  {
    assert q / SIGN_BATCH * SIGN_BATCH + q % SIGN_BATCH == q;
  }

  /** One batch of signs has been applied. */
  ghost predicate BatchDone(vals: seq<int>, raw: RawBits, after: seq<int>, p: nat) {
    && |after| == |vals| >= p + raw.nbits
    && (forall q :: p <= q < p + raw.nbits ==>
          after[q] == vals[q] * if raw.sym / Pow2(raw.nbits - 1 - (q - p)) % 2 == 1 then 1 else -1)
    && forall q :: 0 <= q < |after| && !(p <= q < p + raw.nbits) ==> after[q] == vals[q]
  }

  lemma SignedMore(mag: seq<nat>, signs: seq<RawBits>, vals: seq<int>, raw: RawBits, after: seq<int>)
    requires WfSigns(|mag|, signs, |signs|) && |signs| * SIGN_BATCH < |mag|
    requires SignedSoFar(mag, signs, vals, |signs| * SIGN_BATCH)
    requires raw.nbits == BatchBits(|mag|, |signs|) && raw.sym < Pow2(raw.nbits)
    requires BatchDone(vals, raw, after, |signs| * SIGN_BATCH)
    ensures WfSigns(|mag|, signs + [raw], |signs| + 1)
    ensures SignedSoFar(mag, signs + [raw], after, |signs| * SIGN_BATCH + raw.nbits)
  {
    SignSnoc(|mag|, signs, raw);
    var p, s := |signs| * SIGN_BATCH, signs + [raw];
    hide WfSigns, SignOf, BatchBits, Pow2;
    forall q | 0 <= q < p + raw.nbits
      ensures q / SIGN_BATCH < |s| && s[q / SIGN_BATCH].nbits > q % SIGN_BATCH
      ensures after[q] == mag[q] * SignOf(s, q)
    {
      SignedOne(mag, signs, vals, raw, after, q);
    }
    hide BatchDone;
    assert forall q :: p + raw.nbits <= q < |mag| ==> after[q] == mag[q] by { Untouched(mag, signs, vals, raw, after); }
  }

  lemma Untouched(mag: seq<nat>, signs: seq<RawBits>, vals: seq<int>, raw: RawBits, after: seq<int>)
    requires WfSigns(|mag|, signs, |signs|) && |signs| * SIGN_BATCH < |mag|
    requires SignedSoFar(mag, signs, vals, |signs| * SIGN_BATCH) && BatchDone(vals, raw, after, |signs| * SIGN_BATCH)
    ensures |after| == |mag|
    ensures forall q :: |signs| * SIGN_BATCH + raw.nbits <= q < |mag| ==> after[q] == mag[q]
  {
    hide WfSigns, SignOf, Pow2;
  }

  lemma SignedOne(mag: seq<nat>, signs: seq<RawBits>, vals: seq<int>, raw: RawBits, after: seq<int>, q: nat)
    requires WfSigns(|mag|, signs, |signs|) && |signs| * SIGN_BATCH < |mag| && raw.nbits <= SIGN_BATCH
    requires SignedSoFar(mag, signs, vals, |signs| * SIGN_BATCH) && BatchDone(vals, raw, after, |signs| * SIGN_BATCH)
    requires q < |signs| * SIGN_BATCH + raw.nbits
    ensures |after| == |mag| > q
    ensures var s := signs + [raw];
            && q / SIGN_BATCH < |s| && s[q / SIGN_BATCH].nbits > q % SIGN_BATCH && after[q] == mag[q] * SignOf(s, q)
  {
    hide WfSigns, SignOf, Pow2;
    var p := |signs| * SIGN_BATCH;
    if q < p {
      SoFarBit(|mag|, signs, q);
      SignKept(signs, raw, q);
      assert vals[q] == mag[q] * SignOf(signs, q);
    } else {
      SignNew(signs, raw, q - p);
      assert vals[q] == mag[q];
    }
  }

  lemma SignKept(signs: seq<RawBits>, raw: RawBits, q: nat)
    requires q / SIGN_BATCH < |signs| && signs[q / SIGN_BATCH].nbits > q % SIGN_BATCH
    ensures SignOf(signs + [raw], q) == SignOf(signs, q)
  {
  }

  lemma SignNew(signs: seq<RawBits>, raw: RawBits, j: nat)
    requires j < raw.nbits <= SIGN_BATCH
    ensures var q := |signs| * SIGN_BATCH + j;
            && q / SIGN_BATCH == |signs| && q % SIGN_BATCH == j
            && SignOf(signs + [raw], q) == if raw.sym / Pow2(raw.nbits - 1 - j) % 2 == 1 then 1 else -1
  {
    hide Pow2;
    InBatch(|signs|, j);
  }

  /** Reads the signs in batches of up to fifteen and applies them. */
  method DecodeSigns(dec: RangeDecoder, mag: seq<nat>) returns (signSyms: seq<RawBits>, vals: seq<int>)
    requires dec.Valid()
    modifies dec
    ensures dec.Valid() && dec.err == old(dec.err)
    ensures WfSigns(|mag|, signSyms, SignCount(|mag|))
    ensures dec.At() == Run(old(dec.At()), SignSyms(|mag|, signSyms))
    ensures vals == Signed(mag, signSyms)
  {
    hide RangeDecoder.Valid, RangeDecoder.At, Run, Step, SignSyms, SignOf, Pow2, WfSigns, SignedSoFar, Signed;
    ghost var iv := dec.At();
    var numPos := |mag|;
    signSyms, vals := [], mag;
    RunOne(iv, Sym(0, 1, 1));
    SignsStart(mag);
    var p := 0;
    while p < numPos
      invariant dec.Valid() && dec.err == old(dec.err)
      invariant WfSigns(numPos, signSyms, |signSyms|) && |vals| == numPos
      invariant p < numPos ==> p == |signSyms| * SIGN_BATCH
      invariant p <= numPos && |signSyms| <= SignCount(numPos) && (p == numPos ==> |signSyms| == SignCount(numPos))
      invariant p == |signSyms| * SIGN_BATCH || p == numPos <= |signSyms| * SIGN_BATCH
      invariant SignedSoFar(mag, signSyms, vals, p)
      invariant dec.At() == Run(iv, SignSyms(numPos, signSyms))
      decreases numPos - p
    {
      var nbits := numPos - p;
      if nbits >= SIGN_BATCH {
        nbits := SIGN_BATCH;
      }
      BatchCount(numPos, |signSyms|, p, nbits);
      var sym := dec.DecodeRawSymbol(nbits);
      var raw := RawBits(sym, nbits);
      SignSnoc(numPos, signSyms, raw);
      RunSnoc(iv, SignSyms(numPos, signSyms), UniformSym(sym, Pow2(nbits)));
      var after := FlipSigns(vals, p, raw);
      SignedMore(mag, signSyms, vals, raw, after);
      vals := after;
      signSyms := signSyms + [raw];
      p := p + nbits;
    }
    SignsDone(mag, signSyms, vals);
  }

  lemma BatchCount(n: nat, count: nat, p: nat, nbits: nat)
    requires p == count * SIGN_BATCH < n && nbits == (if n - p >= SIGN_BATCH then SIGN_BATCH else n - p)
    ensures nbits == BatchBits(n, count) && 1 <= nbits <= SIGN_BATCH
    ensures count + 1 <= SignCount(n)
    ensures p + nbits == n ==> count + 1 == SignCount(n)
    ensures p + nbits < n ==> p + nbits == (count + 1) * SIGN_BATCH
    ensures p + nbits == (count + 1) * SIGN_BATCH || p + nbits == n <= (count + 1) * SIGN_BATCH
  {
  }

  lemma SignsStart(mag: seq<nat>)
    ensures WfSigns(|mag|, [], 0) && SignSyms(|mag|, []) == []
    ensures SignedSoFar(mag, [], mag, 0)
    ensures |mag| == 0 ==> SignCount(|mag|) == 0
  {
  }

  lemma SignsDone(mag: seq<nat>, signs: seq<RawBits>, vals: seq<int>)
    requires WfSigns(|mag|, signs, |signs|) && |signs| == SignCount(|mag|)
    requires |mag| == |signs| * SIGN_BATCH || |mag| <= |signs| * SIGN_BATCH
    requires SignedSoFar(mag, signs, vals, |mag|)
    ensures vals == Signed(mag, signs)
  {
    hide SignOf;
    forall q | 0 <= q < |mag| ensures vals[q] == Signed(mag, signs)[q] {
      SoFarBit(|mag|, signs, q);
      SignInBatch(|mag|, signs, q);
    }
  }

  // ---- scatter ----

  lemma PlacePrefix(pos: seq<nat>, vals: seq<int>, n: nat, i: nat)
    requires |pos| == |vals| && Within(pos, 0, n) && i < |pos|
    ensures Within(pos[..i], 0, n) && Within(pos[..i + 1], 0, n)
    ensures Place(pos[..i + 1], vals[..i + 1], n) == Place(pos[..i], vals[..i], n)[pos[i] := vals[i]]
  {
    assert pos[..i + 1] == pos[..i] + [pos[i]] && vals[..i + 1] == vals[..i] + [vals[i]];
    PlaceSnoc(pos[..i], vals[..i], pos[i], vals[i], n);
  }

  /** Writes the signed magnitudes to their positions; every position is inside. */
  method Scatter(pulses: array<int>, posList: seq<nat>, magList: seq<int>)
    requires |posList| == |magList| && Within(posList, 0, pulses.Length)
    requires pulses[..] == Place([], [], pulses.Length)
    modifies pulses
    ensures pulses[..] == Place(posList, magList, pulses.Length)
  {
    hide Place;
    assert posList[..0] == [] && magList[..0] == [];
    for i := 0 to |posList|
      invariant pulses[..] == Place(posList[..i], magList[..i], pulses.Length)
    {
      PlacePrefix(posList, magList, pulses.Length, i);
      var pp := posList[i];
      if pp < pulses.Length {
        pulses[pp] := magList[i];
      }
    }
    assert posList[..|posList|] == posList && magList[..|magList|] == magList;
  }

  // ---- the block ----

  lemma PulseJoin(a: seq<Sym>, s: Sym, c: seq<Sym>, m: seq<Sym>, g: seq<Sym>)
    ensures a + ([s] + (c + (m + g))) == (((a + [s]) + c) + m) + g
    ensures a + ([s] + ([] + ([] + []))) == a + [s]
  {
  }

  lemma PulseRun(iv: Interval, s: Sym, c: seq<Sym>, m: seq<Sym>, g: seq<Sym>)
    ensures Run(iv, [s] + (c + (m + g))) == Run(Run(Run(Step(iv, s), c), m), g)
  {
    RunAppend(iv, [s], c + (m + g));
    RunOne(iv, s);
    RunThree(Step(iv, s), c, m, g);
  }

  lemma EmptyCounts(cc: Tables, subfr: seq<nat>)
    requires |subfr| == SUBFRAMES && forall k :: 0 <= k < SUBFRAMES ==> subfr[k] == 0
    ensures SplitsFit(cc, subfr) && CountSyms(cc, subfr) == []
  {
    hide Tables.SplitCmf, Tables.HalfCdf;
  }

  lemma SignLength(n: nat, signs: seq<RawBits>)
    requires WfSigns(n, signs, SignCount(n))
    ensures WfSigns(n, signs, |signs|) && |signs| == SignCount(n)
  {
  }

  /** A block without pulses is its count alone. */
  lemma EmptyBlock(cc: Tables, pp: PulseParams)
    requires WfPulses(cc, pp) && pp.total == 0
    ensures CountSyms(cc, pp.subfr) == [] && MagSyms(cc, pp.subfr, pp.magRuns, SUBFRAMES) == []
    ensures pp.signSyms == [] && SignSyms(Positions(pp.subfr, pp.magRuns, SUBFRAMES), []) == []
  {
    hide MagSyms, CountSyms, Sum, Positions, WfRuns, SplitsFit;
    TotalOfFour(pp.subfr);
    EmptyCounts(cc, pp.subfr);
    EmptyMags(cc, pp.subfr, pp.magRuns, SUBFRAMES);
  }

  lemma {:induction false} EmptyMags(cc: Tables, subfr: seq<nat>, runs: seq<nat>, i: nat)
    requires i <= |subfr| && WfRuns(cc, subfr, runs, i) && forall k :: 0 <= k < |subfr| ==> subfr[k] == 0
    ensures MagSyms(cc, subfr, runs, i) == [] && Positions(subfr, runs, i) == 0
  {
    hide Sum, Admissible, RunModel;
    if i > 0 {
      StartMono(subfr, i - 1, i);
      EmptyMags(cc, subfr, runs, i - 1);
    }
  }

  method EncodePulses(enc: RangeEncoder, cc: Tables, s1: nat, pp: PulseParams)
    requires enc.Valid() && cc.Wf() && s1 < 2 && WfPulses(cc, pp)
    modifies enc, enc.buf
    ensures enc.Valid() && enc.Misused == old(enc.Misused)
    ensures enc.Syms == old(enc.Syms) + PulseSyms(cc, pp)
  {
    hide RangeEncoder.Valid, CountSyms, MagSyms, SignSyms, Positions, WfRuns, SplitsFit, Tables.Wf, Start, CountSym,
      WfSigns;
    var subfrLen16 := FrameLen4k(s1) / SUBFRAMES;
    var total := pp.total;
    ghost var n := Positions(pp.subfr, pp.magRuns, SUBFRAMES);
    SignLength(n, pp.signSyms);
    PulseJoin(enc.Syms, CountSym(total), CountSyms(cc, pp.subfr),
              MagSyms(cc, pp.subfr, pp.magRuns, SUBFRAMES), SignSyms(n, pp.signSyms));
    EncodeCount(enc, s1, total);
    if total == 0 {
      EmptyBlock(cc, pp);
      return;
    }
    EncodeCounts(enc, cc, total, pp.subfr, subfrLen16);
    EncodeMagnitudes(enc, cc, pp.subfr, pp.magRuns);
    EncodeSigns(enc, pp.signSyms, n);
  }

  lemma SpotsPlaceable(cc: Tables, pp: PulseParams)
    requires cc.Wf() && WfPulses(cc, pp)
    ensures Placeable(pp)
    ensures forall i :: 0 <= i < SUBFRAMES ==> pp.subfr[i] <= MAX_PULSES
  {
    WfStays(cc, pp);
    SpotsAscend(pp.subfr, pp.magRuns, SUBFRAMES);
  }

  lemma CountsBounded(cc: Tables, split: seq<nat>)
    requires cc.Wf() && |split| == SUBFRAMES && Start(split, SUBFRAMES) <= COUNT_MAX && SplitsFit(cc, split)
    ensures RunsSized(cc) && forall i :: 0 <= i < SUBFRAMES ==> split[i] <= MAX_PULSES
  {
    WfRunsSized(cc);
    SplitsFitCounts(cc, split);
  }

  lemma PlaceNone(n: nat)
    ensures Place([], [], n) == seq(n, _ => 0)
  {
  }

  /** Reads an excitation block out of any byte string and rebuilds its vector. */
  method DecodePulses(dec: RangeDecoder, cc: Tables, s1: nat) returns (pp: PulseParams, pulses: array<int>)
    requires dec.Valid() && cc.Wf() && s1 < 2
    modifies dec
    ensures dec.Valid() && dec.err == old(dec.err) && fresh(pulses)
    ensures WfPulses(cc, pp) && dec.At() == Run(old(dec.At()), PulseSyms(cc, pp))
    ensures Placeable(pp) && pulses[..] == Reconstruct(pp)
  {
    hide RangeDecoder.Valid, RangeDecoder.At, Run, Step, CountSyms, MagSyms, SignSyms, Positions, WfRuns, SplitsFit;
    hide Tables.Wf, Start, CountSym, WfSigns, Place, AllSpots, Signed, RunsSized;
    ghost var iv := dec.At();
    pulses := new int[INTF_LEN](_ => 0);
    PlaceNone(INTF_LEN);
    var subfrLen16 := FrameLen4k(s1) / SUBFRAMES;
    var total := DecodeCount(dec, s1);
    var split: seq<nat> := [0, 0, 0, 0];
    EmptyCounts(cc, split);
    TotalOfFour(split);
    RunOne(dec.At(), Sym(0, 1, 1));
    if total != 0 {
      split := DecodeCounts(dec, cc, total, subfrLen16);
    }
    CountsBounded(cc, split);
    var magRuns, posList, magList := DecodeMagnitudes(dec, cc, split);
    var signSyms, vals := DecodeSigns(dec, magList);
    pp := PulseParams(total, split, magRuns, signSyms);
    SignLength(|magList|, signSyms);
    PulseRun(iv, CountSym(total), CountSyms(cc, split), MagSyms(cc, split, magRuns, SUBFRAMES),
             SignSyms(|magList|, signSyms));
    SpotsPlaceable(cc, pp);
    Scatter(pulses, posList, vals);
  }
}
