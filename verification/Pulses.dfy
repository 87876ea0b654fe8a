/** The analysis of a pulse vector: the parameters that the encoder of the excitation block
    writes, built in one pass over the vector. */
module Pulses {
  import opened Basics
  import opened Arithmetic
  import opened CdfTables
  import opened PulseSpec
  import opened PulseVector

  // ---- analysis ----

  lemma SliceSnoc<T>(v: seq<T>, lo: nat, n: nat)
    requires lo <= n < |v|
    ensures v[lo..n + 1] == v[lo..n] + [v[n]]
  {
  }

  lemma NormSnoc(w: seq<int>, x: int)
    ensures Norm(w + [x]) == Norm(w) + Abs(x)
  {
    assert (w + [x])[..|w|] == w;
  }

  lemma GapsSnoc(w: seq<int>, x: int)
    ensures Gaps(w + [x]) == GapStep(Gaps(w), |w|, LastHit(w), x)
    ensures LastHit(w + [x]) == if x == 0 then LastHit(w) else |w|
  {
    hide GapStep;
    assert (w + [x])[..|w|] == w;
  }

  lemma {:induction false} Silent(w: seq<int>)
    requires Norm(w) == 0
    ensures Gaps(w) == [] && forall base: nat :: Peaks(base, w) == []
    decreases |w|
  {
    if w != [] {
      Silent(w[..|w| - 1]);
    }
  }

  /** Units in one subframe. */
  method CountUnits(pulse: seq<int>, sf: nat) returns (s: nat)
    requires |pulse| == INTF_LEN && sf < SUBFRAMES
    ensures s == Norm(Subframe(pulse, sf))
  {
    var lo := sf * SUBFR_LEN;
    s := 0;
    for n := lo to lo + SUBFR_LEN
      invariant s == Norm(pulse[lo..n])
    {
      var a := pulse[n];
      if a < 0 {
        a := -a;
      }
      SliceSnoc(pulse, lo, n);
      NormSnoc(pulse[lo..n], pulse[n]);
      s := s + a;
    }
  }

  ghost predicate SignsMatch(signs: seq<int>, p: seq<Peak>) {
    |signs| == |p| && forall i :: 0 <= i < |p| ==> signs[i] == if p[i].val > 0 then 1 else -1
  }

  /** Run lengths and signs of one subframe, appended to what there is. */
  method AppendSubframe(pulse: seq<int>, sf: nat, magRuns0: seq<nat>, signs0: seq<int>)
    returns (magRuns: seq<nat>, signs: seq<int>)
    requires |pulse| == INTF_LEN && sf < SUBFRAMES
    requires SignsMatch(signs0, Peaks(0, pulse[..sf * SUBFR_LEN]))
    ensures magRuns == magRuns0 + Gaps(Subframe(pulse, sf))
    ensures SignsMatch(signs, Peaks(0, pulse[..(sf + 1) * SUBFR_LEN]))
  {
    hide Gaps, Peaks, LastHit;
    var basePos := SUBFR_LEN * sf;
    var runPos, first := basePos, true;
    magRuns, signs := magRuns0, signs0;
    GapsStart(pulse[basePos..basePos]);
    for n := basePos to basePos + SUBFR_LEN
      invariant magRuns == magRuns0 + Gaps(pulse[basePos..n])
      invariant runPos == basePos + LastHit(pulse[basePos..n])
      invariant first ==> runPos == basePos
      invariant SignsMatch(signs, Peaks(0, pulse[..n]))
    {
      SliceSnoc(pulse, basePos, n);
      SliceSnoc(pulse, 0, n);
      GapsSnoc(pulse[basePos..n], pulse[n]);
      PeaksSnoc(0, pulse[..n], pulse[n]);
      if pulse[n] != 0 {
        var mag := Abs(pulse[n]);
        LastHitBound(pulse[basePos..n]);
        var m := if first then n - basePos else n - runPos;
        magRuns := magRuns + [m];
        runPos := n;
        magRuns := AppendZeros(magRuns, mag);
        signs := signs + [if pulse[n] < 0 then -1 else 1];
        first := false;
      }
    }
  }

  lemma GapsStart(w: seq<int>)
    requires w == []
    ensures Gaps(w) == [] && LastHit(w) == 0
  {
  }

  lemma LastHitBound(w: seq<int>)
    ensures LastHit(w) <= |w|
  {
  }

  method AppendZeros(runs: seq<nat>, mag: nat) returns (r: seq<nat>)
    requires mag >= 1
    ensures r == runs + Filled<nat>(0, mag - 1)
  {
    r := runs;
    if mag > 1 {
      for k := 0 to mag - 1
        invariant r == runs + Filled<nat>(0, k)
      {
        r := r + [0];
      }
    }
  }

  lemma PackSnoc(bits: seq<bool>, x: bool)
    ensures Pack(bits + [x]) == 2 * Pack(bits) + if x then 1 else 0
  {
    assert (bits + [x])[..|bits|] == bits;
  }

  /** One batch of signs, most significant bit first; the bits or-ed together are
      disjoint, so they add up. */
  method BatchSigns(signs: seq<int>, p: nat, nbits: nat) returns (sym: nat)
    requires p + nbits <= |signs|
    ensures sym == Pack(seq(nbits, j requires 0 <= j < nbits => signs[p + j] > 0))
  {
    ghost var g := seq(nbits, j requires 0 <= j < nbits => signs[p + j] > 0);
    sym := 0;
    for q := 0 to nbits
      invariant sym == Pack(g[..q]) * Pow2(nbits - q)
    {
      var bit := if signs[p + q] > 0 then 1 else 0;
      assert g[..q + 1] == g[..q] + [g[q]];
      PackSnoc(g[..q], g[q]);
      DoubleOut(Pack(g[..q]), Pow2(nbits - 1 - q), bit);
      sym := sym + bit * Pow2(nbits - 1 - q);
    }
    assert g[..nbits] == g;
  }

  lemma DoubleOut(a: nat, p: nat, bit: nat)
    ensures a * (2 * p) + bit * p == (2 * a + bit) * p
  {
  }

  method SignBatches(signs: seq<int>, ghost p: seq<Peak>) returns (signSyms: seq<RawBits>)
    requires SignsMatch(signs, p)
    ensures signSyms == Batches(Positive(p))
  {
    var numPos := |signs|;
    var at := 0;
    ghost var i := 0;
    signSyms := [];
    while at < numPos
      invariant i <= SignCount(numPos) && at == (if i * SIGN_BATCH < numPos then i * SIGN_BATCH else numPos)
      invariant i * SIGN_BATCH < numPos + SIGN_BATCH
      invariant signSyms == Batches(Positive(p))[..i]
      decreases numPos - at
    {
      var nbits := numPos - at;
      if nbits > SIGN_BATCH {
        nbits := SIGN_BATCH;
      }
      var sym := BatchSigns(signs, at, nbits);
      BatchIs(signs, p, i, at, nbits, sym);
      signSyms := signSyms + [RawBits(sym, nbits)];
      at := at + nbits;
      i := i + 1;
    }
    assert i == SignCount(numPos);
  }

  lemma BatchIs(signs: seq<int>, p: seq<Peak>, i: nat, at: nat, nbits: nat, sym: nat)
    requires SignsMatch(signs, p) && at == i * SIGN_BATCH < |signs|
    requires nbits == (if |signs| - at > SIGN_BATCH then SIGN_BATCH else |signs| - at)
    requires sym == Pack(seq(nbits, j requires 0 <= j < nbits => signs[at + j] > 0))
    ensures i < SignCount(|signs|) && Batches(Positive(p))[i] == RawBits(sym, nbits)
  {
    var g := seq(nbits, j requires 0 <= j < nbits => signs[at + j] > 0);
    assert Group(Positive(p), i) == g;
  }

  /** The parameters of a pulse vector, by the scan over its samples. */
  method BuildPulseParams(pulse: seq<int>) returns (pp: PulseParams)
    requires |pulse| == INTF_LEN
    ensures pp == ParamsOf(pulse)
  {
    hide Gaps, Peaks, Norm, Sum, Batches;
    var subfr: seq<nat> := [];
    for sf := 0 to SUBFRAMES
      invariant |subfr| == sf && forall k :: 0 <= k < sf ==> subfr[k] == Norms(pulse)[k]
    {
      var s := CountUnits(pulse, sf);
      NormAt(pulse, sf);
      subfr := subfr + [s];
    }
    assert subfr == Norms(pulse);
    TotalOfFour(subfr);
    var total := subfr[0] + subfr[1] + subfr[2] + subfr[3];
    var magRuns, signs := [], [];
    PeaksEmpty(0);
    for sf := 0 to SUBFRAMES
      invariant magRuns == AllGaps(pulse, sf)
      invariant SignsMatch(signs, Peaks(0, pulse[..sf * SUBFR_LEN]))
    {
      if subfr[sf] <= 0 {
        SilentSubframe(pulse, sf);
      } else {
        magRuns, signs := AppendSubframe(pulse, sf, magRuns, signs);
      }
    }
    assert pulse[..SUBFRAMES * SUBFR_LEN] == pulse;
    var signSyms := SignBatches(signs, Peaks(0, pulse));
    pp := PulseParams(total, subfr, magRuns, signSyms);
  }

  lemma SilentSubframe(pulse: seq<int>, sf: nat)
    requires |pulse| == INTF_LEN && sf < SUBFRAMES && Norms(pulse)[sf] == 0
    ensures AllGaps(pulse, sf + 1) == AllGaps(pulse, sf)
    ensures Peaks(0, pulse[..(sf + 1) * SUBFR_LEN]) == Peaks(0, pulse[..sf * SUBFR_LEN])
  {
    NormAt(pulse, sf);
    Silent(Subframe(pulse, sf));
    assert pulse[..(sf + 1) * SUBFR_LEN] == pulse[..sf * SUBFR_LEN] + Subframe(pulse, sf);
    PeaksAppend(0, pulse[..sf * SUBFR_LEN], Subframe(pulse, sf));
    assert AllGaps(pulse, sf) + [] == AllGaps(pulse, sf);
  }
}
