/** From pulse vectors to block parameters and back. */
module PulseVector {
  import opened Basics
  import opened Arithmetic
  import opened RangeSpec
  import opened CdfTables
  import opened CcTables
  import opened PulseSpec

  // ---- positions and magnitudes named by run lengths ----

  datatype Spots = Spots(pos: seq<nat>, mag: seq<nat>)

  /** A new pulse at position at, or one more unit on the pulse reached last. */
  function Extend(s: Spots, at: nat, isNew: bool): (r: Spots)
    requires |s.pos| == |s.mag| && (isNew || s.mag != [])
    ensures |r.pos| == |r.mag| == |s.mag| + (if isNew then 1 else 0)
  {
    if isNew then Spots(s.pos + [at], s.mag + [1])
    else Spots(s.pos, s.mag[|s.mag| - 1 := s.mag[|s.mag| - 1] + 1])
  }

  /** Follow the run lengths of one subframe: a zero after the first run adds to the
      pulse reached last. */
  function Walk(base: nat, runs: seq<nat>): (s: Spots)
    ensures |s.pos| == |s.mag| == Landings(runs)
    ensures runs != [] ==> |s.mag| > 0
  {
    if runs == [] then Spots([], [])
    else
      var n := |runs| - 1;
      Extend(Walk(base, runs[..n]), base + Sum(runs), runs[n] > 0 || n == 0)
  }

  lemma WalkSnoc(base: nat, runs: seq<nat>, m: nat)
    ensures Sum(runs + [m]) == Sum(runs) + m
    ensures Walk(base, runs + [m]) == Extend(Walk(base, runs), base + Sum(runs) + m, m > 0 || runs == [])
  {
    assert (runs + [m])[..|runs|] == runs;
  }

  function AllSpots(subfr: seq<nat>, runs: seq<nat>, i: nat): (s: Spots)
    requires i <= |subfr| && |runs| >= Start(subfr, i)
    ensures |s.pos| == |s.mag| == Positions(subfr, runs, i)
  {
    if i == 0 then Spots([], [])
    else
      StartMono(subfr, i - 1, i);
      var s := AllSpots(subfr, runs, i - 1);
      var t := Walk(SUBFR_LEN * (i - 1), RunsOf(subfr, runs, i - 1));
      Spots(s.pos + t.pos, s.mag + t.mag)
  }

  ghost predicate Ascending(pos: seq<nat>) {
    forall i, j :: 0 <= i < j < |pos| ==> pos[i] < pos[j]
  }

  ghost predicate Within(pos: seq<nat>, lo: nat, hi: nat) {
    forall i :: 0 <= i < |pos| ==> lo <= pos[i] < hi
  }

  /** A walk visits increasing positions between base and its last landing. */
  lemma {:induction false} WalkAscends(base: nat, runs: seq<nat>)
    ensures Ascending(Walk(base, runs).pos)
    ensures Within(Walk(base, runs).pos, base, base + Sum(runs) + 1)
    decreases |runs|
  {
    if runs != [] {
      WalkAscends(base, runs[..|runs| - 1]);
    }
  }

  /** A walk hands out one unit of magnitude per run length, and at least one per pulse. */
  lemma {:induction false} WalkConserves(base: nat, runs: seq<nat>)
    ensures Sum(Walk(base, runs).mag) == |runs|
    ensures forall i :: 0 <= i < |Walk(base, runs).mag| ==> Walk(base, runs).mag[i] >= 1
    decreases |runs|
  {
    if runs != [] {
      var n := |runs| - 1;
      WalkConserves(base, runs[..n]);
      var mag := Walk(base, runs[..n]).mag;
      if runs[n] > 0 || n == 0 {
        assert (mag + [1])[..|mag|] == mag;
      } else {
        assert mag[|mag| - 1 := mag[|mag| - 1] + 1][..|mag| - 1] == mag[..|mag| - 1];
      }
    }
  }

  // ---- signs ----

  function SignOf(signs: seq<RawBits>, q: nat): (s: int)
    requires q / SIGN_BATCH < |signs| && signs[q / SIGN_BATCH].nbits > q % SIGN_BATCH
    ensures s == 1 || s == -1
  {
    var raw := signs[q / SIGN_BATCH];
    if raw.sym / Pow2(raw.nbits - 1 - q % SIGN_BATCH) % 2 == 1 then 1 else -1
  }

  lemma SignInBatch(n: nat, signs: seq<RawBits>, q: nat)
    requires WfSigns(n, signs, SignCount(n)) && q < n
    ensures q / SIGN_BATCH < |signs| && signs[q / SIGN_BATCH].nbits > q % SIGN_BATCH
  {
    assert q / SIGN_BATCH * SIGN_BATCH + q % SIGN_BATCH == q;
  }

  function Signed(mag: seq<nat>, signs: seq<RawBits>): (r: seq<int>)
    requires WfSigns(|mag|, signs, SignCount(|mag|))
    ensures |r| == |mag|
  {
    seq(|mag|, q requires 0 <= q < |mag| =>
      SignInBatch(|mag|, signs, q);
      mag[q] * SignOf(signs, q))
  }

  /** A vector of n samples that is zero except for vals at the given positions. */
  function Place(pos: seq<nat>, vals: seq<int>, n: nat): (v: seq<int>)
    requires |pos| == |vals| && Within(pos, 0, n)
    ensures |v| == n
  {
    if pos == [] then seq(n, _ => 0)
    else
      var k := |pos| - 1;
      Place(pos[..k], vals[..k], n)[pos[k] := vals[k]]
  }

  // ---- the vector a parameter set stands for ----

  ghost predicate Placeable(pp: PulseParams) {
    && |pp.subfr| == SUBFRAMES && |pp.magRuns| >= Start(pp.subfr, SUBFRAMES)
    && Within(AllSpots(pp.subfr, pp.magRuns, SUBFRAMES).pos, 0, INTF_LEN)
    && (var n := Positions(pp.subfr, pp.magRuns, SUBFRAMES); WfSigns(n, pp.signSyms, SignCount(n)))
  }

  ghost function Reconstruct(pp: PulseParams): (v: seq<int>)
    requires Placeable(pp)
    ensures |v| == INTF_LEN
  {
    var s := AllSpots(pp.subfr, pp.magRuns, SUBFRAMES);
    Place(s.pos, Signed(s.mag, pp.signSyms), INTF_LEN)
  }

  // ---- analysis of a vector ----

  function Abs(x: int): nat { if x < 0 then -x else x }

  function Norm(w: seq<int>): nat {
    if w == [] then 0 else Norm(w[..|w| - 1]) + Abs(w[|w| - 1])
  }

  function LastHit(w: seq<int>): (r: nat)
    ensures if w == [] then r == 0 else r < |w|
  {
    if w == [] then 0 else if w[|w| - 1] != 0 then |w| - 1 else LastHit(w[..|w| - 1])
  }

  function GapStep(g: seq<nat>, n: nat, last: nat, x: int): seq<nat>
    requires last <= n
  {
    if x == 0 then g else g + [n - last] + Filled<nat>(0, Abs(x) - 1)
  }

  /** Distance to each pulse from the one before it, and a zero for each further unit. */
  function Gaps(w: seq<int>): seq<nat> {
    if w == [] then []
    else
      var n := |w| - 1;
      GapStep(Gaps(w[..n]), n, LastHit(w[..n]), w[n])
  }

  datatype Peak = Peak(pos: nat, val: int)

  /** The nonzero samples, in order. */
  function Peaks(base: nat, w: seq<int>): seq<Peak> {
    if w == [] then []
    else
      var n := |w| - 1;
      Peaks(base, w[..n]) + if w[n] == 0 then [] else [Peak(base + n, w[n])]
  }

  function PosOf(p: seq<Peak>): (r: seq<nat>)
    ensures |r| == |p|
  {
    seq(|p|, i requires 0 <= i < |p| => p[i].pos)
  }

  function MagOf(p: seq<Peak>): (r: seq<nat>)
    ensures |r| == |p|
  {
    seq(|p|, i requires 0 <= i < |p| => Abs(p[i].val))
  }

  function SpotsOf(p: seq<Peak>): Spots {
    Spots(PosOf(p), MagOf(p))
  }

  lemma PeaksSnoc(base: nat, w: seq<int>, x: int)
    ensures Peaks(base, w + [x]) == Peaks(base, w) + if x == 0 then [] else [Peak(base + |w|, x)]
  {
    assert (w + [x])[..|w|] == w;
  }

  function Bump(s: Spots, n: nat): Spots
    requires s.mag != []
  {
    Spots(s.pos, s.mag[|s.mag| - 1 := s.mag[|s.mag| - 1] + n])
  }

  lemma BumpMore(s: Spots, n: nat, at: nat)
    requires s.mag != [] && |s.pos| == |s.mag|
    ensures Bump(s, 0) == s && Extend(Bump(s, n), at, false) == Bump(s, n + 1)
  {
  }

  lemma ZerosSnoc(runs: seq<nat>, n: nat)
    ensures runs + Filled<nat>(0, 0) == runs && runs + Filled<nat>(0, n + 1) == (runs + Filled<nat>(0, n)) + [0]
    ensures Filled<nat>(0, n + 1) == Filled<nat>(0, n) + [0]
  {
  }

  lemma {:induction false} ZerosWalk(base: nat, runs: seq<nat>, n: nat)
    requires runs != []
    ensures Sum(runs + Filled<nat>(0, n)) == Sum(runs)
    ensures Walk(base, runs + Filled<nat>(0, n)) == Bump(Walk(base, runs), n)
  {
    hide Walk, Sum, Filled, Bump;
    if n == 0 {
      ZerosSnoc(runs, 0);
      BumpMore(Walk(base, runs), 0, 0);
    } else {
      ZerosWalk(base, runs, n - 1);
      ZerosSnoc(runs, n - 1);
      WalkSnoc(base, runs + Filled<nat>(0, n - 1), 0);
      BumpMore(Walk(base, runs), n - 1, base + Sum(runs));
    }
  }

  /** The run lengths of a segment lead back to its nonzero samples. */
  lemma {:induction false} GapsWalk(base: nat, w: seq<int>)
    ensures |Gaps(w)| == Norm(w) && Sum(Gaps(w)) == LastHit(w)
    ensures Walk(base, Gaps(w)) == SpotsOf(Peaks(base, w))
    decreases |w|
  {
    if w != [] {
      var n := |w| - 1;
      GapsWalk(base, w[..n]);
      if w[n] != 0 {
        GapsWalkHit(base, w);
      }
    }
  }

  lemma GapsWalkHit(base: nat, w: seq<int>)
    requires w != [] && w[|w| - 1] != 0
    requires var v := w[..|w| - 1]; Sum(Gaps(v)) == LastHit(v) && Walk(base, Gaps(v)) == SpotsOf(Peaks(base, v))
    ensures Sum(Gaps(w)) == LastHit(w)
    ensures Walk(base, Gaps(w)) == SpotsOf(Peaks(base, w))
  {
    hide Walk, Sum, Filled, Peaks;
    var n := |w| - 1;
    var v := w[..n];
    assert w == v + [w[n]];
    PeaksSnoc(base, v, w[n]);
    SpotsSnoc(Peaks(base, v), Peak(base + n, w[n]));
    WalkHit(base, Gaps(v), n, LastHit(v), Abs(w[n]), SpotsOf(Peaks(base, v)));
  }

  lemma SpotsSnoc(p: seq<Peak>, x: Peak)
    ensures SpotsOf(p + [x]) == Spots(PosOf(p) + [x.pos], MagOf(p) + [Abs(x.val)])
  {
  }

  lemma SpotsAppend(p: seq<Peak>, q: seq<Peak>)
    ensures SpotsOf(p + q) == Spots(PosOf(p) + PosOf(q), MagOf(p) + MagOf(q))
  {
  }

  lemma WalkHit(base: nat, g: seq<nat>, n: nat, last: nat, units: nat, s: Spots)
    requires units >= 1 && last <= n && (last < n || g == []) && |s.pos| == |s.mag|
    requires Sum(g) == last && Walk(base, g) == s
    ensures var h := g + [n - last] + Filled<nat>(0, units - 1);
            Sum(h) == n && Walk(base, h) == Spots(s.pos + [base + n], s.mag + [units])
  {
    hide Walk, Sum, Filled;
    WalkSnoc(base, g, n - last);
    ZerosWalk(base, g + [n - last], units - 1);
    assert Bump(Spots(s.pos + [base + n], s.mag + [1]), units - 1).mag == s.mag + [units];
  }

  lemma {:induction false} PeaksAppend(base: nat, a: seq<int>, w: seq<int>)
    ensures Peaks(base, a + w) == Peaks(base, a) + Peaks(base + |a|, w)
    decreases |w|
  {
    hide Peaks;
    if w == [] {
      assert a + w == a;
      PeaksEmpty(base + |a|);
    } else {
      var n := |w| - 1;
      PeaksAppend(base, a, w[..n]);
      assert a + w == (a + w[..n]) + [w[n]] && w == w[..n] + [w[n]];
      PeaksSnoc(base, a + w[..n], w[n]);
      PeaksSnoc(base + |a|, w[..n], w[n]);
    }
  }

  lemma PeaksEmpty(base: nat)
    ensures Peaks(base, []) == []
  {
  }

  lemma {:induction false} PeaksWithin(base: nat, w: seq<int>)
    ensures forall i :: 0 <= i < |Peaks(base, w)| ==>
              base <= Peaks(base, w)[i].pos < base + |w| && Peaks(base, w)[i].val != 0
    decreases |w|
  {
    if w != [] {
      PeaksWithin(base, w[..|w| - 1]);
    }
  }

  function ValOf(p: seq<Peak>): (r: seq<int>)
    ensures |r| == |p|
  {
    seq(|p|, i requires 0 <= i < |p| => p[i].val)
  }

  function Padded(w: seq<int>, n: nat): (r: seq<int>)
    requires |w| <= n
    ensures |r| == n
  {
    w + seq(n - |w|, _ => 0)
  }

  /** Putting every nonzero sample back in its place restores the vector. */
  lemma {:induction false} PlacePeaks(w: seq<int>, n: nat)
    requires |w| <= n
    ensures Within(PosOf(Peaks(0, w)), 0, n)
    ensures Place(PosOf(Peaks(0, w)), ValOf(Peaks(0, w)), n) == Padded(w, n)
    decreases |w|
  {
    hide Peaks, Place;
    PeaksWithin(0, w);
    if w == [] {
      PeaksEmpty(0);
      PlaceEmpty(n);
    } else {
      var m := |w| - 1;
      PlacePeaks(w[..m], n);
      assert w == w[..m] + [w[m]];
      PeaksSnoc(0, w[..m], w[m]);
      if w[m] == 0 {
        assert Peaks(0, w) == Peaks(0, w[..m]);
        assert Padded(w, n) == Padded(w[..m], n);
      } else {
        PlaceSnoc(PosOf(Peaks(0, w[..m])), ValOf(Peaks(0, w[..m])), m, w[m], n);
        assert PosOf(Peaks(0, w)) == PosOf(Peaks(0, w[..m])) + [m];
        assert ValOf(Peaks(0, w)) == ValOf(Peaks(0, w[..m])) + [w[m]];
        assert Padded(w, n) == Padded(w[..m], n)[m := w[m]];
      }
    }
  }

  lemma PlaceEmpty(n: nat)
    ensures Place([], [], n) == Padded([], n)
  {
  }

  lemma PlaceSnoc(pos: seq<nat>, vals: seq<int>, p: nat, v: int, n: nat)
    requires |pos| == |vals| && Within(pos, 0, n) && p < n
    ensures Within(pos + [p], 0, n)
    ensures Place(pos + [p], vals + [v], n) == Place(pos, vals, n)[p := v]
  {
    assert (pos + [p])[..|pos|] == pos && (vals + [v])[..|vals|] == vals;
  }

  // ---- sign batches ----

  /** The bits of one batch, most significant first. */
  function Pack(bits: seq<bool>): nat {
    if bits == [] then 0 else 2 * Pack(bits[..|bits| - 1]) + if bits[|bits| - 1] then 1 else 0
  }

  lemma {:induction false} PackBound(bits: seq<bool>)
    ensures Pack(bits) < Pow2(|bits|)
    decreases |bits|
  {
    if bits != [] {
      PackBound(bits[..|bits| - 1]);
    }
  }

  lemma {:induction false} PackBit(bits: seq<bool>, j: nat)
    requires j < |bits|
    ensures Pack(bits) / Pow2(|bits| - 1 - j) % 2 == (if bits[j] then 1 else 0)
    decreases |bits|
  {
    var n := |bits| - 1;
    assert Pack(bits) / 2 == Pack(bits[..n]);
    if j < n {
      PackBit(bits[..n], j);
      HalveDivide(Pack(bits), Pow2(n - 1 - j));
      assert Pow2(n - j) == 2 * Pow2(n - 1 - j);
    } else {
      assert Pow2(0) == 1;
    }
  }

  lemma HalveDivide(x: nat, p: nat)
    requires p > 0
    ensures x / (2 * p) == x / 2 / p
  {
    var q := x / 2 / p;
    var r := x / 2 % p;
    assert x / 2 == p * q + r;
    QuotientCompare(x / 2, p, 0);
    assert x == (2 * p) * q + (2 * r + x % 2);
    DivideUnique(x, 2 * p, q, 2 * r + x % 2);
  }

  lemma DivideUnique(x: nat, d: nat, q: nat, r: nat)
    requires d > 0 && x == d * q + r && r < d
    ensures x / d == q
  {
    QuotientCompare(x, d, q);
    QuotientCompare(x, d, q + 1);
    assert d * (q + 1) == d * q + d;
  }

  /** The i-th group of at most fifteen signs. */
  function Group(signs: seq<bool>, i: nat): (r: seq<bool>)
    requires i * SIGN_BATCH <= |signs|
    ensures |r| == BatchBits(|signs|, i)
  {
    signs[i * SIGN_BATCH..i * SIGN_BATCH + BatchBits(|signs|, i)]
  }

  function Batches(signs: seq<bool>): (r: seq<RawBits>)
    ensures |r| == SignCount(|signs|)
  {
    seq(SignCount(|signs|), i requires 0 <= i < SignCount(|signs|) =>
      RawBits(Pack(Group(signs, i)), BatchBits(|signs|, i)))
  }

  lemma BatchesWf(signs: seq<bool>)
    ensures WfSigns(|signs|, Batches(signs), SignCount(|signs|))
  {
    forall i | 0 <= i < SignCount(|signs|) ensures Batches(signs)[i].sym < Pow2(Batches(signs)[i].nbits) {
      PackBound(Group(signs, i));
    }
  }

  lemma BatchesSign(signs: seq<bool>, q: nat)
    requires q < |signs|
    ensures q / SIGN_BATCH < |Batches(signs)| && Batches(signs)[q / SIGN_BATCH].nbits > q % SIGN_BATCH
    ensures SignOf(Batches(signs), q) == if signs[q] then 1 else -1
  {
    hide Batches, WfSigns, Pow2;
    BatchesWf(signs);
    SignInBatch(|signs|, Batches(signs), q);
    BatchAt(signs, q / SIGN_BATCH, q % SIGN_BATCH);
    assert q / SIGN_BATCH * SIGN_BATCH + q % SIGN_BATCH == q;
  }

  lemma BatchAt(signs: seq<bool>, i: nat, j: nat)
    requires i < |Batches(signs)| && j < Batches(signs)[i].nbits
    ensures i * SIGN_BATCH + j < |signs|
    ensures var raw := Batches(signs)[i];
            raw.sym / Pow2(raw.nbits - 1 - j) % 2 == if signs[i * SIGN_BATCH + j] then 1 else 0
  {
    hide Pack, Pow2;
    PackBit(Group(signs, i), j);
  }

  // ---- the round trip on vectors ----

  function Subframe(v: seq<int>, i: nat): (w: seq<int>)
    requires |v| == INTF_LEN && i < SUBFRAMES
    ensures |w| == SUBFR_LEN
  {
    v[SUBFR_LEN * i..SUBFR_LEN * (i + 1)]
  }

  function Norms(v: seq<int>): (r: seq<nat>)
    requires |v| == INTF_LEN
    ensures |r| == SUBFRAMES
  {
    [Norm(Subframe(v, 0)), Norm(Subframe(v, 1)), Norm(Subframe(v, 2)), Norm(Subframe(v, 3))]
  }

  function AllGaps(v: seq<int>, i: nat): seq<nat>
    requires |v| == INTF_LEN && i <= SUBFRAMES
  {
    if i == 0 then [] else AllGaps(v, i - 1) + Gaps(Subframe(v, i - 1))
  }

  function Positive(p: seq<Peak>): (r: seq<bool>)
    ensures |r| == |p|
  {
    seq(|p|, i requires 0 <= i < |p| => p[i].val > 0)
  }

  /** The parameters of a pulse vector. */
  function ParamsOf(v: seq<int>): PulseParams
    requires |v| == INTF_LEN
  {
    PulseParams(Start(Norms(v), SUBFRAMES), Norms(v), AllGaps(v, SUBFRAMES), Batches(Positive(Peaks(0, v))))
  }

  lemma NormAt(v: seq<int>, i: nat)
    requires |v| == INTF_LEN && i < SUBFRAMES
    ensures Norms(v)[i] == Norm(Subframe(v, i)) == |Gaps(Subframe(v, i))|
  {
    GapsWalk(0, Subframe(v, i));
    if i < 2 { if i == 0 {} else {} } else { if i == 2 {} else {} }
  }

  lemma {:induction false} AllGapsLength(v: seq<int>, i: nat)
    requires |v| == INTF_LEN && i <= SUBFRAMES
    ensures |AllGaps(v, i)| == Start(Norms(v), i)
  {
    if i > 0 {
      AllGapsLength(v, i - 1);
      NormAt(v, i - 1);
      StartStep(Norms(v), i - 1);
    }
  }

  lemma {:induction false} AllGapsPrefix(v: seq<int>, i: nat, j: nat)
    requires |v| == INTF_LEN && i <= j <= SUBFRAMES
    ensures |AllGaps(v, i)| <= |AllGaps(v, j)| && AllGaps(v, j)[..|AllGaps(v, i)|] == AllGaps(v, i)
  {
    if i < j {
      AllGapsPrefix(v, i, j - 1);
    }
  }

  lemma SliceOfPrefix<T>(g: seq<T>, h: seq<T>, n: nat)
    requires n <= |h| <= |g| && g[..|h|] == h
    ensures g[n..|h|] == h[n..]
  {
    assert g[n..|h|] == g[..|h|][n..];
  }

  /** The run lengths of subframe i are the gaps of its samples. */
  lemma RunsAreGaps(v: seq<int>, i: nat, j: nat)
    requires |v| == INTF_LEN && i < j <= SUBFRAMES
    ensures |AllGaps(v, j)| >= Start(Norms(v), i + 1)
    ensures RunsOf(Norms(v), AllGaps(v, j), i) == Gaps(Subframe(v, i))
  {
    assert AllGaps(v, i + 1) == AllGaps(v, i) + Gaps(Subframe(v, i));
    hide AllGaps, Gaps, Norms, Start, Subframe;
    AllGapsLength(v, i);
    AllGapsLength(v, i + 1);
    AllGapsPrefix(v, i + 1, j);
    SliceOfPrefix(AllGaps(v, j), AllGaps(v, i + 1), |AllGaps(v, i)|);
  }

  lemma {:induction false} SpotsArePeaks(v: seq<int>, i: nat)
    requires |v| == INTF_LEN && i <= SUBFRAMES
    ensures |AllGaps(v, SUBFRAMES)| >= Start(Norms(v), i)
    ensures AllSpots(Norms(v), AllGaps(v, SUBFRAMES), i) == SpotsOf(Peaks(0, v[..SUBFR_LEN * i]))
  {
    hide Peaks, Walk, Gaps, AllGaps, Norms;
    AllGapsLength(v, SUBFRAMES);
    StartMono(Norms(v), i, SUBFRAMES);
    if i == 0 {
      PeaksEmpty(0);
      assert v[..0] == [];
    } else {
      SpotsArePeaks(v, i - 1);
      RunsAreGaps(v, i - 1, SUBFRAMES);
      GapsWalk(SUBFR_LEN * (i - 1), Subframe(v, i - 1));
      assert v[..SUBFR_LEN * i] == v[..SUBFR_LEN * (i - 1)] + Subframe(v, i - 1);
      PeaksAppend(0, v[..SUBFR_LEN * (i - 1)], Subframe(v, i - 1));
      SpotsAppend(Peaks(0, v[..SUBFR_LEN * (i - 1)]), Peaks(SUBFR_LEN * (i - 1), Subframe(v, i - 1)));
    }
  }

  // ---- which counts the split tables can express ----

  /** With well-formed tables a split can express exactly the counts of at most forty
      pulses a subframe. */
  lemma SplitsFitCounts(cc: Tables, subfr: seq<nat>)
    requires cc.Wf() && |subfr| == SUBFRAMES && Start(subfr, SUBFRAMES) <= COUNT_MAX
    ensures SplitsFit(cc, subfr) <==> forall i :: 0 <= i < SUBFRAMES ==> subfr[i] <= MAX_PULSES
  {
    hide SplitFits, HalfFits, Tables.SplitCmf, Tables.HalfCdf, Tables.Wf, Sum;
    TotalOfFour(subfr);
    var first, second := subfr[0] + subfr[1], subfr[2] + subfr[3];
    SplitFitsCount(cc, first + second, first);
    if first <= 2 * MAX_PULSES && second <= 2 * MAX_PULSES {
      HalfFitsCount(cc, first, subfr[0]);
      HalfFitsCount(cc, second, subfr[2]);
    }
  }

  lemma SplitFitsCount(cc: Tables, total: nat, first: nat)
    requires cc.Wf() && first <= total <= COUNT_MAX
    ensures SplitFits(cc.SplitCmf(total), total, first)
            <==> first <= 2 * MAX_PULSES && total - first <= 2 * MAX_PULSES
  {
    if 1 <= total <= SPLIT_TABLES {
      cc.SplitSizes(total);
    }
  }

  lemma HalfFitsCount(cc: Tables, count: nat, first: nat)
    requires cc.Wf() && first <= count <= 2 * MAX_PULSES
    ensures HalfFits(cc.HalfCdf(count), count, first) <==> first <= MAX_PULSES && count - first <= MAX_PULSES
  {
    if 1 <= count < 2 * MAX_PULSES {
      cc.SplitSizes(count);
    }
  }

  // ---- every vector of at most forty units a subframe survives ----

  ghost predicate Sparse(v: seq<int>) {
    |v| == INTF_LEN && forall i :: 0 <= i < SUBFRAMES ==> Norms(v)[i] <= MAX_PULSES
  }

  lemma RunsFit(cc: Tables, v: seq<int>)
    requires cc.Wf() && Sparse(v)
    ensures WfRuns(cc, Norms(v), AllGaps(v, SUBFRAMES), SUBFRAMES)
  {
    hide Norms, AllGaps, Gaps, Admissible, RunModel;
    AllGapsLength(v, SUBFRAMES);
    WfRunsSized(cc);
    var runs := AllGaps(v, SUBFRAMES);
    forall k | 0 <= k < SUBFRAMES
      ensures Start(Norms(v), k + 1) <= |runs|
      ensures Admissible(RunModel(cc, Norms(v)[k]), RunsOf(Norms(v), runs, k))
    {
      StartMono(Norms(v), k + 1, SUBFRAMES);
      RunsAreGaps(v, k, SUBFRAMES);
      GapsWalk(0, Subframe(v, k));
      NormAt(v, k);
      RunsInSubframe(cc, Norms(v)[k], Gaps(Subframe(v, k)));
    }
  }

  lemma SpotsOfVector(v: seq<int>)
    requires |v| == INTF_LEN
    ensures |AllGaps(v, SUBFRAMES)| == Start(Norms(v), SUBFRAMES)
    ensures AllSpots(Norms(v), AllGaps(v, SUBFRAMES), SUBFRAMES) == SpotsOf(Peaks(0, v))
    ensures Positions(Norms(v), AllGaps(v, SUBFRAMES), SUBFRAMES) == |Peaks(0, v)|
  {
    AllGapsLength(v, SUBFRAMES);
    SpotsArePeaks(v, SUBFRAMES);
    assert v[..SUBFR_LEN * SUBFRAMES] == v;
  }

  /** The analysis of a sparse vector can be coded. */
  lemma ParamsAreWf(cc: Tables, v: seq<int>)
    requires cc.Wf() && Sparse(v)
    ensures WfPulses(cc, ParamsOf(v))
  {
    hide AllGaps, Peaks, WfRuns, SplitsFit, WfSigns, Batches, Positions;
    SpotsOfVector(v);
    RunsFit(cc, v);
    TotalOfFour(Norms(v));
    SplitsFitCounts(cc, Norms(v));
    BatchesWf(Positive(Peaks(0, v)));
  }

  lemma SignedPeaks(p: seq<Peak>)
    ensures WfSigns(|p|, Batches(Positive(p)), SignCount(|p|))
    ensures (forall i :: 0 <= i < |p| ==> p[i].val != 0) ==> Signed(MagOf(p), Batches(Positive(p))) == ValOf(p)
  {
    BatchesWf(Positive(p));
    if forall i :: 0 <= i < |p| ==> p[i].val != 0 {
      forall q | 0 <= q < |p| ensures Signed(MagOf(p), Batches(Positive(p)))[q] == p[q].val {
        BatchesSign(Positive(p), q);
      }
    }
  }

  /** Analysis followed by reconstruction is the identity, whatever the signs and
      magnitudes. */
  lemma VectorRoundTrip(v: seq<int>)
    requires |v| == INTF_LEN
    ensures Placeable(ParamsOf(v)) && Reconstruct(ParamsOf(v)) == v
  {
    hide AllGaps, Peaks, WfSigns, Batches, Positions, AllSpots, Place, Signed;
    SpotsOfVector(v);
    PlacePeaks(v, INTF_LEN);
    SignedPeaks(Peaks(0, v));
    PeaksWithin(0, v);
    assert Padded(v, INTF_LEN) == v;
  }

  // ---- every parameter set that can be coded is the analysis of its own vector ----

  /** The run lengths of the first i subframes end before their subframe does. */
  ghost predicate RunsStay(subfr: seq<nat>, runs: seq<nat>, i: nat)
    requires i <= |subfr|
  {
    && |runs| >= Start(subfr, i)
    && forall k :: 0 <= k < i ==> (StartMono(subfr, k + 1, i); Sum(RunsOf(subfr, runs, k)) < SUBFR_LEN)
  }

  lemma {:induction false} SpotsAscend(subfr: seq<nat>, runs: seq<nat>, i: nat)
    requires i <= |subfr| && RunsStay(subfr, runs, i)
    ensures Ascending(AllSpots(subfr, runs, i).pos) && Within(AllSpots(subfr, runs, i).pos, 0, SUBFR_LEN * i)
  {
    hide Walk, Sum;
    if i > 0 {
      StartMono(subfr, i - 1, i);
      SpotsAscend(subfr, runs, i - 1);
      var own := RunsOf(subfr, runs, i - 1);
      assert Sum(own) < SUBFR_LEN;
      WalkAscends(SUBFR_LEN * (i - 1), own);
    }
  }

  /** The run lengths that visit the given spots. */
  function GapsOf(base: nat, s: Spots): (r: seq<int>)
    requires |s.pos| == |s.mag|
    decreases |s.pos|
  {
    if s.pos == [] then []
    else
      var n := |s.pos| - 1;
      GapsOf(base, Spots(s.pos[..n], s.mag[..n]))
      + [s.pos[n] - if n == 0 then base else s.pos[n - 1]]
      + Filled<nat>(0, if s.mag[n] > 0 then s.mag[n] - 1 else 0)
  }

  lemma {:induction false} WalkEnd(base: nat, runs: seq<nat>)
    requires runs != []
    ensures var s := Walk(base, runs); s.pos[|s.pos| - 1] == base + Sum(runs)
    decreases |runs|
  {
    if |runs| > 1 {
      WalkEnd(base, runs[..|runs| - 1]);
    }
  }

  lemma WalkNothing(base: nat)
    ensures Sum([]) == 0 && Walk(base, []) == Spots([], []) && GapsOf(base, Spots([], [])) == []
  {
  }

  /** A walk determines its run lengths. */
  lemma {:induction false} WalkInverse(base: nat, runs: seq<nat>)
    ensures GapsOf(base, Walk(base, runs)) == runs
    decreases |runs|
  {
    hide Walk, Sum, GapsOf, Extend;
    if runs == [] {
      WalkNothing(base);
    } else {
      var n := |runs| - 1;
      var v := runs[..n];
      WalkInverse(base, v);
      WalkConserves(base, v);
      assert runs == v + [runs[n]];
      WalkSnoc(base, v, runs[n]);
      if n == 0 {
        WalkNothing(base);
      } else {
        WalkEnd(base, v);
      }
      GapsExtend(base, Walk(base, v), base + Sum(v), runs[n], runs[n] > 0 || n == 0);
    }
  }

  lemma GapsExtend(base: nat, s: Spots, last: nat, m: nat, isNew: bool)
    requires |s.pos| == |s.mag| && (isNew || (m == 0 && s.mag != []))
    requires last == (if s.pos == [] then base else s.pos[|s.pos| - 1])
    requires forall i :: 0 <= i < |s.mag| ==> s.mag[i] >= 1
    ensures GapsOf(base, Extend(s, last + m, isNew)) == GapsOf(base, s) + [m]
  {
    if isNew {
      GapsNew(base, s, last, m);
    } else {
      GapsMore(base, s, s.pos[|s.pos| - 1]);
    }
  }

  lemma GapsMore(base: nat, s: Spots, at: nat)
    requires |s.pos| == |s.mag| > 0 && s.mag[|s.mag| - 1] >= 1
    ensures GapsOf(base, Extend(s, at, false)) == GapsOf(base, s) + [0]
  {
    var n := |s.pos| - 1;
    var e := Extend(s, at, false);
    assert e.pos[..n] == s.pos[..n] && e.mag[..n] == s.mag[..n];
    ZerosSnoc([], s.mag[n] - 1);
    var front := GapsOf(base, Spots(s.pos[..n], s.mag[..n])) + [s.pos[n] - if n == 0 then base else s.pos[n - 1]];
    var zeros := Filled<nat>(0, s.mag[n] - 1);
    assert GapsOf(base, s) == front + zeros && GapsOf(base, e) == front + (zeros + [0]);
    hide GapsOf, Filled;
  }

  lemma GapsNew(base: nat, s: Spots, last: nat, m: nat)
    requires |s.pos| == |s.mag|
    requires last == (if s.pos == [] then base else s.pos[|s.pos| - 1])
    ensures GapsOf(base, Spots(s.pos + [last + m], s.mag + [1])) == GapsOf(base, s) + [m]
  {
    var e := Spots(s.pos + [last + m], s.mag + [1]);
    assert e.pos[..|s.pos|] == s.pos && e.mag[..|s.mag|] == s.mag;
  }

  lemma {:induction false} PlaceBeyond(pos: seq<nat>, vals: seq<int>, n: nat, m: nat)
    requires |pos| == |vals| && m <= n && Within(pos, 0, m)
    ensures Within(pos, 0, n) && forall x :: m <= x < n ==> Place(pos, vals, n)[x] == 0
    decreases |pos|
  {
    if pos != [] {
      PlaceBeyond(pos[..|pos| - 1], vals[..|pos| - 1], n, m);
    }
  }

  function Zip(pos: seq<nat>, vals: seq<int>): (p: seq<Peak>)
    requires |pos| == |vals|
    ensures |p| == |pos|
  {
    seq(|pos|, i requires 0 <= i < |pos| => Peak(pos[i], vals[i]))
  }

  /** The nonzero samples of a vector built from ascending positions are what was put there. */
  lemma {:induction false} PeaksPlace(pos: seq<nat>, vals: seq<int>, n: nat, m: nat)
    requires |pos| == |vals| && m <= n && Within(pos, 0, m) && Ascending(pos) && Within(pos, 0, n)
    requires forall i :: 0 <= i < |vals| ==> vals[i] != 0
    ensures Peaks(0, Place(pos, vals, n)[..m]) == Zip(pos, vals)
    decreases m
  {
    hide Peaks;
    var v := Place(pos, vals, n);
    assert pos != [] ==> pos[0] < m;
    if m == 0 {
      PeaksEmpty(0);
    } else {
      assert v[..m] == v[..m - 1] + [v[m - 1]];
      PeaksSnoc(0, v[..m - 1], v[m - 1]);
      var k := |pos| - 1;
      if pos != [] && pos[k] == m - 1 {
        PeaksPlace(pos[..k], vals[..k], n, m - 1);
        assert v[..m - 1] == Place(pos[..k], vals[..k], n)[..m - 1];
        assert Zip(pos, vals) == Zip(pos[..k], vals[..k]) + [Peak(m - 1, vals[k])];
      } else {
        assert Within(pos, 0, m - 1);
        PlaceBeyond(pos, vals, n, m - 1);
        PeaksPlace(pos, vals, n, m - 1);
      }
    }
  }

  // ---- signs of a parameter set ----

  function BitsOf(n: nat, signs: seq<RawBits>): (r: seq<bool>)
    requires WfSigns(n, signs, SignCount(n))
    ensures |r| == n
  {
    seq(n, q requires 0 <= q < n =>
      SignInBatch(n, signs, q);
      SignOf(signs, q) == 1)
  }

  function Unpack(x: nat, n: nat): (r: seq<bool>)
    ensures |r| == n
  {
    if n == 0 then [] else Unpack(x / 2, n - 1) + [x % 2 == 1]
  }

  lemma {:induction false} PackUnpack(x: nat, n: nat)
    requires x < Pow2(n)
    ensures Pack(Unpack(x, n)) == x
  {
    if n > 0 {
      PackUnpack(x / 2, n - 1);
      assert Unpack(x, n)[..n - 1] == Unpack(x / 2, n - 1);
    }
  }

  lemma UnpackBit(x: nat, n: nat, j: nat)
    requires x < Pow2(n) && j < n
    ensures Unpack(x, n)[j] == (x / Pow2(n - 1 - j) % 2 == 1)
  {
    PackUnpack(x, n);
    PackBit(Unpack(x, n), j);
  }

  lemma InBatch(i: nat, j: nat)
    requires j < SIGN_BATCH
    ensures (i * SIGN_BATCH + j) / SIGN_BATCH == i && (i * SIGN_BATCH + j) % SIGN_BATCH == j
  {
  }

  lemma BatchBack(n: nat, signs: seq<RawBits>, i: nat, j: nat)
    requires WfSigns(n, signs, SignCount(n)) && i < SignCount(n) && j < BatchBits(n, i)
    ensures Group(BitsOf(n, signs), i)[j] == Unpack(signs[i].sym, signs[i].nbits)[j]
  {
    hide Unpack, Pow2, SignCount;
    var q := i * SIGN_BATCH + j;
    InBatch(i, j);
    SignInBatch(n, signs, q);
    UnpackBit(signs[i].sym, signs[i].nbits, j);
    assert BitsOf(n, signs)[q] == (SignOf(signs, q) == 1);
  }

  lemma BatchesBits(n: nat, signs: seq<RawBits>)
    requires WfSigns(n, signs, SignCount(n))
    ensures Batches(BitsOf(n, signs)) == signs
  {
    hide Pack, Unpack, BitsOf, Group;
    forall i | 0 <= i < SignCount(n) ensures Batches(BitsOf(n, signs))[i] == signs[i] {
      var u := Unpack(signs[i].sym, signs[i].nbits);
      forall j | 0 <= j < BatchBits(n, i) ensures Group(BitsOf(n, signs), i)[j] == u[j] {
        BatchBack(n, signs, i, j);
      }
      assert Group(BitsOf(n, signs), i) == u;
      PackUnpack(signs[i].sym, signs[i].nbits);
    }
  }

  // ---- the analysis of what was decoded ----

  lemma {:induction false} SpotsPositive(subfr: seq<nat>, runs: seq<nat>, i: nat)
    requires i <= |subfr| && |runs| >= Start(subfr, i)
    ensures forall k :: 0 <= k < |AllSpots(subfr, runs, i).mag| ==> AllSpots(subfr, runs, i).mag[k] >= 1
  {
    hide Walk, Sum;
    if i > 0 {
      StartMono(subfr, i - 1, i);
      SpotsPositive(subfr, runs, i - 1);
      WalkConserves(SUBFR_LEN * (i - 1), RunsOf(subfr, runs, i - 1));
    }
  }

  lemma SignedBits(mag: seq<nat>, signs: seq<RawBits>)
    requires WfSigns(|mag|, signs, SignCount(|mag|))
    requires forall k :: 0 <= k < |mag| ==> mag[k] >= 1
    ensures forall q :: 0 <= q < |mag| ==>
              Abs(Signed(mag, signs)[q]) == mag[q] && (Signed(mag, signs)[q] > 0 <==> BitsOf(|mag|, signs)[q])
  {
    hide SignOf;
    forall q | 0 <= q < |mag|
      ensures Abs(Signed(mag, signs)[q]) == mag[q] && (Signed(mag, signs)[q] > 0 <==> BitsOf(|mag|, signs)[q])
    {
      SignInBatch(|mag|, signs, q);
      if SignOf(signs, q) == 1 {} else {}
    }
  }

  /** The peaks of the reconstruction are the decoded spots with their signs. */
  lemma PeaksOfReconstruction(pp: PulseParams)
    requires Placeable(pp) && RunsStay(pp.subfr, pp.magRuns, SUBFRAMES)
    ensures var s, p := AllSpots(pp.subfr, pp.magRuns, SUBFRAMES), Peaks(0, Reconstruct(pp));
            SpotsOf(p) == s && Batches(Positive(p)) == pp.signSyms
  {
    hide AllSpots, Place, Peaks, Signed, Batches, BitsOf, WfSigns, Positions;
    var s := AllSpots(pp.subfr, pp.magRuns, SUBFRAMES);
    SpotsAscend(pp.subfr, pp.magRuns, SUBFRAMES);
    SpotsPositive(pp.subfr, pp.magRuns, SUBFRAMES);
    SignedBits(s.mag, pp.signSyms);
    var vals := Signed(s.mag, pp.signSyms);
    var v := Reconstruct(pp);
    PeaksPlace(s.pos, vals, INTF_LEN, INTF_LEN);
    assert v[..INTF_LEN] == v;
    assert SpotsOf(Zip(s.pos, vals)).mag == s.mag;
    assert Positive(Zip(s.pos, vals)) == BitsOf(|s.mag|, pp.signSyms);
    BatchesBits(|s.mag|, pp.signSyms);
  }

  lemma SplitSpots(x: Spots, y: Spots, u: Spots, w: Spots, bound: nat)
    requires |x.pos| == |x.mag| && |u.pos| == |u.mag|
    requires x.pos + y.pos == u.pos + w.pos && x.mag + y.mag == u.mag + w.mag
    requires Within(x.pos, 0, bound) && Within(u.pos, 0, bound)
    requires forall i :: 0 <= i < |y.pos| ==> y.pos[i] >= bound
    requires forall i :: 0 <= i < |w.pos| ==> w.pos[i] >= bound
    ensures x == u && y == w
  {
    var n, m := |x.pos|, |u.pos|;
    var at := if n < m then n else m;
    if at < |x.pos + y.pos| {
      assert (x.pos + y.pos)[at] == (u.pos + w.pos)[at];
    }
    assert (x.pos + y.pos)[..n] == x.pos && (u.pos + w.pos)[..m] == u.pos;
    assert (x.pos + y.pos)[n..] == y.pos && (u.pos + w.pos)[m..] == w.pos;
    assert (x.mag + y.mag)[..n] == x.mag && (u.mag + w.mag)[..m] == u.mag;
    assert (x.mag + y.mag)[n..] == y.mag && (u.mag + w.mag)[m..] == w.mag;
  }

  /** Peaks that agree over four subframes agree over each. */
  lemma {:induction false} SpotsDown(subfr: seq<nat>, runs: seq<nat>, v: seq<int>, i: nat)
    requires |v| == INTF_LEN && |subfr| == SUBFRAMES && i <= SUBFRAMES
    requires RunsStay(subfr, runs, SUBFRAMES)
    requires AllSpots(subfr, runs, SUBFRAMES) == SpotsOf(Peaks(0, v))
    ensures |runs| >= Start(subfr, i)
    ensures AllSpots(subfr, runs, i) == SpotsOf(Peaks(0, v[..SUBFR_LEN * i]))
    ensures i < SUBFRAMES ==> |runs| >= Start(subfr, i + 1)
    ensures i < SUBFRAMES
            ==> Walk(SUBFR_LEN * i, RunsOf(subfr, runs, i)) == SpotsOf(Peaks(SUBFR_LEN * i, Subframe(v, i)))
    decreases SUBFRAMES - i
  {
    hide Walk, Peaks, AllSpots, Sum;
    StartMono(subfr, i, SUBFRAMES);
    if i == SUBFRAMES {
      assert v[..SUBFR_LEN * i] == v;
    } else {
      StartMono(subfr, i, i + 1);
      StartMono(subfr, i + 1, SUBFRAMES);
      SpotsDown(subfr, runs, v, i + 1);
      SpotsDownOnce(subfr, runs, v, i);
    }
  }

  lemma SpotsDownOnce(subfr: seq<nat>, runs: seq<nat>, v: seq<int>, i: nat)
    requires |v| == INTF_LEN && |subfr| == SUBFRAMES && i < SUBFRAMES && RunsStay(subfr, runs, SUBFRAMES)
    requires |runs| >= Start(subfr, i + 1) >= Start(subfr, i)
    requires AllSpots(subfr, runs, i + 1) == SpotsOf(Peaks(0, v[..SUBFR_LEN * (i + 1)]))
    ensures AllSpots(subfr, runs, i) == SpotsOf(Peaks(0, v[..SUBFR_LEN * i]))
    ensures Walk(SUBFR_LEN * i, RunsOf(subfr, runs, i)) == SpotsOf(Peaks(SUBFR_LEN * i, Subframe(v, i)))
  {
    hide Walk, Peaks, AllSpots, Sum;
    var base := SUBFR_LEN * i;
    var own := RunsOf(subfr, runs, i);
    var head, tail := v[..base], Subframe(v, i);
    assert v[..SUBFR_LEN * (i + 1)] == head + tail;
    PeaksAppend(0, head, tail);
    PeaksWithin(0, head);
    PeaksWithin(base, tail);
    SpotsAppend(Peaks(0, head), Peaks(base, tail));
    AllSpotsSnoc(subfr, runs, i);
    SpotsAscend(subfr, runs, i);
    WalkAscends(base, own);
    SplitSpots(AllSpots(subfr, runs, i), Walk(base, own),
               SpotsOf(Peaks(0, head)), SpotsOf(Peaks(base, tail)), base);
  }

  lemma AllSpotsSnoc(subfr: seq<nat>, runs: seq<nat>, i: nat)
    requires i < |subfr| && |runs| >= Start(subfr, i + 1) >= Start(subfr, i)
    ensures var s, t := AllSpots(subfr, runs, i), Walk(SUBFR_LEN * i, RunsOf(subfr, runs, i));
            AllSpots(subfr, runs, i + 1) == Spots(s.pos + t.pos, s.mag + t.mag)
  {
  }

  /** The samples of subframe i lead back to its run lengths. */
  lemma GapsBack(pp: PulseParams, i: nat)
    requires Placeable(pp) && RunsStay(pp.subfr, pp.magRuns, SUBFRAMES) && i < SUBFRAMES
    ensures |pp.magRuns| >= Start(pp.subfr, i + 1)
    ensures Gaps(Subframe(Reconstruct(pp), i)) == RunsOf(pp.subfr, pp.magRuns, i)
  {
    hide Walk, Peaks, AllSpots, Sum, Gaps, Reconstruct, GapsOf;
    var v := Reconstruct(pp);
    PeaksOfReconstruction(pp);
    SpotsDown(pp.subfr, pp.magRuns, v, i);
    GapsWalk(SUBFR_LEN * i, Subframe(v, i));
    WalkInverse(SUBFR_LEN * i, Gaps(Subframe(v, i)));
    WalkInverse(SUBFR_LEN * i, RunsOf(pp.subfr, pp.magRuns, i));
  }

  lemma {:induction false} GapsJoin(pp: PulseParams, i: nat)
    requires Placeable(pp) && RunsStay(pp.subfr, pp.magRuns, SUBFRAMES) && i <= SUBFRAMES
    ensures |pp.magRuns| >= Start(pp.subfr, i)
    ensures AllGaps(Reconstruct(pp), i) == pp.magRuns[..Start(pp.subfr, i)]
  {
    hide Gaps, Reconstruct, AllSpots, Positions, WfSigns, Sum;
    StartMono(pp.subfr, i, SUBFRAMES);
    if i > 0 {
      GapsJoin(pp, i - 1);
      GapsBack(pp, i - 1);
      StartStep(pp.subfr, i - 1);
    } else {
      assert Start(pp.subfr, 0) == 0 by { StartZero(pp.subfr); }
    }
  }

  lemma StartZero(subfr: seq<nat>)
    ensures Start(subfr, 0) == 0
  {
  }

  lemma NormsBack(pp: PulseParams)
    requires Placeable(pp) && RunsStay(pp.subfr, pp.magRuns, SUBFRAMES)
    ensures Norms(Reconstruct(pp)) == pp.subfr
  {
    hide Gaps, Reconstruct, AllSpots, Positions, WfSigns, Norm, Norms;
    var v := Reconstruct(pp);
    forall i | 0 <= i < SUBFRAMES ensures Norms(v)[i] == pp.subfr[i] {
      GapsBack(pp, i);
      NormAt(v, i);
    }
  }

  lemma WfStays(cc: Tables, pp: PulseParams)
    requires cc.Wf() && WfPulses(cc, pp)
    ensures RunsStay(pp.subfr, pp.magRuns, SUBFRAMES)
    ensures forall i :: 0 <= i < SUBFRAMES ==> pp.subfr[i] <= MAX_PULSES
  {
    hide Sum, Admissible, RunModel, SplitsFit;
    SplitsFitCounts(cc, pp.subfr);
    WfRunsSized(cc);
    forall k | 0 <= k < SUBFRAMES
      ensures Start(pp.subfr, k + 1) <= |pp.magRuns|
      ensures Sum(RunsOf(pp.subfr, pp.magRuns, k)) < SUBFR_LEN
    {
      StartMono(pp.subfr, k + 1, SUBFRAMES);
      RunsInSubframe(cc, pp.subfr[k], RunsOf(pp.subfr, pp.magRuns, k));
    }
  }

  /** Whatever a decoder reads as an excitation block stands for a vector of at most
      forty units a subframe, of exactly the counts read, and analysing that vector
      gives back the block: the coded blocks and the sparse vectors correspond one to
      one. */
  lemma BlockRoundTrip(cc: Tables, pp: PulseParams)
    requires cc.Wf() && WfPulses(cc, pp)
    ensures Placeable(pp) && Sparse(Reconstruct(pp))
    ensures Norms(Reconstruct(pp)) == pp.subfr
    ensures ParamsOf(Reconstruct(pp)) == pp
  {
    hide AllSpots, Reconstruct, AllGaps, Norms, Batches, Positive, Peaks, Tables.Wf, SplitsFit, WfRuns, WfSigns,
      Positions, RunsStay;
    WfStays(cc, pp);
    SpotsAscend(pp.subfr, pp.magRuns, SUBFRAMES);
    PeaksOfReconstruction(pp);
    NormsBack(pp);
    GapsJoin(pp, SUBFRAMES);
    assert pp.magRuns[..|pp.magRuns|] == pp.magRuns;
  }
}
