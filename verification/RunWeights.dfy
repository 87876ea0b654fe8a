/** The weights behind the run-length tables: the odds that the next of the positions left holds
    one of the pulses left, sharpened in the logarithm, and what remains for longer runs. */
module RunWeights {
  import opened Arithmetic
  import opened FixedPoint
  import opened RangeSpec
  import opened CdfTables
  import opened CcTables

  const ONE_Q31 := 0x8000_0000
  const HIT_CAP := 2147376274
  const LONGEST := 160

  // ---- one position ----

  /** The odds that a pulse somewhere in the positions left is not in the first of them. */
  function Stays(left: nat): (r: nat)
    requires 1 <= left <= LONGEST
    ensures r < ONE_Q31
  {
    ONE_Q31 - ONE_Q31 / left
  }

  /** The product of r + 1 such odds, cut to 31 bits each time. */
  function StayAll(tmp: nat, r: nat): (p: nat)
    requires tmp < ONE_Q31
    ensures p < ONE_Q31
  {
    if r == 0 then tmp
    else
      Part(StayAll(tmp, r - 1), tmp);
      StayAll(tmp, r - 1) * tmp / ONE_Q31
  }

  /** A part of a whole. */
  lemma Part(a: nat, b: nat)
    requires b <= ONE_Q31
    ensures 0 <= a * b && 0 <= a * b / ONE_Q31 <= a
  {
    Ordered(a, b, ONE_Q31);
  }

  function Capped(p: int): (r: int)
    requires p >= 1
    ensures 1 <= r <= HIT_CAP
  {
    if p > HIT_CAP then HIT_CAP else p
  }

  /** How crowded the positions are, as a logarithm. */
  function Crowding(ms: nat, nump: nat): (r: I32)
    requires 1 <= ms <= LONGEST && 1 <= nump <= MAX_PULSES
    ensures -4106 <= r <= 4106
  {
    DensityFits(ms, nump);
    if nump > ms then Lin2Log(nump * 1024 / ms) - 10 * 128 else -(Lin2Log(ms * 1024 / nump) - 10 * 128)
  }

  lemma DensityFits(ms: nat, nump: nat)
    requires 1 <= ms <= LONGEST && 1 <= nump <= MAX_PULSES
    ensures 0 <= nump * 1024 / ms <= 1024 * LONGEST && 0 <= ms * 1024 / nump <= 1024 * LONGEST
  {
  }

  function Sharpness(ms: nat, nump: nat): (r: I32)
    requires 1 <= ms <= LONGEST && 1 <= nump <= MAX_PULSES
    ensures 26000 <= r <= 36000
  {
    36000 - 10000 * SigmQ15(Crowding(ms, nump) / 4 + 146) / 0x8000
  }

  /** More pulses in as many positions are more crowded. */
  lemma CrowdingRises(ms: nat, few: nat, many: nat)
    requires 1 <= ms <= LONGEST && 1 <= few <= many <= MAX_PULSES
    ensures Crowding(ms, few) <= Crowding(ms, many)
    ensures many <= ms ==> Crowding(ms, many) <= 0
    ensures few > ms ==> 0 <= Crowding(ms, few)
  {
    DensityFits(ms, few);
    DensityFits(ms, many);
    Densities(ms, few, many);
    assert Lin2Log(1024) == 1280 by { EvenDensity(); }
    hide Lin2Log;
    if few <= ms {
      LogMonotone(1024, ms * 1024 / few);
    } else {
      LogMonotone(1024, few * 1024 / ms);
      LogMonotone(few * 1024 / ms, many * 1024 / ms);
    }
    if many <= ms {
      LogMonotone(1024, ms * 1024 / many);
      LogMonotone(ms * 1024 / many, ms * 1024 / few);
    } else {
      LogMonotone(1024, many * 1024 / ms);
    }
  }

  lemma EvenDensity()
    ensures Lin2Log(1024) == 1280
  {
    PowValues();
    assert Pow2(11) == 2048;
    LargeFrac(1024, 10);
    LogLaw(1024);
    hide Lin2Log, Clz32, Frac7, Pow2;
  }

  lemma Densities(ms: nat, few: nat, many: nat)
    requires 1 <= ms <= LONGEST && 1 <= few <= many <= MAX_PULSES
    ensures ms * 1024 / many <= ms * 1024 / few && few * 1024 / ms <= many * 1024 / ms
    ensures few <= ms ==> 1024 <= ms * 1024 / few
    ensures many <= ms ==> 1024 <= ms * 1024 / many
    ensures few > ms ==> 1024 <= few * 1024 / ms
    ensures many > ms ==> 1024 <= many * 1024 / ms
  {
    QuotientFalls(ms * 1024, few, many);
    QuotientRises(few * 1024, many * 1024, ms);
    if few <= ms { QuotientRises(few * 1024, ms * 1024, few); WholeKilo(few); }
    if many <= ms { QuotientRises(many * 1024, ms * 1024, many); WholeKilo(many); }
    if few > ms { QuotientRises(ms * 1024, few * 1024, ms); WholeKilo(ms); }
    if many > ms { QuotientRises(ms * 1024, many * 1024, ms); WholeKilo(ms); }
  }

  lemma WholeKilo(n: nat)
    requires n >= 1
    ensures n * 1024 / n == 1024
  {
    QuotientIn(n * 1024, n, 1024, 1025);
  }

  lemma QuotientFalls(x: nat, a: nat, b: nat)
    requires 1 <= a <= b
    ensures x / b <= x / a
  {
    var q, r := x / b, x / a;
    assert b * q <= x < a * (r + 1);
    if r < q {
      Ordered(a, r + 1, q);
      Ordered(q, a, b);
    }
  }

  lemma QuotientRises(x: nat, y: nat, d: nat)
    requires d >= 1 && x <= y
    ensures x / d <= y / d
  {
    var q, r := x / d, y / d;
    assert d * q <= x && y < d * (r + 1);
    if r < q {
      Ordered(d, r + 1, q);
    }
  }

  /** The more crowded, the less sharp, but for what the steps of the sigmoid cost. */
  lemma SharpnessFalls(ms: nat, few: nat, many: nat)
    requires 1 <= ms <= LONGEST && 1 <= few <= many <= MAX_PULSES
    ensures Sharpness(ms, many) <= Sharpness(ms, few) + 39
  {
    hide SigmQ15, Crowding;
    CrowdingRises(ms, few, many);
    var a, b := Crowding(ms, few) / 4 + 146, Crowding(ms, many) / 4 + 146;
    SigmMonotone(a, b);
    SharpCut(SigmQ15(a), SigmQ15(b));
  }

  lemma SharpCut(s: int, t: int)
    requires s / 128 <= t / 128
    ensures 10000 * s / 0x8000 <= 10000 * t / 0x8000 + 39
  {
    assert s <= t + 127;
  }

  /** The odds of a pulse with so many pulses and positions left, sharpened. */
  function Hit(ms: nat, nump: nat, left: nat): (r: int)
    requires 1 <= ms <= LONGEST && 1 <= nump <= MAX_PULSES && 1 <= left <= ms
    ensures 1 <= r <= HIT_CAP
  {
    Capped(ONE_Q31 - Log2Lin(SharpLog(Sharpness(ms, nump), ONE_Q31 - Capped(ONE_Q31 - StayAll(Stays(left), nump - 1)))))
  }

  /** The logarithm of odds against, scaled about that of one. */
  function SharpLog(scale: int, against: I32): I32
    requires 0 <= scale <= 36000 && 0 <= against
  {
    Sharper(scale, Lin2Log(against))
  }

  function Sharper(scale: int, l: int): I32
    requires 0 <= scale <= 36000 && -128 <= l <= 4106
  {
    SharperFits(scale, l);
    scale * (l - 31 * 128) / 0x8000 + 31 * 128
  }

  lemma SharperFits(scale: int, l: int)
    requires 0 <= scale <= 36000 && -128 <= l <= 4106
    ensures -0x1000_0000 <= scale * (l - 31 * 128) <= 0x1000_0000
  {
    Ordered(scale, l + 128, 4234);
  }

  /** The fewer positions are left, the likelier the next one holds a pulse. */
  lemma HitRises(ms: nat, nump: nat, few: nat, many: nat)
    requires 1 <= ms <= LONGEST && 1 <= nump <= MAX_PULSES && 1 <= few <= many <= ms
    ensures Hit(ms, nump, few) >= Hit(ms, nump, many)
  {
    hide *;
    HitIs(ms, nump, few);
    HitIs(ms, nump, many);
    StaysRise(few, many);
    StayAllRises(Stays(few), Stays(many), nump - 1);
    var a, b := StayAll(Stays(few), nump - 1), StayAll(Stays(many), nump - 1);
    CappedRises(ONE_Q31 - b, ONE_Q31 - a);
    SharpRises(Sharpness(ms, nump), ONE_Q31 - Capped(ONE_Q31 - a), ONE_Q31 - Capped(ONE_Q31 - b));
    AntilogMonotone(SharpLog(Sharpness(ms, nump), ONE_Q31 - Capped(ONE_Q31 - a)),
                    SharpLog(Sharpness(ms, nump), ONE_Q31 - Capped(ONE_Q31 - b)));
    CappedRises(ONE_Q31 - Log2Lin(SharpLog(Sharpness(ms, nump), ONE_Q31 - Capped(ONE_Q31 - b))),
                ONE_Q31 - Log2Lin(SharpLog(Sharpness(ms, nump), ONE_Q31 - Capped(ONE_Q31 - a))));
  }

  lemma HitIs(ms: nat, nump: nat, left: nat)
    requires 1 <= ms <= LONGEST && 1 <= nump <= MAX_PULSES && 1 <= left <= ms
    ensures LONGEST == 160 && ONE_Q31 == 0x8000_0000 && HIT_CAP == 2147376274 && ms <= LONGEST
    ensures StayAll(Stays(left), nump - 1) < ONE_Q31 && Stays(left) < ONE_Q31
    ensures Hit(ms, nump, left)
         == Capped(ONE_Q31 - Log2Lin(SharpLog(Sharpness(ms, nump),
                                              ONE_Q31 - Capped(ONE_Q31 - StayAll(Stays(left), nump - 1)))))
  {
    hide Log2Lin, SharpLog, Sharpness, StayAll, Stays;
  }

  lemma StaysRise(few: nat, many: nat)
    requires 1 <= few <= many <= LONGEST
    ensures Stays(few) <= Stays(many)
  {
    var q := ONE_Q31 / many;
    assert many * q <= ONE_Q31 < few * (ONE_Q31 / few + 1);
    if ONE_Q31 / few < q {
      Ordered(few, ONE_Q31 / few + 1, q);
      Ordered(q, few, many);
    }
  }

  lemma {:induction false} StayAllRises(a: nat, b: nat, r: nat)
    requires a <= b < ONE_Q31
    ensures StayAll(a, r) <= StayAll(b, r)
  {
    if r > 0 {
      StayAllRises(a, b, r - 1);
      Ordered(a, StayAll(a, r - 1), StayAll(b, r - 1));
      Ordered(StayAll(b, r - 1), a, b);
    }
  }

  lemma CappedRises(a: int, b: int)
    requires 1 <= a <= b
    ensures Capped(a) <= Capped(b)
  {
  }

  lemma SharpRises(scale: int, a: I32, b: I32)
    requires 0 <= scale <= 36000 && 0 < a <= b
    ensures SharpLog(scale, a) <= SharpLog(scale, b)
  {
    hide *;
    LogMonotone(a, b);
    SharpIs(scale, a);
    SharpIs(scale, b);
    SharperRises(scale, Lin2Log(a), Lin2Log(b));
  }

  lemma SharpIs(scale: int, a: I32)
    requires 0 <= scale <= 36000 && 0 <= a
    ensures -128 <= Lin2Log(a) <= 4106 && SharpLog(scale, a) == Sharper(scale, Lin2Log(a))
  {
  }

  lemma SharperRises(scale: int, l: int, m: int)
    requires 0 <= scale <= 36000 && -128 <= l <= m <= 4106
    ensures Sharper(scale, l) <= Sharper(scale, m)
  {
    Ordered(scale, l + 128, m + 128);
    SharperFits(scale, l);
    SharperFits(scale, m);
    Distributed(scale, l);
    Distributed(scale, m);
  }

  lemma Distributed(scale: int, l: int)
    ensures scale * (l - 31 * 128) == scale * (l + 128) - scale * 4096
  {
  }

  // ---- runs ----

  /** The part that ends at a position, of what gets there. */
  function WeightOf(plonger: nat, p1: nat): (r: nat)
    requires p1 <= HIT_CAP
    ensures r <= plonger
  {
    Part(plonger, p1);
    plonger * p1 / ONE_Q31
  }

  /** The part that goes on. */
  function RestOf(plonger: nat, p1: nat): (r: nat)
    requires p1 <= HIT_CAP
    ensures r <= plonger
  {
    Part(plonger, ONE_Q31 - p1);
    plonger * (ONE_Q31 - p1) / ONE_Q31
  }

  /** The odds that the first pulse comes after k positions. */
  function Longer(ms: nat, nump: nat, k: nat): (r: nat)
    requires 1 <= ms <= LONGEST && 1 <= nump <= MAX_PULSES && k <= ms
    ensures r <= ONE_Q31
  {
    if k == 0 then ONE_Q31
    else RestOf(Longer(ms, nump, k - 1), Hit(ms, nump, ms - k + 1))
  }

  /** The odds that it comes right then. */
  function RunWeight(ms: nat, nump: nat, k: nat): (r: nat)
    requires 1 <= ms <= LONGEST && 1 <= nump <= MAX_PULSES && k < ms
    ensures r <= HIT_CAP
  {
    Part(Hit(ms, nump, ms - k), Longer(ms, nump, k));
    WeightOf(Longer(ms, nump, k), Hit(ms, nump, ms - k))
  }

  function RunPdf(ms: nat, nump: nat): (p: seq<nat>)
    requires 1 <= ms <= LONGEST && 1 <= nump <= MAX_PULSES
    ensures |p| == ms
  {
    seq(ms, k requires 0 <= k < ms => RunWeight(ms, nump, k))
  }

  /** What has been given to the first k positions and what is left for longer runs add up to one,
      but for at most one part in 2^31 lost at each position. */
  lemma {:induction false} RunConserves(ms: nat, nump: nat, k: nat)
    requires 1 <= ms <= LONGEST && 1 <= nump <= MAX_PULSES && k <= ms
    ensures ONE_Q31 - k <= Sum(RunPdf(ms, nump)[..k]) + Longer(ms, nump, k) <= ONE_Q31
  {
    hide Hit, WeightOf, RestOf;
    if k > 0 {
      RunConserves(ms, nump, k - 1);
      SumPrefix(RunPdf(ms, nump), k - 1);
      Divided(Longer(ms, nump, k - 1), Hit(ms, nump, ms - k + 1));
      hide Sum;
    }
  }

  /** Dividing a whole into two parts loses at most one. */
  lemma Divided(l: nat, h: nat)
    requires h <= HIT_CAP
    ensures l - 1 <= WeightOf(l, h) + RestOf(l, h) <= l
  {
    assert l * h + l * (ONE_Q31 - h) == l * ONE_Q31;
    Part(l, h);
    Part(l, ONE_Q31 - h);
  }

  lemma RunPdfWeighs(ms: nat, nump: nat)
    requires 1 <= ms <= LONGEST && 1 <= nump <= MAX_PULSES
    ensures Sum(RunPdf(ms, nump)) > 0
  {
    hide Sum, Hit;
    First(Hit(ms, nump, ms));
    SumPositive(RunPdf(ms, nump), 0);
  }

  lemma First(h: nat)
    ensures ONE_Q31 * h / ONE_Q31 == h
  {
  }

  // ---- tables ----

  function RunTable(ms: nat, nump: nat): (c: Cdf)
    requires 1 <= ms <= LONGEST && 1 <= nump <= MAX_PULSES
    ensures |c| == ms + 1
  {
    RunPdfWeighs(ms, nump);
    PdfTable(RunPdf(ms, nump))
  }

  function RunlenOf(ms: nat): (r: RunlenCmfs)
    requires 1 <= ms <= LONGEST
    ensures RunlenFits(r, ms)
  {
    RunlenCmfs(ms, seq(MAX_PULSES, c requires 0 <= c < MAX_PULSES => RunTable(ms, c + 1)))
  }

  /** The tables for one to forty pulses in so many samples. */
  method CreateRunlenTable(maxSamples: nat) returns (r: RunlenCmfs)
    requires 1 <= maxSamples <= LONGEST
    ensures r == RunlenOf(maxSamples)
  {
    hide RunTable;
    var cmfs := [];
    for nump := 1 to MAX_PULSES + 1
      invariant |cmfs| == nump - 1 && forall c :: 0 <= c < |cmfs| ==> cmfs[c] == RunTable(maxSamples, c + 1)
    {
      var cmf := CreateRunlenCmf(maxSamples, nump);
      cmfs := cmfs + [cmf];
    }
    r := RunlenCmfs(maxSamples, cmfs);
  }

  method CreateRunlenCmf(ms: nat, nump: nat) returns (cmf: seq<nat>)
    requires 1 <= ms <= LONGEST && 1 <= nump <= MAX_PULSES
    ensures cmf == RunTable(ms, nump)
  {
    hide Hit, Sum, PdfCdf;
    ghost var w := RunPdf(ms, nump);
    var plongerQ31: nat := ONE_Q31;
    var p := new nat[ms](_ => 0);
    for nums := 1 to ms + 1
      invariant plongerQ31 == Longer(ms, nump, nums - 1)
      invariant forall k :: 0 <= k < nums - 1 ==> p[k] == w[k]
    {
      var p1Q31 := HitOdds(ms, nump, nums);
      p[nums - 1] := WeightOf(plongerQ31, p1Q31);
      plongerQ31 := RestOf(plongerQ31, p1Q31);
    }
    assert p[..] == w;
    RunPdfWeighs(ms, nump);
    var table := PdfToCmf(p[..]);
    cmf := table[..];
  }

  /** The odds of a pulse at position nums. */
  method HitOdds(ms: nat, nump: nat, nums: nat) returns (p1Q31: int)
    requires 1 <= ms <= LONGEST && 1 <= nump <= MAX_PULSES && 1 <= nums <= ms
    ensures p1Q31 == Hit(ms, nump, ms - nums + 1)
  {
    hide Log2Lin, SharpLog, Sharpness, StayAll, Stays;
    p1Q31 := StayProduct(Stays(ms - nums + 1), nump);
    p1Q31 := ONE_Q31 - p1Q31;
    if p1Q31 > HIT_CAP {
      p1Q31 := HIT_CAP;
    }
    p1Q31 := ONE_Q31 - Log2Lin(SharpLog(Sharpness(ms, nump), ONE_Q31 - p1Q31));
    if p1Q31 > HIT_CAP {
      p1Q31 := HIT_CAP;
    }
  }

  /** The products taken one by one. */
  method StayProduct(tmp: nat, nump: nat) returns (p1Q31: int)
    requires tmp < ONE_Q31 && nump >= 1
    ensures p1Q31 == StayAll(tmp, nump - 1)
  {
    p1Q31 := tmp;
    for r := 0 to nump - 1
      invariant p1Q31 == StayAll(tmp, r)
    {
      p1Q31 := p1Q31 * tmp / ONE_Q31;
    }
  }
}
