/** The stabilizer of line spectral frequencies: it moves sixteen frequencies apart until
    each lies its minimum spacing above the one before, and the last below pi. */
module Nlsf {
  const ORDER := 16
  const PI := 3.1415927410125
  const MAX_LOOP := 1000
  const EPS := 1.0 / 1048576.0

  type Frequencies = x: seq<real> | |x| == ORDER witness seq(16, _ => 0.0)
  type Margins = m: seq<real> | |m| == ORDER + 1 witness seq(17, _ => 0.0)

  function Sum(s: seq<real>): real {
    if s == [] then 0.0 else Sum(s[..|s| - 1]) + s[|s| - 1]
  }

  lemma {:induction false} SumUpdate(s: seq<real>, i: nat, v: real)
    requires i < |s|
    ensures Sum(s[i := v]) == Sum(s) - s[i] + v
  {
    var n := |s| - 1;
    if i == n {
      assert s[i := v][..n] == s[..n];
    } else {
      assert s[i := v][..n] == s[..n][i := v];
      SumUpdate(s[..n], i, v);
    }
  }

  lemma {:induction false} SumSign(s: seq<real>)
    requires forall i :: 0 <= i < |s| ==> s[i] >= 0.0
    ensures Sum(s) >= 0.0
  {
    if s != [] {
      SumSign(s[..|s| - 1]);
    }
  }

  // ---- margins ----

  /** What is left of the distance to the neighbour below (or to pi) after the spacing. */
  function MarginAt(x: Frequencies, gap: Margins, i: nat): real
    requires i <= ORDER
  {
    (if i < ORDER then x[i] else PI) - (if i == 0 then 0.0 else x[i - 1]) - gap[i]
  }

  function MarginsOf(x: Frequencies, gap: Margins): Margins {
    seq(ORDER + 1, i requires 0 <= i <= ORDER => MarginAt(x, gap, i))
  }

  ghost predicate NoneNegative(m: Margins) {
    forall i :: 0 <= i <= ORDER ==> m[i] >= 0.0
  }

  /** Every frequency keeps its distance, at both ends too. */
  ghost predicate Spaced(x: Frequencies, gap: Margins) {
    && x[0] >= gap[0]
    && (forall i :: 0 < i < ORDER ==> x[i] - x[i - 1] >= gap[i])
    && PI - x[ORDER - 1] >= gap[ORDER]
  }

  lemma SpacedIff(x: Frequencies, gap: Margins)
    ensures Spaced(x, gap) <==> NoneNegative(MarginsOf(x, gap))
  {
    var m := MarginsOf(x, gap);
    if NoneNegative(m) {
      assert m[0] >= 0.0 && m[ORDER] >= 0.0;
      forall i | 0 < i < ORDER ensures x[i] - x[i - 1] >= gap[i] {
        assert m[i] >= 0.0;
      }
    }
  }

  function Place(m: Margins, gap: Margins, i: nat): real
    requires i <= ORDER
  {
    if i == 0 then gap[0] + m[0] else Place(m, gap, i - 1) + m[i] + gap[i]
  }

  /** The frequencies that have the given margins. */
  function Placed(m: Margins, gap: Margins): Frequencies {
    seq(ORDER, i requires 0 <= i < ORDER => Place(m, gap, i))
  }

  lemma {:induction false} PlaceIsSum(m: Margins, gap: Margins, i: nat)
    requires i <= ORDER
    ensures Place(m, gap, i) == Sum(m[..i + 1]) + Sum(gap[..i + 1])
  {
    assert m[..i + 1][..i] == m[..i] && gap[..i + 1][..i] == gap[..i];
    if i > 0 {
      PlaceIsSum(m, gap, i - 1);
    }
  }

  lemma {:induction false} PlacedBack(x: Frequencies, gap: Margins, i: nat)
    requires i < ORDER
    ensures Place(MarginsOf(x, gap), gap, i) == x[i]
  {
    assert MarginsOf(x, gap)[i] == MarginAt(x, gap, i);
    if i > 0 {
      PlacedBack(x, gap, i - 1);
    }
  }

  /** All the room there is, whatever the frequencies. */
  function Room(gap: Margins): real {
    PI - Sum(gap)
  }

  /** The margins of any frequencies add up to the room. */
  lemma MarginsFillRoom(x: Frequencies, gap: Margins)
    ensures Sum(MarginsOf(x, gap)) == Room(gap)
  {
    var m := MarginsOf(x, gap);
    PlacedBack(x, gap, ORDER - 1);
    PlaceIsSum(m, gap, ORDER);
    assert m[..ORDER + 1] == m && gap[..ORDER + 1] == gap;
    assert Place(m, gap, ORDER) == PI;
  }

  /** Margins that fill the room are those of the frequencies placed by them: the last one,
      the distance to pi, is never looked at in placing and comes out right. */
  lemma MarginsOfPlaced(m: Margins, gap: Margins)
    requires Sum(m) == Room(gap)
    ensures MarginsOf(Placed(m, gap), gap) == m
  {
    PlaceIsSum(m, gap, ORDER);
    assert m[..ORDER + 1] == m && gap[..ORDER + 1] == gap;
    assert Place(m, gap, ORDER) == Place(m, gap, ORDER - 1) + m[ORDER] + gap[ORDER];
  }

  // ---- the rounds ----

  /** The first smallest of the first n margins. */
  function Least(m: Margins, n: nat): (k: nat)
    requires 0 < n <= ORDER + 1
    ensures k < n && forall i :: 0 <= i < n ==> m[k] <= m[i] && (i < k ==> m[k] < m[i])
  {
    if n == 1 then 0
    else
      var k := Least(m, n - 1);
      if m[n - 1] < m[k] then n - 1 else k
  }

  /** Raises one margin by d, at the cost of its neighbours. */
  function Lifted(m: Margins, k: nat, d: real): Margins
    requires k <= ORDER
  {
    if k == 0 then m[0 := m[0] + d][1 := m[1] - d]
    else if k == ORDER then m[ORDER := m[ORDER] + d][ORDER - 1 := m[ORDER - 1] - d]
    else m[k := m[k] + d][k - 1 := m[k - 1] - d * 0.5][k + 1 := m[k + 1] - d * 0.5]
  }

  lemma LiftKeepsSum(m: Margins, k: nat, d: real)
    requires k <= ORDER
    ensures Sum(Lifted(m, k, d)) == Sum(m)
  {
    var u := m[k := m[k] + d];
    SumUpdate(m, k, m[k] + d);
    if k == 0 {
      SumUpdate(u, 1, m[1] - d);
    } else if k == ORDER {
      SumUpdate(u, ORDER - 1, m[ORDER - 1] - d);
    } else {
      SumUpdate(u, k - 1, m[k - 1] - d * 0.5);
      SumUpdate(u[k - 1 := m[k - 1] - d * 0.5], k + 1, m[k + 1] - d * 0.5);
    }
    hide Sum;
  }

  /** One round: the smallest margin becomes round * EPS. */
  function Round(m: Margins, round: nat): Margins {
    var k := Least(m, ORDER + 1);
    Lifted(m, k, round as real * EPS - m[k])
  }

  lemma RoundLifts(m: Margins, round: nat)
    ensures Sum(Round(m, round)) == Sum(m)
    ensures Round(m, round)[Least(m, ORDER + 1)] == round as real * EPS
  {
    var k := Least(m, ORDER + 1);
    LiftKeepsSum(m, k, round as real * EPS - m[k]);
  }

  /** The least margin is set to a step for every round so far; what it gains its neighbours lose, two of
      them the same, and the others stay. */
  lemma RoundMoves(m: Margins, round: nat, i: nat)
    requires i <= ORDER
    ensures var k, n := Least(m, ORDER + 1), Round(m, round);
            && n[k] == round as real * EPS
            && (0 < k < ORDER ==> m[k - 1] - n[k - 1] == m[k + 1] - n[k + 1] == (n[k] - m[k]) / 2.0)
            && (k == 0 ==> m[1] - n[1] == n[0] - m[0])
            && (k == ORDER ==> m[ORDER - 1] - n[ORDER - 1] == n[ORDER] - m[ORDER])
            && (i != k && i != k - 1 && i != k + 1 ==> n[i] == m[i])
  {
    hide Least;
  }

  /** The margins after the rounds from the given one on, and how many have been run in all. */
  function Settled(m: Margins, round: nat): (r: (Margins, nat))
    requires round <= MAX_LOOP
    ensures round <= r.1 <= MAX_LOOP
    decreases MAX_LOOP - round
  {
    if m[Least(m, ORDER + 1)] >= 0.0 || round == MAX_LOOP then (m, round)
    else Settled(Round(m, round), round + 1)
  }

  function Stabilized(x: Frequencies, gap: Margins): Frequencies {
    Placed(Settled(MarginsOf(x, gap), 0).0, gap)
  }

  lemma {:induction false} SettledKeepsSum(m: Margins, round: nat)
    requires round <= MAX_LOOP
    ensures Sum(Settled(m, round).0) == Sum(m)
    decreases MAX_LOOP - round
  {
    hide Round, Sum, Least;
    if m[Least(m, ORDER + 1)] < 0.0 && round < MAX_LOOP {
      RoundLifts(m, round);
      SettledKeepsSum(Round(m, round), round + 1);
    }
  }

  /** The rounds end before the limit only with no margin below zero. */
  lemma {:induction false} SettledEnds(m: Margins, round: nat)
    requires round <= MAX_LOOP
    ensures var r := Settled(m, round); r.1 < MAX_LOOP ==> NoneNegative(r.0)
    decreases MAX_LOOP - round
  {
    if m[Least(m, ORDER + 1)] < 0.0 && round < MAX_LOOP {
      SettledEnds(Round(m, round), round + 1);
    }
  }

  // ---- what the stabilizer does ----

  /** The margins of the result are the settled ones, and the frequencies are spaced exactly when
      no settled margin is negative, which is so whenever fewer than all rounds were needed. */
  lemma StabilizedMargins(x: Frequencies, gap: Margins)
    ensures var r := Settled(MarginsOf(x, gap), 0);
            && MarginsOf(Stabilized(x, gap), gap) == r.0
            && (Spaced(Stabilized(x, gap), gap) <==> NoneNegative(r.0))
            && (r.1 < MAX_LOOP ==> Spaced(Stabilized(x, gap), gap))
  {
    var m := MarginsOf(x, gap);
    MarginsFillRoom(x, gap);
    SettledKeepsSum(m, 0);
    SettledEnds(m, 0);
    MarginsOfPlaced(Settled(m, 0).0, gap);
    SpacedIff(Stabilized(x, gap), gap);
  }

  /** Spaced frequencies are left as they are. */
  lemma SpacedUnchanged(x: Frequencies, gap: Margins)
    requires Spaced(x, gap)
    ensures Stabilized(x, gap) == x
  {
    var m := MarginsOf(x, gap);
    SpacedIff(x, gap);
    assert Settled(m, 0).0 == m;
    forall i | 0 <= i < ORDER ensures Placed(m, gap)[i] == x[i] {
      PlacedBack(x, gap, i);
    }
  }

  /** Where the spacings ask for more room than there is, all rounds are run in vain. */
  lemma NoRoom(x: Frequencies, gap: Margins)
    requires Room(gap) < 0.0
    ensures Settled(MarginsOf(x, gap), 0).1 == MAX_LOOP && !Spaced(Stabilized(x, gap), gap)
  {
    var y := Stabilized(x, gap);
    StabilizedMargins(x, gap);
    MarginsFillRoom(y, gap);
    if NoneNegative(MarginsOf(y, gap)) {
      SumSign(MarginsOf(y, gap));
    }
  }

  lemma {:induction false} SumAtLeast(s: seq<real>, k: nat)
    requires k < |s| && forall i :: 0 <= i < |s| ==> s[i] >= 0.0
    ensures Sum(s) >= s[k]
  {
    var v := s[..|s| - 1];
    if k == |s| - 1 {
      SumSign(v);
    } else {
      SumAtLeast(v, k);
    }
  }

  lemma {:induction false} RoundsRaise(m: Margins, round: nat)
    requires round <= MAX_LOOP
    ensures var r := Settled(m, round); r.1 > round && NoneNegative(r.0) ==> Sum(m) >= (r.1 - 1) as real * EPS
    decreases MAX_LOOP - round
  {
    hide Round, Sum, Least;
    var k := Least(m, ORDER + 1);
    if m[k] < 0.0 && round < MAX_LOOP {
      var n := Round(m, round);
      RoundLifts(m, round);
      RoundsRaise(n, round + 1);
      if Settled(n, round + 1).1 == round + 1 && NoneNegative(Settled(n, round + 1).0) {
        assert Settled(n, round + 1).0 == n;
        SumAtLeast(n, k);
      }
    }
  }

  /** Every further round wants EPS more room: frequencies that come out spaced after some rounds
      have room for one EPS less than there were rounds.  In particular those that fill all the
      room there is are set right by the first round or not at all. */
  lemma RoundsNeedRoom(x: Frequencies, gap: Margins)
    ensures var rounds := Settled(MarginsOf(x, gap), 0).1;
            rounds > 0 && Spaced(Stabilized(x, gap), gap) ==> Room(gap) >= (rounds - 1) as real * EPS
  {
    RoundsRaise(MarginsOf(x, gap), 0);
    MarginsFillRoom(x, gap);
    StabilizedMargins(x, gap);
  }

  /** With spacings that are not negative, spaced frequencies ascend from zero to pi. */
  lemma {:induction false} SpacedAscend(x: Frequencies, gap: Margins, i: nat, j: nat)
    requires Spaced(x, gap) && NoneNegative(gap) && i <= j < ORDER
    ensures 0.0 <= x[i] <= x[j] <= PI
    decreases ORDER - i, j - i
  {
    if i < j {
      SpacedAscend(x, gap, i, j - 1);
      if j < ORDER - 1 { SpacedAscend(x, gap, j, j); }
    } else {
      Above(x, gap, j);
      Below(x, gap, j);
    }
  }

  lemma Above(x: Frequencies, gap: Margins, i: nat)
    requires Spaced(x, gap) && NoneNegative(gap) && i < ORDER
    ensures 0.0 <= x[i]
  {
    if i > 0 {
      Above(x, gap, i - 1);
    }
  }

  lemma Below(x: Frequencies, gap: Margins, i: nat)
    requires Spaced(x, gap) && NoneNegative(gap) && i < ORDER
    ensures x[i] <= PI
    decreases ORDER - i
  {
    if i < ORDER - 1 {
      Below(x, gap, i + 1);
    }
  }

  // ---- frequencies that are too close only here and there ----

  const ROUNDS := ORDER + 1

  /** The most that a margin below zero can take from each of its neighbours in its round. */
  function Demand(m: Margins, k: int): real {
    if 0 <= k <= ORDER && m[k] < 0.0 then
      var d := ROUNDS as real * EPS - m[k];
      if k == 0 || k == ORDER then d else d * 0.5
    else 0.0
  }

  /** No two margins below zero are next to each other, and every other margin can pay for those at
      its sides. */
  ghost predicate Isolated(m: Margins) {
    forall i :: 0 <= i <= ORDER ==> Affords(m, i)
  }

  ghost predicate Affords(m: Margins, i: nat)
    requires i <= ORDER
  {
    if m[i] < 0.0 then Demand(m, i - 1) == Demand(m, i + 1) == 0.0 else m[i] >= Demand(m, i - 1) + Demand(m, i + 1)
  }

  function Negatives(m: Margins): set<int> {
    set i | 0 <= i <= ORDER && m[i] < 0.0
  }

  function Upto(n: nat): (r: set<int>)
    ensures |r| == n && forall i :: i in r <==> 0 <= i < n
  {
    if n == 0 then {} else Upto(n - 1) + {n - 1}
  }

  lemma SubsetSize(a: set<int>, b: set<int>)
    requires a <= b
    ensures |a| <= |b|
  {
    assert b == a + (b - a);
  }

  lemma NegativesFew(m: Margins)
    ensures |Negatives(m)| <= ROUNDS
  {
    SubsetSize(Negatives(m), Upto(ROUNDS));
  }

  /** The payments of one round are within the demands. */
  lemma RoundPays(m: Margins, round: nat, i: nat)
    requires Isolated(m) && m[Least(m, ORDER + 1)] < 0.0 && round < ROUNDS && i <= ORDER
    ensures var k, n := Least(m, ORDER + 1), Round(m, round);
            && (i == k ==> n[i] == round as real * EPS)
            && (i != k && (i == k - 1 || i == k + 1) ==> m[i] >= 0.0 && n[i] >= m[i] - Demand(m, k))
            && (i != k && i != k - 1 && i != k + 1 ==> n[i] == m[i])
  {
    var k := Least(m, ORDER + 1);
    assert Affords(m, k) && Affords(m, i);
  }

  lemma IsolatedRound(m: Margins, round: nat)
    requires Isolated(m) && m[Least(m, ORDER + 1)] < 0.0 && round < ROUNDS
    ensures Isolated(Round(m, round))
    ensures |Negatives(Round(m, round))| == |Negatives(m)| - 1
  {
    var k, n := Least(m, ORDER + 1), Round(m, round);
    forall i | 0 <= i <= ORDER ensures n[i] < 0.0 <==> m[i] < 0.0 && i != k {
      RoundPays(m, round, i);
      assert Affords(m, i);
    }
    forall i | 0 <= i <= ORDER ensures Affords(n, i) {
      assert Affords(m, i);
      RoundPays(m, round, i);
      DemandAfter(m, round, i - 1);
      DemandAfter(m, round, i + 1);
    }
    assert Negatives(n) == Negatives(m) - {k} && k in Negatives(m);
    hide Isolated, Negatives, Round, Least;
  }

  lemma DemandAfter(m: Margins, round: nat, i: int)
    requires Isolated(m) && m[Least(m, ORDER + 1)] < 0.0 && round < ROUNDS
    ensures Demand(Round(m, round), i) == if i == Least(m, ORDER + 1) then 0.0 else Demand(m, i)
  {
    if 0 <= i <= ORDER {
      RoundPays(m, round, i);
      assert Affords(m, i);
    }
  }

  lemma {:induction false} IsolatedSettles(m: Margins, round: nat)
    requires Isolated(m) && round + |Negatives(m)| <= ROUNDS
    ensures var r := Settled(m, round); NoneNegative(r.0) && r.1 <= round + |Negatives(m)|
    decreases MAX_LOOP - round
  {
    var k := Least(m, ORDER + 1);
    assert m[k] < 0.0 <==> k in Negatives(m);
    hide Round, Least, Isolated, Negatives;
    if m[k] < 0.0 {
      IsolatedRound(m, round);
      IsolatedSettles(Round(m, round), round + 1);
    }
  }

  /** Where the frequencies that are too close are isolated, each is set right by one round, and the
      result keeps every spacing. */
  lemma IsolatedSpaced(x: Frequencies, gap: Margins)
    requires Isolated(MarginsOf(x, gap))
    ensures Spaced(Stabilized(x, gap), gap)
    ensures Settled(MarginsOf(x, gap), 0).1 <= |Negatives(MarginsOf(x, gap))|
  {
    NegativesFew(MarginsOf(x, gap));
    IsolatedSettles(MarginsOf(x, gap), 0);
    StabilizedMargins(x, gap);
  }

  // ---- in place ----

  method ArgMin(marg: array<real>) returns (min: real, sel: nat)
    requires marg.Length == ORDER + 1
    ensures sel == Least(marg[..], ORDER + 1) && min == marg[sel]
  {
    min, sel := marg[0], 0;
    for i := 1 to ORDER + 1
      invariant sel == Least(marg[..], i) && min == marg[sel]
    {
      if marg[i] < min {
        min, sel := marg[i], i;
      }
    }
  }

  method Lift(marg: array<real>, sel: nat, d: real)
    requires marg.Length == ORDER + 1 && sel <= ORDER
    modifies marg
    ensures marg[..] == Lifted(old(marg[..]), sel, d)
  {
    if sel == 0 {
      marg[0] := marg[0] + d;
      marg[1] := marg[1] - d;
    } else if sel == ORDER {
      marg[ORDER] := marg[ORDER] + d;
      marg[ORDER - 1] := marg[ORDER - 1] - d;
    } else {
      marg[sel] := marg[sel] + d;
      var half := d * 0.5;
      marg[sel - 1] := marg[sel - 1] - half;
      marg[sel + 1] := marg[sel + 1] - half;
    }
  }

  method Settle(marg: array<real>)
    requires marg.Length == ORDER + 1
    modifies marg
    ensures marg[..] == Settled(old(marg[..]), 0).0
  {
    hide Lifted, Least;
    var min, sel := ArgMin(marg);
    var loopN := 0;
    while min < 0.0
      invariant 0 <= loopN < MAX_LOOP
      invariant sel == Least(marg[..], ORDER + 1) && min == marg[sel]
      invariant min < 0.0 ==> Settled(marg[..], loopN).0 == Settled(old(marg[..]), 0).0
      invariant min >= 0.0 ==> marg[..] == Settled(old(marg[..]), 0).0
      decreases min < 0.0, MAX_LOOP - loopN
    {
      ghost var m: Margins := marg[..];
      Lift(marg, sel, loopN as real * EPS - min);
      assert marg[..] == Round(m, loopN);
      min, sel := ArgMin(marg);
      if min < 0.0 {
        loopN := loopN + 1;
        if loopN == MAX_LOOP {
          break;
        }
      }
    }
  }

  /** The frequencies after the call are the stabilized ones: spaced unless all rounds were
      used up, and untouched if they were spaced before. */
  method StabilizeNlsf(nlsf: array<real>, minSpacing: Margins)
    requires nlsf.Length == ORDER
    modifies nlsf
    ensures nlsf[..] == Stabilized(old(nlsf[..]), minSpacing)
    ensures Settled(MarginsOf(old(nlsf[..]), minSpacing), 0).1 < MAX_LOOP ==> Spaced(nlsf[..], minSpacing)
    ensures Spaced(old(nlsf[..]), minSpacing) ==> nlsf[..] == old(nlsf[..])
  {
    ghost var x: Frequencies := nlsf[..];
    var marg := new real[ORDER + 1](_ => 0.0);
    marg[0] := nlsf[0] - minSpacing[0];
    for i := 1 to ORDER
      invariant nlsf[..] == x && forall j :: 0 <= j < i ==> marg[j] == MarginAt(x, minSpacing, j)
    {
      marg[i] := nlsf[i] - nlsf[i - 1] - minSpacing[i];
    }
    marg[ORDER] := PI - nlsf[ORDER - 1] - minSpacing[ORDER];
    assert marg[..] == MarginsOf(x, minSpacing);
    hide Settled, Placed, Spaced, MarginsOf;
    Settle(marg);
    Rebuild(nlsf, marg, minSpacing);
    StabilizedMargins(x, minSpacing);
    if Spaced(x, minSpacing) {
      SpacedUnchanged(x, minSpacing);
    }
  }

  method Rebuild(nlsf: array<real>, marg: array<real>, minSpacing: Margins)
    requires nlsf.Length == ORDER && marg.Length == ORDER + 1
    modifies nlsf
    ensures nlsf[..] == Placed(old(marg[..]), minSpacing)
  {
    ghost var m: Margins := marg[..];
    nlsf[0] := minSpacing[0] + marg[0];
    var run := nlsf[0];
    for i := 1 to ORDER
      invariant marg[..] == m && run == Place(m, minSpacing, i - 1)
      invariant forall j :: 0 <= j < i ==> nlsf[j] == Place(m, minSpacing, j)
    {
      assert marg[i] == m[i];
      run := run + marg[i] + minSpacing[i];
      nlsf[i] := run;
    }
  }
}
