/**
  Ensemble scores. The energy form of the CRPS is proved equal to its threshold form, the
  integral of Brier scores of the empirical distribution, and bounded on both sides.
*/
module Scores {
  import opened Wrappers
  import opened RealArithmetic
  import opened RealSums

  datatype ScoreError = InvalidProbability | NoMembers | FairNeedsTwo

  function SquaredError(probability: real, outcome: real): real {
    (probability - outcome) * (probability - outcome)
  }

  function BrierScore(probability: real, observed: bool): Result<real, ScoreError> {
    if !(0.0 <= probability <= 1.0) then Err(InvalidProbability)
    else
      var outcome := if observed then 1.0 else 0.0;
      Ok(SquaredError(probability, outcome))
  }

  /** A probability is scored by the square of what it leaves to what happened; nothing else is scored. */
  lemma BrierIff(p: real, observed: bool)
    ensures BrierScore(p, observed).Ok? <==> 0.0 <= p && p <= 1.0
    ensures 0.0 <= p <= 1.0 ==>
      BrierScore(p, observed) == Ok(if observed then (1.0 - p) * (1.0 - p) else p * p)
  {
  }

  /** The score to expect of forecasting p when the event has probability q. */
  function ExpectedBrier(p: real, q: real): real
    requires 0.0 <= p <= 1.0
  {
    q * BrierScore(p, true).value + (1.0 - q) * BrierScore(p, false).value
  }

  /** The score is proper: forecasting the true probability is best, and strictly so. */
  lemma BrierIsProper(p: real, q: real)
    requires 0.0 <= p <= 1.0 && 0.0 <= q <= 1.0
    ensures ExpectedBrier(q, q) <= ExpectedBrier(p, q)
    ensures ExpectedBrier(q, q) == ExpectedBrier(p, q) <==> p == q
  {
    var gap := (p - q) * (p - q);
    Square(p - q, gap);
    assert ExpectedBrier(p, q) == ExpectedBrier(q, q) + gap by {
      assert ExpectedBrier(p, q) == q * ((p - 1.0) * (p - 1.0)) + (1.0 - q) * (p * p);
      assert ExpectedBrier(q, q) == q * ((q - 1.0) * (q - 1.0)) + (1.0 - q) * (q * q);
    }
  }

  function Distance(y: real): real -> real {
    (x: real) => Abs(x - y)
  }

  /** Total distance of the members from a value. */
  function Miss(members: seq<real>, y: real): real {
    Sum(members, Distance(y))
  }

  function MissOf(members: seq<real>): real -> real {
    (x: real) => Miss(members, x)
  }

  /** Total distance between members, over ordered pairs. */
  function Pairwise(members: seq<real>): real {
    Sum(members, MissOf(members))
  }

  /** Mean distance to the observation, less half the mean distance over a number of pairs. */
  function Energy(count: real, miss: real, pairwise: real, pairs: real): real
    requires count > 0.0 && pairs > 0.0
  {
    miss / count - pairwise / (2.0 * pairs)
  }

  /** How many ordered pairs the second term averages over: fair leaves a member out of its own row. */
  function PairCount(count: real, fair: bool): (r: real)
    requires count >= 1.0 && (fair ==> count >= 2.0)
    ensures r > 0.0
  {
    PairCountPositive(count, fair);
    if fair then count * (count - 1.0) else count * count
  }

  function CrpsEnsemble(members: seq<real>, observation: real, fair: bool): Result<real, ScoreError> {
    if members == [] then Err(NoMembers)
    else if fair && |members| < 2 then Err(FairNeedsTwo)
    else
      var count := |members| as real;
      Ok(Energy(count, Miss(members, observation), Pairwise(members), PairCount(count, fair)))
  }

  lemma CrpsFailsFor(members: seq<real>, y: real, fair: bool)
    ensures CrpsEnsemble(members, y, fair) == Err(NoMembers) <==> members == []
    ensures CrpsEnsemble(members, y, fair) == Err(FairNeedsTwo) <==> |members| == 1 && fair
    ensures CrpsEnsemble(members, y, fair).Ok? <==> |members| >= (if fair then 2 else 1)
  {
  }

  lemma PairCountPositive(count: real, fair: bool)
    requires count >= 1.0 && (fair ==> count >= 2.0)
    ensures (if fair then count * (count - 1.0) else count * count) > 0.0
  {
    if fair {
      Positive(count, count - 1.0, count * (count - 1.0));
    } else {
      Positive(count, count, count * count);
    }
  }

  // ---------------------------------------------------------------- bounds

  lemma MissGrows(x: real, rest: seq<real>, a: real)
    ensures MissOf([x] + rest)(a) == Distance(x)(a) + MissOf(rest)(a)
  {
    var members := [x] + rest;
    assert members[1..] == rest;
    assert MissOf(members)(a) == Miss(members, a) && MissOf(rest)(a) == Miss(rest, a);
    assert Distance(a)(x) == Abs(x - a) == Abs(a - x) == Distance(x)(a);
  }

  lemma MissesGrow(x: real, rest: seq<real>)
    ensures Combines(rest, 1.0, Distance(x), 1.0, MissOf(rest), MissOf([x] + rest))
  {
    forall a | a in rest
      ensures MissOf([x] + rest)(a) == 1.0 * Distance(x)(a) + 1.0 * MissOf(rest)(a)
    {
      MissGrows(x, rest, a);
    }
  }

  /** One more member adds its distances to the others twice. */
  lemma PairwisePush(x: real, rest: seq<real>)
    ensures Pairwise([x] + rest) == Pairwise(rest) + 2.0 * Miss(rest, x)
  {
    var members := [x] + rest;
    assert members[1..] == rest;
    MissGrows(x, rest, x);
    assert Distance(x)(x) == Abs(x - x);
    MissesGrow(x, rest);
    SumLinear(rest, 1.0, Distance(x), 1.0, MissOf(rest), MissOf(members));
  }

  lemma {:induction false} MissTriangle(x: real, rest: seq<real>, y: real)
    ensures Miss(rest, x) <= |rest| as real * Abs(x - y) + Miss(rest, y)
  {
    if rest != [] {
      MissTriangle(x, rest[1..], y);
      var a := rest[0];
      assert Distance(x)(a) == Abs(a - x) <= Abs(x - y) + Abs(a - y) == Abs(x - y) + Distance(y)(a);
    }
  }

  lemma MissNonnegative(members: seq<real>, y: real)
    ensures Miss(members, y) >= 0.0
  {
    forall x | x in members
      ensures Distance(y)(x) >= 0.0
    {
      assert Distance(y)(x) == Abs(x - y);
    }
    SumNonnegative(members, Distance(y));
  }

  /** Members are no further from each other than from the observation, twice over. */
  lemma {:induction false} PairwiseBound(members: seq<real>, y: real)
    requires members != []
    ensures 0.0 <= Pairwise(members) <= 2.0 * ((|members| as real - 1.0) * Miss(members, y))
  {
    var x, rest := members[0], members[1..];
    assert members == [x] + rest;
    PairwisePush(x, rest);
    MissNonnegative(rest, x);
    if rest == [] {
      assert Miss(rest, x) == 0.0;
      assert Pairwise(rest) == 0.0;
    } else {
      PairwiseBound(rest, y);
      MissTriangle(x, rest, y);
      assert Miss(members, y) == Abs(x - y) + Miss(rest, y);
    }
  }

  /**
    Neither estimator is negative, the fair one never exceeds the default one, and the default
    one never exceeds the mean absolute error.
  */
  lemma CrpsBounds(members: seq<real>, y: real)
    requires members != []
    ensures var crps := CrpsEnsemble(members, y, false).value;
      && 0.0 <= crps <= Miss(members, y) / |members| as real
      && (|members| >= 2 ==> 0.0 <= CrpsEnsemble(members, y, true).value <= crps)
  {
    PairwiseBound(members, y);
    MissNonnegative(members, y);
  }

  lemma PairwisePermuted(a: seq<real>, b: seq<real>)
    requires multiset(a) == multiset(b)
    ensures Pairwise(a) == Pairwise(b)
  {
    forall x | x in a
      ensures MissOf(a)(x) == MissOf(b)(x)
    {
      SumPermuted(a, b, Distance(x));
      assert MissOf(a)(x) == Miss(a, x) == Miss(b, x);
    }
    SumAgree(a, MissOf(a), MissOf(b));
    SumPermuted(a, b, MissOf(b));
  }

  /** The order in which members are listed does not matter. */
  lemma CrpsPermuted(a: seq<real>, b: seq<real>, y: real, fair: bool)
    requires multiset(a) == multiset(b)
    ensures CrpsEnsemble(a, y, fair) == CrpsEnsemble(b, y, fair)
  {
    assert |a| == |multiset(a)| == |multiset(b)| == |b|;
    SumPermuted(a, b, Distance(y));
    PairwisePermuted(a, b);
  }

  // ---------------------------------------------------------------- the threshold form

  ghost predicate Sorted(ts: seq<real>) {
    forall i, j | 0 <= i < j < |ts| :: ts[i] <= ts[j]
  }

  /** A grid as its cells: left end and width. */
  function Cells(ts: seq<real>): seq<(real, real)> {
    if |ts| < 2 then [] else [(ts[0], ts[1] - ts[0])] + Cells(ts[1..])
  }

  function Weighted(h: real -> real): ((real, real)) -> real {
    (c: (real, real)) => c.1 * h(c.0)
  }

  /** The integral, over the grid, of a function constant on each cell. */
  function Integral(ts: seq<real>, h: real -> real): real {
    Sum(Cells(ts), Weighted(h))
  }

  function Step(x: real, t: real): real {
    if x <= t then 1.0 else 0.0
  }

  function StepAt(t: real): real -> real {
    (x: real) => Step(x, t)
  }

  /** How many members are at most t. */
  function CountUpTo(members: seq<real>, t: real): real {
    Sum(members, StepAt(t))
  }

  lemma {:induction false} CellsOnGrid(ts: seq<real>, c: (real, real))
    requires c in Cells(ts)
    ensures c.0 in ts
  {
    if c != Cells(ts)[0] {
      CellsOnGrid(ts[1..], c);
    }
  }

  lemma IntegralAgree(ts: seq<real>, f: real -> real, g: real -> real)
    requires forall t | t in ts :: f(t) == g(t)
    ensures Integral(ts, f) == Integral(ts, g)
  {
    forall c | c in Cells(ts)
      ensures Weighted(f)(c) == Weighted(g)(c)
    {
      CellsOnGrid(ts, c);
      var t := c.0;
      assert t in ts;
      assert Weighted(f)(c) == c.1 * f(t) == c.1 * g(t);
    }
    SumAgree(Cells(ts), Weighted(f), Weighted(g));
  }

  lemma WeighCell(c: (real, real), a: real, f: real -> real, b: real, g: real -> real, h: real -> real)
    requires h(c.0) == a * f(c.0) + b * g(c.0)
    ensures Weighted(h)(c) == a * Weighted(f)(c) + b * Weighted(g)(c)
  {
  }

  lemma IntegralLinear(ts: seq<real>, a: real, f: real -> real, b: real, g: real -> real, h: real -> real)
    requires Combines(ts, a, f, b, g, h)
    ensures Integral(ts, h) == a * Integral(ts, f) + b * Integral(ts, g)
  {
    forall c | c in Cells(ts)
      ensures Weighted(h)(c) == a * Weighted(f)(c) + b * Weighted(g)(c)
    {
      CellsOnGrid(ts, c);
      var t := c.0;
      assert h(t) == a * f(t) + b * g(t);
      WeighCell(c, a, f, b, g, h);
    }
    SumLinear(Cells(ts), a, Weighted(f), b, Weighted(g), Weighted(h));
  }

  /** A family of curves, one per value, cut at a threshold. */
  function Cut(curves: real -> real -> real, t: real): real -> real {
    (x: real) => curves(x)(t)
  }

  function Stacked(xs: seq<real>, curves: real -> real -> real): real -> real {
    (t: real) => Sum(xs, Cut(curves, t))
  }

  function Areas(ts: seq<real>, curves: real -> real -> real): real -> real {
    (x: real) => Integral(ts, curves(x))
  }

  /** The integral of a sum of curves is the sum of their integrals. */
  lemma {:induction false} IntegralOfSum(ts: seq<real>, xs: seq<real>, curves: real -> real -> real)
    ensures Integral(ts, Stacked(xs, curves)) == Sum(xs, Areas(ts, curves))
  {
    if xs == [] {
      IntegralLinear(ts, 0.0, Stacked(xs, curves), 0.0, Stacked(xs, curves), Stacked(xs, curves));
    } else {
      IntegralOfSum(ts, xs[1..], curves);
      StackOneMore(ts, xs, curves);
    }
  }

  lemma StackOneMore(ts: seq<real>, xs: seq<real>, curves: real -> real -> real)
    requires xs != []
    ensures Integral(ts, Stacked(xs, curves)) == Integral(ts, curves(xs[0])) + Integral(ts, Stacked(xs[1..], curves))
  {
    IntegralLinear(ts, 1.0, curves(xs[0]), 1.0, Stacked(xs[1..], curves), Stacked(xs, curves));
  }

  function Below(x: real): real -> real {
    (t: real) => 1.0 - Step(x, t)
  }

  /** Climbing the grid from its start to x takes exactly the cells left of x. */
  lemma {:induction false} Climb(ts: seq<real>, x: real)
    requires Sorted(ts) && x in ts
    ensures Integral(ts, Below(x)) == x - ts[0]
  {
    if |ts| == 1 {
      assert Cells(ts) == [];
    } else if x in ts[1..] {
      Climb(ts[1..], x);
      assert Cells(ts)[1..] == Cells(ts[1..]);
      var k :| 0 <= k < |ts[1..]| && ts[1..][k] == x;
      FirstCell(ts, x);
    } else {
      NothingBelow(ts, x);
    }
  }

  lemma FirstCell(ts: seq<real>, x: real)
    requires |ts| >= 2 && ts[1] <= x && ts[0] <= ts[1]
    ensures Weighted(Below(x))((ts[0], ts[1] - ts[0])) == ts[1] - ts[0]
  {
    assert ts[0] < x ==> Below(x)(ts[0]) == 1.0;
    assert ts[0] == x ==> ts[1] == ts[0];
  }

  lemma NothingBelow(ts: seq<real>, x: real)
    requires Sorted(ts) && ts != [] && ts[0] == x
    ensures Integral(ts, Below(x)) == 0.0
  {
    forall c | c in Cells(ts)
      ensures Weighted(Below(x))(c) == 0.0
    {
      CellsOnGrid(ts, c);
      assert Step(x, c.0) == 1.0;
    }
    SumConstant(Cells(ts), 0.0, Weighted(Below(x)));
  }

  /** The squared difference of two steps. */
  function Gap(x: real, y: real): real -> real {
    (t: real) => Step(x, t) + Step(y, t) - 2.0 * (Step(x, t) * Step(y, t))
  }

  /** The distance of two grid points is the integral of their squared step difference. */
  lemma DistanceIsIntegral(ts: seq<real>, x: real, y: real)
    requires Sorted(ts) && x in ts && y in ts
    ensures Abs(x - y) == Integral(ts, Gap(x, y))
  {
    Climb(ts, x);
    Climb(ts, y);
    if x <= y {
      IntegralLinear(ts, 1.0, Below(y), -1.0, Below(x), Gap(x, y));
    } else {
      IntegralLinear(ts, 1.0, Below(x), -1.0, Below(y), Gap(x, y));
    }
  }

  function GapFrom(y: real): real -> real -> real {
    (x: real) => Gap(x, y)
  }

  /** What the distances of the members from y add up to at one threshold. */
  function MissCurve(members: seq<real>, y: real): real -> real {
    (t: real) => CountUpTo(members, t) + (|members| as real - 2.0 * CountUpTo(members, t)) * Step(y, t)
  }

  lemma {:induction false} GapsAtThreshold(members: seq<real>, y: real, t: real)
    ensures Sum(members, Cut(GapFrom(y), t)) == MissCurve(members, y)(t)
  {
    var n := |members| as real;
    if members != [] {
      GapsAtThreshold(members[1..], y, t);
      assert n == |members[1..]| as real + 1.0;
      assert CountUpTo(members, t) == Step(members[0], t) + CountUpTo(members[1..], t);
      assert Cut(GapFrom(y), t)(members[0]) == Gap(members[0], y)(t);
    }
  }

  lemma MissIsIntegral(ts: seq<real>, members: seq<real>, y: real)
    requires Sorted(ts) && y in ts && forall x | x in members :: x in ts
    ensures Miss(members, y) == Integral(ts, MissCurve(members, y))
  {
    forall x | x in members
      ensures Distance(y)(x) == Areas(ts, GapFrom(y))(x)
    {
      DistanceIsIntegral(ts, x, y);
      assert Distance(y)(x) == Abs(x - y);
    }
    SumAgree(members, Distance(y), Areas(ts, GapFrom(y)));
    IntegralOfSum(ts, members, GapFrom(y));
    forall t | t in ts
      ensures Stacked(members, GapFrom(y))(t) == MissCurve(members, y)(t)
    {
      GapsAtThreshold(members, y, t);
    }
    IntegralAgree(ts, Stacked(members, GapFrom(y)), MissCurve(members, y));
  }

  function MissCurveFrom(members: seq<real>): real -> real -> real {
    (x: real) => MissCurve(members, x)
  }

  function PairCurve(members: seq<real>): real -> real {
    (t: real) => 2.0 * (CountUpTo(members, t) * (|members| as real - CountUpTo(members, t)))
  }

  lemma AffineSum(xs: seq<real>, t: real, a: real, k: real, h: real -> real)
    requires forall x | x in xs :: h(x) == a + k * Step(x, t)
    ensures Sum(xs, h) == |xs| as real * a + k * CountUpTo(xs, t)
  {
    var same := (x: real) => a;
    SumConstant(xs, a, same);
    SumLinear(xs, 1.0, same, k, StepAt(t), h);
  }

  lemma MissCurveCut(members: seq<real>, x: real, t: real)
    ensures Cut(MissCurveFrom(members), t)(x)
      == CountUpTo(members, t) + (|members| as real - 2.0 * CountUpTo(members, t)) * Step(x, t)
  {
    assert MissCurveFrom(members)(x) == MissCurve(members, x);
  }

  /** For one threshold the curves of the members lie on one line in the step. */
  lemma CutIsLine(members: seq<real>, t: real) returns (f: real, k: real)
    ensures f == CountUpTo(members, t) && k == |members| as real - 2.0 * f
    ensures forall x | x in members :: Cut(MissCurveFrom(members), t)(x) == f + k * Step(x, t)
  {
    f := CountUpTo(members, t);
    k := |members| as real - 2.0 * f;
    forall x | x in members
      ensures Cut(MissCurveFrom(members), t)(x) == f + k * Step(x, t)
    {
      MissCurveCut(members, x, t);
    }
  }

  lemma PairProduct(n: real, f: real, k: real)
    requires k == n - 2.0 * f
    ensures n * f + k * f == 2.0 * (f * (n - f))
  {
  }

  lemma PairsAtThreshold(members: seq<real>, t: real)
    ensures Sum(members, Cut(MissCurveFrom(members), t)) == PairCurve(members)(t)
  {
    var f, k := CutIsLine(members, t);
    AffineSum(members, t, f, k, Cut(MissCurveFrom(members), t));
    PairProduct(|members| as real, f, k);
  }

  lemma PairwiseIsIntegral(ts: seq<real>, members: seq<real>)
    requires Sorted(ts) && forall x | x in members :: x in ts
    ensures Pairwise(members) == Integral(ts, PairCurve(members))
  {
    forall x | x in members
      ensures MissOf(members)(x) == Areas(ts, MissCurveFrom(members))(x)
    {
      MissIsIntegral(ts, members, x);
      assert MissOf(members)(x) == Miss(members, x);
      assert MissCurveFrom(members)(x) == MissCurve(members, x);
    }
    SumAgree(members, MissOf(members), Areas(ts, MissCurveFrom(members)));
    IntegralOfSum(ts, members, MissCurveFrom(members));
    forall t | t in ts
      ensures Stacked(members, MissCurveFrom(members))(t) == PairCurve(members)(t)
    {
      PairsAtThreshold(members, t);
    }
    IntegralAgree(ts, Stacked(members, MissCurveFrom(members)), PairCurve(members));
  }

  /** The Brier score, at one threshold, of the fraction of members at most that threshold. */
  function ForecastAt(members: seq<real>, y: real, t: real): Result<real, ScoreError>
    requires members != []
  {
    BrierScore(CountUpTo(members, t) / |members| as real, y <= t)
  }

  function BrierCurve(members: seq<real>, y: real): real -> real
    requires members != []
  {
    (t: real) =>
      match ForecastAt(members, y, t)
      case Ok(score) => score
      case Err(_) => 0.0
  }

  lemma {:induction false} CountInRange(members: seq<real>, t: real)
    ensures 0.0 <= CountUpTo(members, t) <= |members| as real
  {
    if members != [] {
      CountInRange(members[1..], t);
      assert |members| as real == |members[1..]| as real + 1.0;
    }
  }

  /** A fraction of the members is a probability, so every threshold has a score. */
  lemma ForecastIsScored(members: seq<real>, y: real, t: real)
    requires members != []
    ensures ForecastAt(members, y, t) == Ok(SquaredError(CountUpTo(members, t) / |members| as real, Step(y, t)))
  {
    CountInRange(members, t);
  }

  lemma BrierAtThreshold(members: seq<real>, y: real, t: real, n: real, a: real, b: real)
    requires members != [] && n == |members| as real && a == 1.0 / n && b == -(a * a / 2.0)
    ensures BrierCurve(members, y)(t) == a * MissCurve(members, y)(t) + b * PairCurve(members)(t)
  {
    ForecastIsScored(members, y, t);
  }

  lemma BrierCombines(ts: seq<real>, members: seq<real>, y: real, n: real, a: real, b: real)
    requires members != [] && n == |members| as real && a == 1.0 / n && b == -(a * a / 2.0)
    ensures Combines(ts, a, MissCurve(members, y), b, PairCurve(members), BrierCurve(members, y))
  {
    forall t | t in ts
      ensures BrierCurve(members, y)(t) == a * MissCurve(members, y)(t) + b * PairCurve(members)(t)
    {
      BrierAtThreshold(members, y, t, n, a, b);
    }
  }

  /** The weights under which the energy form and the Brier curve are the same combination. */
  lemma ChooseWeights(ts: seq<real>, members: seq<real>, y: real, miss: real, pairwise: real)
    returns (a: real, b: real)
    requires members != []
    ensures Combines(ts, a, MissCurve(members, y), b, PairCurve(members), BrierCurve(members, y))
    ensures Energy(|members| as real, miss, pairwise, PairCount(|members| as real, false)) == a * miss + b * pairwise
  {
    var n := |members| as real;
    a := 1.0 / n;
    b := -(a * a / 2.0);
    BrierCombines(ts, members, y, n, a, b);
  }

  lemma EnergyOfCurves(ts: seq<real>, members: seq<real>, y: real, n: real)
    requires members != [] && n == |members| as real
    ensures Energy(n, Integral(ts, MissCurve(members, y)), Integral(ts, PairCurve(members)), PairCount(n, false))
      == Integral(ts, BrierCurve(members, y))
  {
    var a, b :=
      ChooseWeights(ts, members, y, Integral(ts, MissCurve(members, y)), Integral(ts, PairCurve(members)));
    IntegralLinear(ts, a, MissCurve(members, y), b, PairCurve(members), BrierCurve(members, y));
  }

  /**
    The energy form is the threshold form: on any sorted grid that holds the members and the
    observation, the CRPS is the integral of the Brier scores of the ensemble's own fractions.
  */
  lemma CrpsIntegratesBrier(ts: seq<real>, members: seq<real>, y: real)
    requires members != [] && Sorted(ts) && y in ts && forall x | x in members :: x in ts
    ensures CrpsEnsemble(members, y, false) == Ok(Integral(ts, BrierCurve(members, y)))
    ensures forall t :: ForecastAt(members, y, t) == Ok(BrierCurve(members, y)(t))
  {
    MissIsIntegral(ts, members, y);
    PairwiseIsIntegral(ts, members);
    EnergyOfCurves(ts, members, y, |members| as real);
    forall t
      ensures ForecastAt(members, y, t) == Ok(BrierCurve(members, y)(t))
    {
      ForecastIsScored(members, y, t);
    }
  }

  // ---------------------------------------------------------------- fixed-point members

  /** The integers from lo to hi, as thresholds. */
  function Thresholds(lo: int, hi: int): (ts: seq<real>)
    requires lo <= hi
    ensures ts != [] && ts[0] == lo as real
    decreases hi - lo
  {
    [lo as real] + if lo == hi then [] else Thresholds(lo + 1, hi)
  }

  lemma {:induction false} ThresholdsAreIntegers(lo: int, hi: int)
    requires lo <= hi
    ensures |Thresholds(lo, hi)| == hi - lo + 1
    ensures forall i | 0 <= i <= hi - lo :: Thresholds(lo, hi)[i] == (lo + i) as real
    ensures Sorted(Thresholds(lo, hi))
    decreases hi - lo
  {
    if lo < hi {
      ThresholdsAreIntegers(lo + 1, hi);
    }
  }

  /** On unit cells an integral is a sum; the last threshold starts no cell. */
  lemma {:induction false} UnitIntegral(lo: int, hi: int, h: real -> real)
    requires lo <= hi
    ensures Integral(Thresholds(lo, hi), h) + h(hi as real) == Sum(Thresholds(lo, hi), h)
    decreases hi - lo
  {
    var ts := Thresholds(lo, hi);
    if lo == hi {
      assert Cells(ts) == [];
    } else {
      UnitIntegral(lo + 1, hi, h);
      assert ts[1..] == Thresholds(lo + 1, hi);
      assert Cells(ts) == [(ts[0], 1.0)] + Cells(ts[1..]);
      assert Weighted(h)((ts[0], 1.0)) == h(ts[0]);
    }
  }

  /** The square of: how many members are at most t, less all of them once y is. */
  function CountError(members: seq<real>, y: real): real -> real {
    (t: real) => SquaredError(CountUpTo(members, t), |members| as real * Step(y, t))
  }

  lemma ScaledBrier(members: seq<real>, y: real, t: real)
    requires members != []
    ensures CountError(members, y)(t) == |members| as real * |members| as real * BrierCurve(members, y)(t)
  {
    var n, f, o := |members| as real, CountUpTo(members, t), Step(y, t);
    ForecastIsScored(members, y, t);
    QuotientProduct(f, n);
    ScaledSquare(n, f / n, f, o);
  }

  lemma ScaledSquare(n: real, p: real, f: real, o: real)
    requires p * n == f
    ensures SquaredError(f, n * o) == n * n * SquaredError(p, o)
  {
    assert f - n * o == n * (p - o);
  }

  lemma {:induction false} CountAll(members: seq<real>, t: real)
    requires forall x | x in members :: x <= t
    ensures CountUpTo(members, t) == |members| as real
  {
    if members != [] {
      forall x | x in members[1..]
        ensures x <= t
      {
        assert x in members;
      }
      CountAll(members[1..], t);
      assert members[0] in members;
      assert |members| as real == |members[1..]| as real + 1.0;
    }
  }

  lemma NoErrorAtTop(members: seq<real>, y: real, top: real)
    requires y <= top && forall x | x in members :: x <= top
    ensures CountError(members, y)(top) == 0.0
  {
    CountAll(members, top);
  }

  lemma ScaledCombines(ts: seq<real>, members: seq<real>, y: real, scale: real)
    requires members != [] && scale == |members| as real * |members| as real
    ensures Combines(ts, scale, BrierCurve(members, y), 0.0, BrierCurve(members, y), CountError(members, y))
  {
    forall t | t in ts
      ensures CountError(members, y)(t) == scale * BrierCurve(members, y)(t) + 0.0 * BrierCurve(members, y)(t)
    {
      ScaledBrier(members, y, t);
    }
  }

  lemma ScaledIntegral(ts: seq<real>, members: seq<real>, y: real, scale: real, area: real)
    requires members != [] && area == Integral(ts, BrierCurve(members, y))
    requires Combines(ts, scale, BrierCurve(members, y), 0.0, BrierCurve(members, y), CountError(members, y))
    ensures Integral(ts, CountError(members, y)) == scale * area
  {
    IntegralLinear(ts, scale, BrierCurve(members, y), 0.0, BrierCurve(members, y), CountError(members, y));
  }

  lemma WithinTop(lo: int, hi: int, x: real)
    requires lo <= hi && x in Thresholds(lo, hi)
    ensures x <= hi as real
  {
    ThresholdsAreIntegers(lo, hi);
  }

  lemma CountErrorSum(members: seq<real>, y: real, lo: int, hi: int)
    requires lo <= hi && y in Thresholds(lo, hi)
    requires forall x | x in members :: x in Thresholds(lo, hi)
    ensures Integral(Thresholds(lo, hi), CountError(members, y)) == Sum(Thresholds(lo, hi), CountError(members, y))
  {
    UnitIntegral(lo, hi, CountError(members, y));
    WithinTop(lo, hi, y);
    forall x | x in members
      ensures x <= hi as real
    {
      WithinTop(lo, hi, x);
    }
    NoErrorAtTop(members, y, hi as real);
  }

  lemma ScaledSum(members: seq<real>, y: real, lo: int, hi: int, squares: real, area: real)
    requires members != [] && lo <= hi && y in Thresholds(lo, hi)
    requires forall x | x in members :: x in Thresholds(lo, hi)
    requires squares == |members| as real * |members| as real
    requires area == Integral(Thresholds(lo, hi), BrierCurve(members, y))
    ensures squares * area == Sum(Thresholds(lo, hi), CountError(members, y))
  {
    ScaledCombines(Thresholds(lo, hi), members, y, squares);
    ScaledIntegral(Thresholds(lo, hi), members, y, squares, area);
    CountErrorSum(members, y, lo, hi);
  }

  /** For integer members and observation within lo..hi: n squared times the CRPS is a plain sum. */
  lemma IntegerCrps(members: seq<real>, y: real, lo: int, hi: int, squares: real, crps: real)
    requires members != [] && lo <= hi && y in Thresholds(lo, hi)
    requires forall x | x in members :: x in Thresholds(lo, hi)
    requires squares == |members| as real * |members| as real && CrpsEnsemble(members, y, false) == Ok(crps)
    ensures squares * crps == Sum(Thresholds(lo, hi), CountError(members, y))
  {
    ThresholdsAreIntegers(lo, hi);
    CrpsIntegratesBrier(Thresholds(lo, hi), members, y);
    ScaledSum(members, y, lo, hi, squares, crps);
  }
}
