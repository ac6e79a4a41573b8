/**
  The fair estimator of the CRPS: its value against the default one, its threshold form, and why
  it may compare ensembles of different sizes: leaving out each member in turn changes nothing
  on average.
*/
module FairScores {
  import opened RealArithmetic
  import opened RealSums
  import opened Scores
  import opened Wrappers

  lemma Cancels(z: real, w: real, p: real)
    requires w != 0.0 && p == z * w && p == 0.0
    ensures z == 0.0
  {
    assert z == p / w;
  }

  /** The two spread terms as quotients of the same pairwise sum. */
  lemma SpreadTerms(members: seq<real>, y: real, n: real) returns (plain: real, fair: real)
    requires |members| >= 2 && n == |members| as real
    ensures CrpsEnsemble(members, y, false) == Ok(Miss(members, y) / n - plain)
    ensures CrpsEnsemble(members, y, true) == Ok(Miss(members, y) / n - fair)
    ensures plain * (2.0 * (n * n)) == Pairwise(members)
    ensures fair * (2.0 * (n * (n - 1.0))) == Pairwise(members)
  {
    Positive(n, n, n * n);
    Positive(n, n - 1.0, n * (n - 1.0));
    plain := Pairwise(members) / (2.0 * (n * n));
    fair := Pairwise(members) / (2.0 * (n * (n - 1.0)));
    QuotientProduct(Pairwise(members), 2.0 * (n * n));
    QuotientProduct(Pairwise(members), 2.0 * (n * (n - 1.0)));
    assert PairCount(n, false) == n * n && PairCount(n, true) == n * (n - 1.0);
  }

  lemma SameSpread(n: real, plain: real, fair: real, pairwise: real)
    requires n > 0.0
    requires plain * (2.0 * (n * n)) == pairwise && fair * (2.0 * (n * (n - 1.0))) == pairwise
    ensures (n - 1.0) * fair == n * plain
  {
    var z := (n - 1.0) * fair - n * plain;
    assert z * (2.0 * n) == fair * (2.0 * (n * (n - 1.0))) - plain * (2.0 * (n * n));
    Cancels(z, 2.0 * n, z * (2.0 * n));
  }

  /**
    Both estimators take a spread off the mean absolute error, and the fair one takes off n times
    what n - 1 fair ones would: n - 1 fair corrections are n default ones.
  */
  lemma FairCorrection(members: seq<real>, y: real, n: real, error: real)
    requires |members| >= 2 && n == |members| as real && error * n == Miss(members, y)
    ensures (n - 1.0) * (error - CrpsEnsemble(members, y, true).value)
            == n * (error - CrpsEnsemble(members, y, false).value)
  {
    var plain, fair := SpreadTerms(members, y, n);
    SameSpread(n, plain, fair, Pairwise(members));
    assert error == Miss(members, y) / n;
  }

  // ---------------------------------------------------------------- the threshold form

  /** The Brier score at a threshold, less a share of the c (n - c) for the c members at most there. */
  function FairCurve(members: seq<real>, y: real, share: real): real -> real
    requires members != []
  {
    (t: real) =>
      BrierCurve(members, y)(t) - share * (CountUpTo(members, t) * (|members| as real - CountUpTo(members, t)))
  }

  lemma FairAtThreshold(members: seq<real>, y: real, t: real, share: real, w: real)
    requires members != [] && share == -2.0 * w
    ensures FairCurve(members, y, share)(t) == 1.0 * BrierCurve(members, y)(t) + w * PairCurve(members)(t)
  {
  }

  lemma FairCombines(ts: seq<real>, members: seq<real>, y: real, share: real, w: real)
    requires members != [] && share == -2.0 * w
    ensures Combines(ts, 1.0, BrierCurve(members, y), w, PairCurve(members), FairCurve(members, y, share))
  {
    forall t | t in ts
      ensures FairCurve(members, y, share)(t) == 1.0 * BrierCurve(members, y)(t) + w * PairCurve(members)(t)
    {
      FairAtThreshold(members, y, t, share, w);
    }
  }

  lemma FairArea(ts: seq<real>, members: seq<real>, y: real, share: real, w: real)
    requires members != [] && share == -2.0 * w
    ensures Integral(ts, FairCurve(members, y, share))
            == 1.0 * Integral(ts, BrierCurve(members, y)) + w * Integral(ts, PairCurve(members))
  {
    FairCombines(ts, members, y, share, w);
    IntegralLinear(ts, 1.0, BrierCurve(members, y), w, PairCurve(members), FairCurve(members, y, share));
  }

  lemma SpreadGap(n: real, share: real, w: real, plain: real, fair: real, pairwise: real)
    requires n > 1.0 && share == -2.0 * w && share * (n * n * (n - 1.0)) == 1.0
    requires plain * (2.0 * (n * n)) == pairwise && (n - 1.0) * fair == n * plain
    ensures -fair == -plain + w * pairwise
  {
    var gap := w * pairwise;
    assert gap * (n - 1.0) == -plain by {
      assert gap == -share * plain * (n * n);
      assert gap * (n - 1.0) == -(plain * (share * (n * n * (n - 1.0))));
    }
    var z := plain - fair - gap;
    assert z * (n - 1.0) == 0.0;
    Cancels(z, n - 1.0, z * (n - 1.0));
  }

  lemma FairShift(members: seq<real>, y: real, n: real, share: real, w: real, pairwise: real)
    returns (plain: real, fair: real)
    requires |members| >= 2 && n == |members| as real
    requires share == -2.0 * w && share * (n * n * (n - 1.0)) == 1.0
    requires pairwise == Pairwise(members)
    ensures CrpsEnsemble(members, y, false) == Ok(plain) && CrpsEnsemble(members, y, true) == Ok(fair)
    ensures fair == plain + w * pairwise
  {
    var spread, fairSpread := SpreadTerms(members, y, n);
    SameSpread(n, spread, fairSpread, pairwise);
    SpreadGap(n, share, w, spread, fairSpread, pairwise);
    plain, fair := Miss(members, y) / n - spread, Miss(members, y) / n - fairSpread;
  }

  lemma ShiftIsArea(
      ts: seq<real>, members: seq<real>, y: real, share: real, w: real,
      plain: real, fair: real, pairs: real)
    requires members != [] && share == -2.0 * w
    requires plain == Integral(ts, BrierCurve(members, y)) && pairs == Integral(ts, PairCurve(members))
    requires fair == plain + w * pairs
    ensures fair == Integral(ts, FairCurve(members, y, share))
  {
    FairArea(ts, members, y, share, w);
  }

  /**
    The threshold form of the fair estimator: the integral of the Brier scores, less at each
    threshold c (n - c) / (n n (n - 1)) for the c members at most there.
  */
  lemma FairCrpsIntegrates(ts: seq<real>, members: seq<real>, y: real, n: real, share: real)
    requires |members| >= 2 && Sorted(ts) && y in ts && forall x | x in members :: x in ts
    requires n == |members| as real && share * (n * n * (n - 1.0)) == 1.0
    ensures CrpsEnsemble(members, y, true) == Ok(Integral(ts, FairCurve(members, y, share)))
  {
    var w := -share / 2.0;
    var plain, fair := FairShift(members, y, n, share, w, Pairwise(members));
    CrpsIntegratesBrier(ts, members, y);
    PairwiseIsIntegral(ts, members);
    ShiftIsArea(ts, members, y, share, w, plain, fair, Pairwise(members));
  }

  // ---------------------------------------------------------------- small ensembles

  lemma MissPush(x: real, rest: seq<real>, y: real)
    ensures Miss([], y) == 0.0 && Miss([x] + rest, y) == Abs(x - y) + Miss(rest, y)
  {
    assert ([x] + rest)[1..] == rest;
    assert Distance(y)(x) == Abs(x - y);
  }

  lemma PairOfTwo(a: real, b: real, y: real)
    requires a <= b
    ensures Miss([a, b], y) == Abs(a - y) + Abs(b - y) && Pairwise([a, b]) == 2.0 * (b - a)
  {
    assert [a, b] == [a] + [b] && [b] == [b] + [];
    MissPush(a, [b], y);
    MissPush(b, [], y);
    MissPush(b, [], a);
    PairwisePush(a, [b]);
    PairwisePush(b, []);
    assert Pairwise([]) == 0.0;
  }

  /** The fair score of two members is how far the observation is outside the interval between them. */
  lemma FairOfTwo(a: real, b: real, y: real)
    requires a <= b
    ensures CrpsEnsemble([a, b], y, true) == Ok(if y < a then a - y else if b < y then y - b else 0.0)
  {
    PairOfTwo(a, b, y);
    var plain, fair := SpreadTerms([a, b], y, 2.0);
  }

  lemma AloneInPairs(x: real, y: real)
    ensures Miss([x], y) == Abs(x - y) && Pairwise([x]) == 0.0
  {
    assert [x] == [x] + [];
    MissPush(x, [], y);
    MissPush(x, [], x);
    PairwisePush(x, []);
    assert Pairwise([]) == 0.0;
  }

  /** The score of one member is its distance from the observation; alone it has no fair score. */
  lemma ScoreOfOne(x: real, y: real)
    ensures CrpsEnsemble([x], y, false) == Ok(if x < y then y - x else x - y)
    ensures CrpsEnsemble([x], y, true) == Err(FairNeedsTwo)
  {
    AloneInPairs(x, y);
    assert PairCount(1.0, false) == 1.0;
  }

  // ---------------------------------------------------------------- leaving out one member

  function Without(members: seq<real>, i: nat): (rest: seq<real>)
    requires i < |members|
    ensures |rest| == |members| - 1
  {
    members[..i] + members[i + 1..]
  }

  lemma WithoutMiss(members: seq<real>, i: nat, y: real)
    requires i < |members|
    ensures Miss(members, y) == Distance(y)(members[i]) + Miss(Without(members, i), y)
  {
    assert members == members[..i] + ([members[i]] + members[i + 1..]);
    PullOutOfSum(members[..i], members[i], members[i + 1..], Distance(y));
  }

  lemma WithoutPairwise(members: seq<real>, i: nat)
    requires i < |members|
    ensures Pairwise(members) == Pairwise(Without(members, i)) + 2.0 * MissOf(members)(members[i])
  {
    var x, rest := members[i], Without(members, i);
    assert members == members[..i] + ([x] + members[i + 1..]);
    MultisetSplit(members[..i], x, members[i + 1..]);
    assert multiset([x] + rest) == multiset{x} + multiset(rest);
    PairwisePermuted(members, [x] + rest);
    PairwisePush(x, rest);
    WithoutMiss(members, i, x);
    assert Distance(x)(x) == Abs(x - x);
    assert MissOf(members)(x) == Miss(members, x);
  }

  /** A fair score without division. */
  lemma ScaledFair(members: seq<real>, y: real, n: real, miss: real, pairwise: real) returns (score: real)
    requires |members| >= 2 && n == |members| as real && miss == Miss(members, y) && pairwise == Pairwise(members)
    ensures CrpsEnsemble(members, y, true) == Ok(score)
    ensures n * (n - 1.0) * score == (n - 1.0) * miss - pairwise / 2.0
  {
    var plain, fair := SpreadTerms(members, y, n);
    score := miss / n - fair;
    QuotientProduct(miss, n);
    assert n * (n - 1.0) * (miss / n) == (n - 1.0) * (miss / n * n);
  }

  function Range(lo: nat, hi: nat): seq<nat>
    decreases hi - lo
  {
    if lo >= hi then [] else [lo] + Range(lo + 1, hi)
  }

  /** The score f gives for position i, scaled, is what the member there leaves. */
  ghost predicate ScalesTo(xs: seq<real>, scale: real, f: nat -> real, g: real -> real) {
    forall i | 0 <= i < |xs| :: scale * f(i) == g(xs[i])
  }

  lemma {:induction false} SumOverPositions(xs: seq<real>, lo: nat, g: real -> real, h: nat -> real)
    requires lo <= |xs| && forall i | lo <= i < |xs| :: h(i) == g(xs[i])
    ensures Sum(Range(lo, |xs|), h) == Sum(xs[lo..], g)
    decreases |xs| - lo
  {
    if lo < |xs| {
      SumOverPositions(xs, lo + 1, g, h);
      assert xs[lo..][1..] == xs[lo + 1..];
      assert Range(lo, |xs|)[1..] == Range(lo + 1, |xs|);
    }
  }

  function Scaled(scale: real, f: nat -> real): nat -> real {
    (i: nat) => scale * f(i)
  }

  lemma SumScaled(positions: seq<nat>, scale: real, f: nat -> real)
    ensures Sum(positions, Scaled(scale, f)) == scale * Sum(positions, f)
  {
    SumLinear(positions, scale, f, 0.0, f, Scaled(scale, f));
  }

  lemma SumScaledOverPositions(xs: seq<real>, scale: real, f: nat -> real, g: real -> real)
    requires ScalesTo(xs, scale, f, g)
    ensures Sum(Range(0, |xs|), Scaled(scale, f)) == Sum(xs, g)
  {
    forall i | 0 <= i < |xs|
      ensures Scaled(scale, f)(i) == g(xs[i])
    {
    }
    SumOverPositions(xs, 0, g, Scaled(scale, f));
    assert xs[0..] == xs;
  }

  /** What a member leaves: a, less b times one quantity of it, plus another. */
  function Leaves(a: real, b: real, d: real -> real, m: real -> real): real -> real {
    (x: real) => a - b * d(x) + m(x)
  }

  function Constant(a: real): real -> real {
    (x: real) => a
  }

  function Near(a: real, b: real, d: real -> real): real -> real {
    (x: real) => a - b * d(x)
  }

  lemma NearSum(xs: seq<real>, n: real, a: real, b: real, d: real -> real)
    requires n == |xs| as real
    ensures Sum(xs, Near(a, b, d)) == n * a - b * Sum(xs, d)
  {
    SumConstant(xs, a, Constant(a));
    SumLinear(xs, 1.0, Constant(a), -b, d, Near(a, b, d));
  }

  lemma LeavesSum(xs: seq<real>, n: real, a: real, b: real, d: real -> real, m: real -> real)
    requires n == |xs| as real
    ensures Sum(xs, Leaves(a, b, d, m)) == n * a - b * Sum(xs, d) + Sum(xs, m)
  {
    NearSum(xs, n, a, b, d);
    SumLinear(xs, 1.0, Near(a, b, d), 1.0, m, Leaves(a, b, d, m));
  }

  lemma SameMean(n: real, scale: real, a: real, b: real, miss: real, pairwise: real, total: real, fair: real)
    requires n >= 3.0 && scale == (n - 1.0) * b && b == n - 2.0 && a == b * miss - pairwise / 2.0
    requires scale * total == n * a - b * miss + pairwise
    requires n * (n - 1.0) * fair == (n - 1.0) * miss - pairwise / 2.0
    ensures total == n * fair
  {
    Positive(n - 1.0, b, scale);
    assert scale * (n * fair) == b * (n * (n - 1.0) * fair);
    assert b * ((n - 1.0) * miss - pairwise / 2.0) == scale * total;
    Cancels(total - n * fair, scale, (total - n * fair) * scale);
  }

  lemma LeavesTotal(
      xs: seq<real>, n: real, f: nat -> real, d: real -> real, m: real -> real,
      miss: real, pairwise: real, scale: real, a: real, b: real, total: real)
    requires n == |xs| as real && miss == Sum(xs, d) && pairwise == Sum(xs, m)
    requires ScalesTo(xs, scale, f, Leaves(a, b, d, m))
    requires total == Sum(Range(0, |xs|), f)
    ensures scale * total == n * a - b * miss + pairwise
  {
    SumScaled(Range(0, |xs|), scale, f);
    SumScaledOverPositions(xs, scale, f, Leaves(a, b, d, m));
    LeavesSum(xs, n, a, b, d, m);
  }

  lemma MeanOfLeftOut(
      xs: seq<real>, n: real, f: nat -> real, d: real -> real, m: real -> real,
      miss: real, pairwise: real, scale: real, a: real, b: real, fair: real, total: real)
    requires 3 <= |xs| && n == |xs| as real && miss == Sum(xs, d) && pairwise == Sum(xs, m)
    requires scale == (n - 1.0) * b && b == n - 2.0 && a == b * miss - pairwise / 2.0
    requires ScalesTo(xs, scale, f, Leaves(a, b, d, m))
    requires n * (n - 1.0) * fair == (n - 1.0) * miss - pairwise / 2.0
    requires total == Sum(Range(0, |xs|), f)
    ensures total == n * fair
  {
    LeavesTotal(xs, n, f, d, m, miss, pairwise, scale, a, b, total);
    SameMean(n, scale, a, b, miss, pairwise, total, fair);
  }

  lemma LeftOutArithmetic(
      n: real, scale: real, a: real, b: real, miss: real, d: real, pairwise: real, m: real, score: real)
    requires (n - 1.0) * (n - 1.0 - 1.0) * score == (n - 1.0 - 1.0) * (miss - d) - (pairwise - 2.0 * m) / 2.0
    requires scale == (n - 1.0) * b && b == n - 2.0 && a == b * miss - pairwise / 2.0
    ensures scale * score == a - b * d + m
  {
  }

  lemma LeftOutValues(members: seq<real>, y: real, i: nat, n: real, d: real, m: real) returns (score: real)
    requires 3 <= |members| && i < |members| && n == |members| as real
    requires d == Distance(y)(members[i]) && m == MissOf(members)(members[i])
    ensures CrpsEnsemble(Without(members, i), y, true) == Ok(score)
    ensures (n - 1.0) * (n - 1.0 - 1.0) * score
            == (n - 1.0 - 1.0) * (Miss(members, y) - d) - (Pairwise(members) - 2.0 * m) / 2.0
  {
    WithoutMiss(members, i, y);
    WithoutPairwise(members, i);
    score := ScaledFair(Without(members, i), y, n - 1.0, Miss(members, y) - d, Pairwise(members) - 2.0 * m);
  }

  /** The numbers that scale the scores of an ensemble that leaves out one of n members. */
  ghost predicate Scales(members: seq<real>, y: real, n: real, scale: real, a: real, b: real) {
    && n == |members| as real && b == n - 2.0 && scale == (n - 1.0) * b
    && a == b * Miss(members, y) - Pairwise(members) / 2.0
  }

  /** The scaled score without member i. */
  lemma LeftOutScaled(
      members: seq<real>, y: real, i: nat, n: real, scale: real, a: real, b: real)
    returns (score: real)
    requires 3 <= |members| && i < |members| && Scales(members, y, n, scale, a, b)
    ensures CrpsEnsemble(Without(members, i), y, true) == Ok(score)
    ensures scale * score == Leaves(a, b, Distance(y), MissOf(members))(members[i])
  {
    var d, m := Distance(y)(members[i]), MissOf(members)(members[i]);
    score := LeftOutValues(members, y, i, n, d, m);
    LeftOutArithmetic(n, scale, a, b, Miss(members, y), d, Pairwise(members), m, score);
  }

  lemma SameProduct(scale: real, s: real, t: real)
    requires s == t
    ensures scale * s == scale * t
  {
  }

  /** The scores f gives are those of the ensembles that leave out one member each. */
  ghost predicate ScoresWithout(members: seq<real>, y: real, f: nat -> real) {
    forall i: nat {:trigger Without(members, i)} | i < |members| ::
      CrpsEnsemble(Without(members, i), y, true) == Ok(f(i))
  }

  /** So f scales to what the members leave, at one position. */
  lemma LeftOutScaledAs(
      members: seq<real>, y: real, i: nat, n: real, scale: real, a: real, b: real, f: nat -> real)
    requires 3 <= |members| && i < |members| && Scales(members, y, n, scale, a, b)
    requires CrpsEnsemble(Without(members, i), y, true) == Ok(f(i))
    ensures scale * f(i) == Leaves(a, b, Distance(y), MissOf(members))(members[i])
  {
    var score := LeftOutScaled(members, y, i, n, scale, a, b);
    SameProduct(scale, score, f(i));
  }

  lemma LeftOutAllScaled(members: seq<real>, y: real, f: nat -> real, n: real, scale: real, a: real, b: real)
    requires 3 <= |members| && Scales(members, y, n, scale, a, b) && ScoresWithout(members, y, f)
    ensures ScalesTo(members, scale, f, Leaves(a, b, Distance(y), MissOf(members)))
  {
    forall i | 0 <= i < |members|
      ensures scale * f(i) == Leaves(a, b, Distance(y), MissOf(members))(members[i])
    {
      LeftOutScaledAs(members, y, i, n, scale, a, b, f);
    }
  }

  lemma FairMean(
      members: seq<real>, y: real, f: nat -> real, n: real, miss: real, pairwise: real, fair: real, total: real)
    requires 3 <= |members| && n == |members| as real && ScoresWithout(members, y, f)
    requires miss == Miss(members, y) && pairwise == Pairwise(members)
    requires n * (n - 1.0) * fair == (n - 1.0) * miss - pairwise / 2.0
    requires total == Sum(Range(0, |members|), f)
    ensures total == n * fair
  {
    var b := n - 2.0;
    var scale, a := (n - 1.0) * b, b * miss - pairwise / 2.0;
    LeftOutAllScaled(members, y, f, n, scale, a, b);
    MeanOfLeftOut(members, n, f, Distance(y), MissOf(members), miss, pairwise, scale, a, b, fair, total);
  }

  /**
    The fair score does not depend on the size of the ensemble: over the ensembles that leave out
    one member each, it averages to the fair score of the whole one.
  */
  lemma FairIsSizeFree(members: seq<real>, y: real, f: nat -> real, n: real) returns (fair: real)
    requires 3 <= |members| && n == |members| as real && ScoresWithout(members, y, f)
    ensures CrpsEnsemble(members, y, true) == Ok(fair)
    ensures Sum(Range(0, |members|), f) == n * fair
  {
    fair := ScaledFair(members, y, n, Miss(members, y), Pairwise(members));
    FairMean(members, y, f, n, Miss(members, y), Pairwise(members), fair, Sum(Range(0, |members|), f));
  }
}
