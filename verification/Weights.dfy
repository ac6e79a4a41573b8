/**
  Model weights: normalisation, Kish effective sample size, and the softmax fusion weights
  with their maximum subtracted. The exponential is a parameter known by three laws.
*/
module Weights {
  import opened Wrappers
  import opened RealArithmetic
  import opened RealSums
  import opened Sequences

  datatype WeightError =
    | NoWeights
    | NegativeWeight
    | NoPositiveWeight
    | LengthMismatch
    | InvalidScaling
    | InvalidLoss
    | InvalidCorrelation

  // ---------------------------------------------------------------- normalisation

  function Same(): real -> real {
    (w: real) => w
  }

  function Total(ws: seq<real>): real {
    Sum(ws, Same())
  }

  function Divided(ws: seq<real>, c: real): (r: seq<real>)
    requires c != 0.0
    ensures |r| == |ws|
  {
    if ws == [] then [] else [ws[0] / c] + Divided(ws[1..], c)
  }

  predicate HasNegative(ws: seq<real>) {
    exists w | w in ws :: w < 0.0
  }

  function NormalizeWeights(ws: seq<real>): Result<seq<real>, WeightError> {
    if ws == [] then Err(NoWeights)
    else if HasNegative(ws) then Err(NegativeWeight)
    else if Total(ws) <= 0.0 then Err(NoPositiveWeight)
    else Ok(Divided(ws, Total(ws)))
  }

  lemma {:induction false} DividedAt(ws: seq<real>, c: real, i: nat)
    requires c != 0.0 && i < |ws|
    ensures Divided(ws, c)[i] == ws[i] / c
  {
    if i > 0 {
      DividedAt(ws[1..], c, i - 1);
    }
  }

  lemma {:induction false} DividedTotal(ws: seq<real>, c: real)
    requires c != 0.0
    ensures Total(Divided(ws, c)) == Total(ws) / c
  {
    if ws != [] {
      DividedTotal(ws[1..], c);
      assert Divided(ws, c)[1..] == Divided(ws[1..], c);
    }
  }

  lemma TotalNonnegative(ws: seq<real>)
    requires forall w | w in ws :: w >= 0.0
    ensures Total(ws) >= 0.0
    ensures Total(ws) == 0.0 <==> forall w | w in ws :: w == 0.0
  {
    SumNonnegative(ws, Same());
  }

  /** Weights can be normalised exactly when none is negative and one is positive. */
  lemma NormalizeSucceedsIff(ws: seq<real>)
    ensures NormalizeWeights(ws).Ok? <==> (forall w | w in ws :: w >= 0.0) && exists w | w in ws :: w > 0.0
  {
    if forall w | w in ws :: w >= 0.0 {
      TotalNonnegative(ws);
    }
  }

  /** Normalised weights sum to 1 and keep every weight's share of the total. */
  lemma NormalizedShares(ws: seq<real>, ns: seq<real>)
    requires NormalizeWeights(ws) == Ok(ns)
    ensures |ns| == |ws| && Total(ns) == 1.0
    ensures forall i | 0 <= i < |ws| :: ns[i] >= 0.0 && ns[i] * Total(ws) == ws[i]
  {
    var total := Total(ws);
    DividedTotal(ws, total);
    QuotientProduct(total, total);
    forall i | 0 <= i < |ws|
      ensures ns[i] >= 0.0 && ns[i] * total == ws[i]
    {
      assert ws[i] in ws;
      DividedAt(ws, total, i);
      QuotientProduct(ws[i], total);
    }
  }

  function Multiplied(ws: seq<real>, c: real): (r: seq<real>)
    ensures |r| == |ws|
  {
    if ws == [] then [] else [c * ws[0]] + Multiplied(ws[1..], c)
  }

  lemma {:induction false} MultipliedAt(ws: seq<real>, c: real, i: nat)
    requires i < |ws|
    ensures Multiplied(ws, c)[i] == c * ws[i]
  {
    if i > 0 {
      MultipliedAt(ws[1..], c, i - 1);
    }
  }

  lemma {:induction false} MultipliedTotal(ws: seq<real>, c: real)
    ensures Total(Multiplied(ws, c)) == c * Total(ws)
  {
    if ws != [] {
      MultipliedTotal(ws[1..], c);
      assert Multiplied(ws, c)[1..] == Multiplied(ws[1..], c);
    }
  }

  lemma CommonFactor(c: real, a: real, b: real)
    requires c != 0.0 && b != 0.0 && c * b != 0.0
    ensures (c * a) / (c * b) == a / b
  {
    QuotientProduct(a, b);
    var q := a / b;
    assert c * a == q * (c * b);
    assert q * (c * b) / (c * b) == q;
  }

  lemma {:induction false} FactorCancels(ws: seq<real>, c: real, total: real, scaled: real)
    requires c != 0.0 && total != 0.0 && scaled == c * total && scaled != 0.0
    ensures Divided(Multiplied(ws, c), scaled) == Divided(ws, total)
  {
    if ws != [] {
      FactorCancels(ws[1..], c, total, scaled);
      CommonFactor(c, ws[0], total);
      assert Multiplied(ws, c)[0] / scaled == ws[0] / total;
      assert Multiplied(ws, c)[1..] == Multiplied(ws[1..], c);
    }
  }

  lemma SignsKept(ws: seq<real>, c: real)
    requires c > 0.0
    ensures HasNegative(ws) <==> HasNegative(Multiplied(ws, c))
  {
    var ms := Multiplied(ws, c);
    forall i | 0 <= i < |ws|
      ensures ws[i] < 0.0 <==> ms[i] < 0.0
    {
      MultipliedAt(ws, c, i);
      ScaleOrder(ws[i], 0.0, c, c * ws[i], 0.0);
    }
    SomeNegative(ws, ms);
    SomeNegative(ms, ws);
  }

  lemma SomeNegative(a: seq<real>, b: seq<real>)
    requires |a| == |b| && forall i | 0 <= i < |a| :: a[i] < 0.0 <==> b[i] < 0.0
    ensures HasNegative(a) ==> HasNegative(b)
  {
    if w :| w in a && w < 0.0 {
      var i :| 0 <= i < |a| && a[i] == w;
      assert b[i] in b && b[i] < 0.0;
    }
  }

  /** The unit weights are given in does not matter, for errors as for results. */
  lemma ScaleInvariance(ws: seq<real>, c: real)
    requires c > 0.0
    ensures NormalizeWeights(Multiplied(ws, c)) == NormalizeWeights(ws)
    ensures EffectiveEnsembleSize(Multiplied(ws, c)) == EffectiveEnsembleSize(ws)
  {
    if ws != [] {
      var total := Total(ws);
      SignsKept(ws, c);
      MultipliedTotal(ws, c);
      var scaled := Total(Multiplied(ws, c));
      ScaleOrder(total, 0.0, c, scaled, 0.0);
      if total > 0.0 {
        FactorCancels(ws, c, total, scaled);
      }
    }
  }

  // ---------------------------------------------------------------- effective size

  function Squared(): real -> real {
    (w: real) => w * w
  }

  function SumOfSquares(ws: seq<real>): real {
    Sum(ws, Squared())
  }

  lemma SquaresPositive(ns: seq<real>)
    requires Total(ns) != 0.0
    ensures SumOfSquares(ns) > 0.0
  {
    forall w | w in ns
      ensures Squared()(w) >= 0.0 && (Squared()(w) == 0.0 ==> w == 0.0)
    {
      Square(w, w * w);
    }
    SumNonnegative(ns, Squared());
    if SumOfSquares(ns) == 0.0 {
      SumConstant(ns, 0.0, Same());
    }
  }

  /** One over the sum of squared normalised weights. */
  function EffectiveEnsembleSize(ws: seq<real>): Result<real, WeightError> {
    match NormalizeWeights(ws)
    case Err(e) => Err(e)
    case Ok(ns) =>
      NormalizedShares(ws, ns);
      SquaresPositive(ns);
      Ok(1.0 / SumOfSquares(ns))
  }

  function IsPositive(): real -> bool {
    (w: real) => w > 0.0
  }

  function PositivePart(ws: seq<real>): seq<real> {
    Filter(IsPositive(), ws)
  }

  /** Zero weights add nothing to a sum whose terms vanish at zero. */
  lemma {:induction false} SumOverPositives(ws: seq<real>, f: real -> real)
    requires f(0.0) == 0.0 && forall w | w in ws :: w >= 0.0
    ensures Sum(PositivePart(ws), f) == Sum(ws, f)
  {
    if ws != [] {
      forall w | w in ws[1..]
        ensures w >= 0.0
      {
        assert w in ws;
      }
      SumOverPositives(ws[1..], f);
      assert ws[0] in ws;
    }
  }

  /** Each term p (1 - p) is the part of a share that is not its square. */
  function Spread(): real -> real {
    (p: real) => p * (1.0 - p)
  }

  lemma ShareAtMostOne(ps: seq<real>, p: real)
    requires p in ps && Total(ps) == 1.0 && forall q | q in ps :: q >= 0.0
    ensures p <= 1.0
  {
    var rest := PullOut(ps, p, Same());
    forall q | q in rest
      ensures q >= 0.0
    {
      assert multiset(ps)[q] >= multiset(rest)[q] > 0;
      assert q in ps;
    }
    TotalNonnegative(rest);
  }

  /** The squares of shares sum to at most 1, and to 1 only for a single share. */
  lemma SquaresAtMostOne(ps: seq<real>)
    requires Total(ps) == 1.0 && forall p | p in ps :: p > 0.0
    ensures SumOfSquares(ps) <= 1.0
    ensures SumOfSquares(ps) == 1.0 <==> |ps| == 1
  {
    forall p | p in ps
      ensures Spread()(p) >= 0.0 && (Spread()(p) == 0.0 ==> p == 1.0)
      ensures Spread()(p) == 1.0 * Same()(p) + -1.0 * Squared()(p)
    {
      ShareAtMostOne(ps, p);
      Nonnegative(p, 1.0 - p, p * (1.0 - p));
      if p < 1.0 {
        Positive(p, 1.0 - p, p * (1.0 - p));
      }
    }
    SumLinear(ps, 1.0, Same(), -1.0, Squared(), Spread());
    SumNonnegative(ps, Spread());
    if SumOfSquares(ps) == 1.0 {
      SumConstant(ps, 1.0, Same());
    }
    if |ps| == 1 {
      assert Total(ps) == ps[0] + Total(ps[1..]);
      assert ps[1..] == [];
    }
  }

  /** How far n shares are from even: n p is 1 for every one. */
  function Unevenness(n: real): real -> real {
    (p: real) => (n * p - 1.0) * (n * p - 1.0)
  }

  function Linear(k: real): real -> real {
    (p: real) => 1.0 - k * p
  }

  lemma LinearSum(ps: seq<real>, k: real)
    requires Total(ps) == 1.0
    ensures Sum(ps, Linear(k)) == |ps| as real - k
  {
    var one := (p: real) => 1.0;
    SumConstant(ps, 1.0, one);
    SumLinear(ps, 1.0, one, -k, Same(), Linear(k));
  }

  /** Unevenness as a combination of squares and a linear term, with what its sign then means. */
  lemma ChooseScales(ps: seq<real>, n: real, q: real) returns (nn: real, k: real)
    requires n > 0.0
    ensures Combines(ps, nn, Squared(), 1.0, Linear(k), Unevenness(n))
    ensures nn * q + (n - k) >= 0.0 <==> n * q >= 1.0
    ensures nn * q + (n - k) == 0.0 <==> n * q == 1.0
  {
    nn, k := n * n, 2.0 * n;
    forall p | p in ps
      ensures Unevenness(n)(p) == nn * Squared()(p) + 1.0 * Linear(k)(p)
    {
    }
  }

  ghost predicate Uniform(ws: seq<real>) {
    forall x, y | x in ws && y in ws :: x == y
  }

  lemma UniformShares(ps: seq<real>, n: real, p: real)
    requires Uniform(ps) && Total(ps) == 1.0 && n == |ps| as real && p in ps
    ensures n * p == 1.0
  {
    forall q | q in ps
      ensures Same()(q) == p
    {
    }
    SumConstant(ps, p, Same());
  }

  lemma UnevenSign(n: real, p: real)
    ensures Unevenness(n)(p) >= 0.0 && (Unevenness(n)(p) == 0.0 <==> n * p == 1.0)
  {
    Square(n * p - 1.0, (n * p - 1.0) * (n * p - 1.0));
  }

  lemma UnevennessNonnegative(ps: seq<real>, n: real)
    ensures Sum(ps, Unevenness(n)) >= 0.0
    ensures Sum(ps, Unevenness(n)) == 0.0 <==> forall p | p in ps :: n * p == 1.0
  {
    forall p | p in ps
      ensures Unevenness(n)(p) >= 0.0 && (Unevenness(n)(p) == 0.0 <==> n * p == 1.0)
    {
      UnevenSign(n, p);
    }
    SumNonnegative(ps, Unevenness(n));
  }

  lemma UnevennessMeaning(ps: seq<real>, n: real, q: real)
    requires Total(ps) == 1.0 && n == |ps| as real && ps != [] && q == SumOfSquares(ps)
    ensures Sum(ps, Unevenness(n)) >= 0.0 <==> n * q >= 1.0
    ensures Sum(ps, Unevenness(n)) == 0.0 <==> n * q == 1.0
  {
    var nn, k := ChooseScales(ps, n, q);
    LinearSum(ps, k);
    SumLinear(ps, nn, Squared(), 1.0, Linear(k), Unevenness(n));
    assert Sum(ps, Unevenness(n)) == nn * q + (n - k);
  }

  /** The squares of n shares sum to at least 1/n, and to 1/n only for even shares. */
  lemma SquaresAtLeastEven(ps: seq<real>, n: real, q: real)
    requires Total(ps) == 1.0 && n == |ps| as real && ps != [] && q == SumOfSquares(ps)
    ensures n * q >= 1.0
    ensures n * q == 1.0 <==> Uniform(ps)
  {
    UnevennessNonnegative(ps, n);
    UnevennessMeaning(ps, n, q);
    if Uniform(ps) {
      forall p | p in ps
        ensures n * p == 1.0
      {
        UniformShares(ps, n, p);
      }
    }
  }

  lemma {:induction false} PositivePartDivided(ws: seq<real>, c: real)
    requires c > 0.0
    ensures PositivePart(Divided(ws, c)) == Divided(PositivePart(ws), c)
  {
    if ws != [] {
      PositivePartDivided(ws[1..], c);
      assert Divided(ws, c)[1..] == Divided(ws[1..], c);
      if ws[0] > 0.0 {
        assert PositivePart(ws)[1..] == PositivePart(ws[1..]);
      }
    }
  }

  lemma UniformDivided(ws: seq<real>, c: real)
    requires c > 0.0
    ensures Uniform(Divided(ws, c)) <==> Uniform(ws)
  {
    var ds := Divided(ws, c);
    forall i, j | 0 <= i < |ws| && 0 <= j < |ws|
      ensures ds[i] == ds[j] <==> ws[i] == ws[j]
    {
      DividedAt(ws, c, i);
      DividedAt(ws, c, j);
    }
    SameClasses(ws, ds);
    SameClasses(ds, ws);
  }

  lemma SameClasses(a: seq<real>, b: seq<real>)
    requires |a| == |b| && forall i, j | 0 <= i < |a| && 0 <= j < |a| :: a[i] == a[j] <==> b[i] == b[j]
    ensures Uniform(a) ==> Uniform(b)
  {
    if Uniform(a) {
      forall x, y | x in b && y in b
        ensures x == y
      {
        var i, j :| 0 <= i < |b| && 0 <= j < |b| && x == b[i] && y == b[j];
        assert a[i] in a && a[j] in a;
      }
    }
  }

  lemma PositiveMembers(ws: seq<real>, w: real)
    requires w in PositivePart(ws)
    ensures w > 0.0
  {
    FilterMembers(IsPositive(), ws, w);
  }

  lemma SharesBounds(ns: seq<real>, n: real, q: real)
    requires Total(ns) == 1.0 && n == |PositivePart(ns)| as real && forall p | p in ns :: p >= 0.0
    requires q == SumOfSquares(ns)
    ensures n >= 1.0 && q <= 1.0 <= n * q
    ensures q == 1.0 <==> n == 1.0
    ensures n * q == 1.0 <==> Uniform(PositivePart(ns))
  {
    var ps := PositivePart(ns);
    SumOverPositives(ns, Same());
    SumOverPositives(ns, Squared());
    forall p | p in ps
      ensures p > 0.0
    {
      PositiveMembers(ns, p);
    }
    SquaresAtMostOne(ps);
    SquaresAtLeastEven(ps, n, q);
  }

  lemma InverseBounds(q: real, n: real)
    requires q > 0.0 && n > 0.0
    ensures 1.0 / q >= 1.0 <==> q <= 1.0
    ensures 1.0 / q == 1.0 <==> q == 1.0
    ensures 1.0 / q <= n <==> n * q >= 1.0
    ensures 1.0 / q == n <==> n * q == 1.0
  {
    QuotientProduct(1.0, q);
    ScaleOrder(1.0 / q, 1.0, q, 1.0, q);
    ScaleOrder(1.0 / q, n, q, 1.0, n * q);
    ScaleOrder(1.0, 1.0 / q, q, q, 1.0);
    ScaleOrder(n, 1.0 / q, q, n * q, 1.0);
  }

  lemma NormalizedForm(ws: seq<real>, size: real) returns (ns: seq<real>, q: real)
    requires EffectiveEnsembleSize(ws) == Ok(size)
    ensures Total(ns) == 1.0 && (forall p | p in ns :: p >= 0.0)
    ensures q == SumOfSquares(ns) && q > 0.0 && size == 1.0 / q
    ensures |PositivePart(ns)| == |PositivePart(ws)|
    ensures Uniform(PositivePart(ns)) <==> Uniform(PositivePart(ws))
  {
    var total := Total(ws);
    ns := Divided(ws, total);
    q := SumOfSquares(ns);
    NormalizedShares(ws, ns);
    SquaresPositive(ns);
    PositivePartDivided(ws, total);
    UniformDivided(PositivePart(ws), total);
  }

  /**
    The effective size lies between 1 and the number of positive weights: at the top exactly
    when the positive weights are equal, at the bottom exactly when there is only one.
  */
  lemma EffectiveSizeBounds(ws: seq<real>, size: real, n: real)
    requires EffectiveEnsembleSize(ws) == Ok(size) && n == |PositivePart(ws)| as real
    ensures 1.0 <= size <= n
    ensures size == n <==> Uniform(PositivePart(ws))
    ensures size == 1.0 <==> n == 1.0
  {
    var ns, q := NormalizedForm(ws, size);
    SharesBounds(ns, n, q);
    InverseBounds(q, n);
  }

  lemma SquareOfQuotient(w: real, c: real, cc: real)
    requires c != 0.0 && cc == c * c
    ensures (w / c) * (w / c) * cc == w * w
  {
    QuotientProduct(w, c);
    assert (w / c) * (w / c) * cc == ((w / c) * c) * ((w / c) * c);
  }

  lemma AddScaled(first: real, rest: real, cc: real, square: real, squares: real)
    requires first * cc == square && rest * cc == squares
    ensures (first + rest) * cc == square + squares
  {
  }

  lemma {:induction false} DividedSquares(ws: seq<real>, c: real, cc: real)
    requires c != 0.0 && cc == c * c
    ensures SumOfSquares(Divided(ws, c)) * cc == SumOfSquares(ws)
  {
    if ws != [] {
      DividedSquares(ws[1..], c, cc);
      assert Divided(ws, c)[1..] == Divided(ws[1..], c);
      SquareOfQuotient(ws[0], c, cc);
      AddScaled(Squared()(ws[0] / c), SumOfSquares(Divided(ws[1..], c)), cc, Squared()(ws[0]), SumOfSquares(ws[1..]));
    }
  }

  lemma InverseTimes(size: real, q: real, cc: real, squares: real)
    requires q > 0.0 && size == 1.0 / q && q * cc == squares
    ensures size * squares == cc
  {
    QuotientProduct(1.0, q);
    assert size * (q * cc) == (size * q) * cc;
  }

  /** Kish's formula on the weights as they are given: size times the sum of squares is the squared sum. */
  lemma KishFormula(ws: seq<real>, size: real)
    requires EffectiveEnsembleSize(ws) == Ok(size)
    ensures size * Sum(ws, (w: real) => w * w) == Sum(ws, (w: real) => w) * Sum(ws, (w: real) => w)
  {
    var total := Total(ws);
    var ns := Divided(ws, total);
    NormalizedShares(ws, ns);
    SquaresPositive(ns);
    DividedSquares(ws, total, total * total);
    InverseTimes(size, SumOfSquares(ns), total * total, SumOfSquares(ws));
    SumAgree(ws, Squared(), (w: real) => w * w);
    SumAgree(ws, Same(), (w: real) => w);
  }

  // ---------------------------------------------------------------- fusion weights

  datatype Exponential = Exponential(exp: real -> real)

  ghost predicate PositiveLaw(e: Exponential, x: real) {
    e.exp(x) > 0.0
  }

  ghost predicate ProductLaw(e: Exponential, x: real, y: real) {
    e.exp(x + y) == e.exp(x) * e.exp(y)
  }

  ghost predicate IncreasingLaw(e: Exponential, x: real, y: real) {
    x < y ==> e.exp(x) < e.exp(y)
  }

  ghost predicate Laws(e: Exponential) {
    && (forall x {:trigger PositiveLaw(e, x)} :: PositiveLaw(e, x))
    && (forall x, y {:trigger ProductLaw(e, x, y)} :: ProductLaw(e, x, y))
    && (forall x, y {:trigger IncreasingLaw(e, x, y)} :: IncreasingLaw(e, x, y))
  }

  function Max(x: real, y: real): real {
    if x < y then y else x
  }

  function Logit(loss: real, correlation: real, lossScale: real, penalty: real): real {
    -(lossScale * loss) - penalty * Max(correlation, 0.0)
  }

  function Logits(losses: seq<real>, correlations: seq<real>, lossScale: real, penalty: real): (r: seq<real>)
    requires |losses| == |correlations|
    ensures |r| == |losses|
  {
    seq(|losses|, i requires 0 <= i < |losses| => Logit(losses[i], correlations[i], lossScale, penalty))
  }

  function Exponentials(e: Exponential, logits: seq<real>): (r: seq<real>)
    ensures |r| == |logits|
    ensures forall i | 0 <= i < |logits| :: r[i] == e.exp(logits[i])
  {
    seq(|logits|, i requires 0 <= i < |logits| => e.exp(logits[i]))
  }

  /** Softmax as it is usually defined, with nothing subtracted from the logits. */
  function Softmax(e: Exponential, logits: seq<real>): Result<seq<real>, WeightError> {
    NormalizeWeights(Exponentials(e, logits))
  }

  /** The error of the first pair that is not valid; its loss is looked at first. */
  ghost predicate FirstFault(losses: seq<real>, correlations: seq<real>, error: WeightError)
    requires |losses| == |correlations|
  {
    exists i | 0 <= i < |losses| ::
      && (forall j | 0 <= j < i :: losses[j] >= 0.0 && -1.0 <= correlations[j] <= 1.0)
      && (if losses[i] < 0.0 then error == InvalidLoss
          else !(-1.0 <= correlations[i] <= 1.0) && error == InvalidCorrelation)
  }

  predicate Settings(losses: seq<real>, correlations: seq<real>, lossScale: real, penalty: real) {
    |losses| == |correlations| && losses != [] && lossScale > 0.0 && penalty >= 0.0
  }

  method Maximum(xs: seq<real>) returns (m: real)
    requires xs != []
    ensures m in xs && forall x | x in xs :: x <= m
  {
    m := xs[0];
    for i := 1 to |xs|
      invariant m in xs && forall k | 0 <= k < i :: xs[k] <= m
    {
      if m < xs[i] {
        m := xs[i];
      }
    }
  }

  /** Subtracting a constant from every logit scales every exponential. */
  lemma {:induction false} ShiftScales(e: Exponential, logits: seq<real>, shift: real, c: real, raw: seq<real>)
    requires Laws(e) && c == e.exp(shift) && |raw| == |logits|
    requires forall i | 0 <= i < |raw| :: raw[i] == e.exp(logits[i] - shift)
    ensures Multiplied(raw, c) == Exponentials(e, logits)
  {
    forall i | 0 <= i < |logits|
      ensures Multiplied(raw, c)[i] == e.exp(logits[i])
    {
      MultipliedAt(raw, c, i);
      assert ProductLaw(e, shift, logits[i] - shift);
      assert shift + (logits[i] - shift) == logits[i];
    }
  }

  /** Softmax of at least one logit always exists. */
  lemma SoftmaxExists(e: Exponential, logits: seq<real>)
    requires Laws(e) && logits != []
    ensures Softmax(e, logits).Ok?
  {
    var es := Exponentials(e, logits);
    forall i | 0 <= i < |es|
      ensures es[i] > 0.0
    {
      assert PositiveLaw(e, logits[i]);
    }
    assert es[0] in es;
    NormalizeSucceedsIff(es);
  }

  method DependenceAdjustedWeights(
      e: Exponential,
      losses: seq<real>,
      correlations: seq<real>,
      lossScale: real,
      penalty: real)
    returns (r: Result<seq<real>, WeightError>)
    requires Laws(e)
    ensures |losses| != |correlations| || losses == [] ==> r == Err(LengthMismatch)
    ensures |losses| == |correlations| && losses != [] && (lossScale <= 0.0 || penalty < 0.0) ==>
              r == Err(InvalidScaling)
    ensures Settings(losses, correlations, lossScale, penalty) ==>
              match r {
                case Err(error) => FirstFault(losses, correlations, error)
                case Ok(ws) =>
                  && (forall i | 0 <= i < |losses| :: losses[i] >= 0.0 && -1.0 <= correlations[i] <= 1.0)
                  && Softmax(e, Logits(losses, correlations, lossScale, penalty)) == Ok(ws)
              }
  {
    if |losses| != |correlations| || losses == [] {
      return Err(LengthMismatch);
    }
    if lossScale <= 0.0 || penalty < 0.0 {
      return Err(InvalidScaling);
    }
    var logits: seq<real> := [];
    for i := 0 to |losses|
      invariant forall j | 0 <= j < i :: losses[j] >= 0.0 && -1.0 <= correlations[j] <= 1.0
      invariant |logits| == i
      invariant forall j | 0 <= j < i :: logits[j] == Logit(losses[j], correlations[j], lossScale, penalty)
    {
      if losses[i] < 0.0 {
        return Err(InvalidLoss);
      }
      if !(-1.0 <= correlations[i] <= 1.0) {
        return Err(InvalidCorrelation);
      }
      logits := logits + [Logit(losses[i], correlations[i], lossScale, penalty)];
    }
    assert logits == Logits(losses, correlations, lossScale, penalty);
    var maximum := Maximum(logits);
    var raw := seq(|logits|, i requires 0 <= i < |logits| => e.exp(logits[i] - maximum));
    assert PositiveLaw(e, maximum);
    ShiftScales(e, logits, maximum, e.exp(maximum), raw);
    ScaleInvariance(raw, e.exp(maximum));
    SoftmaxExists(e, logits);
    r := NormalizeWeights(raw);
  }

  /** A softmax weight is its exponential over the common total. */
  lemma SoftmaxShares(e: Exponential, logits: seq<real>, ws: seq<real>, total: real)
    requires Laws(e) && Softmax(e, logits) == Ok(ws) && total == Total(Exponentials(e, logits))
    ensures total > 0.0 && |ws| == |logits| && Total(ws) == 1.0
    ensures forall i | 0 <= i < |ws| :: ws[i] > 0.0 && ws[i] * total == e.exp(logits[i])
  {
    NormalizedShares(Exponentials(e, logits), ws);
    forall i | 0 <= i < |ws|
      ensures ws[i] > 0.0
    {
      assert PositiveLaw(e, logits[i]);
      assert ws[i] * total == e.exp(logits[i]);
    }
  }

  /** a : b is c : d, without dividing. */
  predicate SameRatio(a: real, b: real, c: real, d: real) {
    a * d == b * c
  }

  /** The ratio of two weights is the ratio of their own exponentials, whoever else competes. */
  lemma RatioIsTheirOwn(e: Exponential, logits: seq<real>, ws: seq<real>, i: nat, j: nat)
    requires Laws(e) && Softmax(e, logits) == Ok(ws) && i < |logits| && j < |logits|
    ensures |ws| == |logits| && SameRatio(ws[i], ws[j], e.exp(logits[i]), e.exp(logits[j]))
  {
    var total := Total(Exponentials(e, logits));
    SoftmaxShares(e, logits, ws, total);
  }

  /** The positive part of a correlation. */
  function Penalised(correlation: real): real {
    if correlation > 0.0 then correlation else 0.0
  }

  lemma LogitGap(l: real, m: real, c: real, d: real, lossScale: real, penalty: real)
    ensures Logit(l, c, lossScale, penalty) - Logit(m, d, lossScale, penalty)
            == lossScale * (m - l) + penalty * (Penalised(d) - Penalised(c))
  {
  }

  lemma ExponentialGap(e: Exponential, x: real, y: real, w: real, v: real, gap: real)
    requires Laws(e) && SameRatio(w, v, e.exp(x), e.exp(y)) && gap == x - y
    ensures w == v * e.exp(gap)
  {
    assert ProductLaw(e, y, gap) && PositiveLaw(e, y);
    assert y + gap == x;
    var excess := w - v * e.exp(gap);
    assert w * e.exp(y) == v * (e.exp(y) * e.exp(gap));
    assert excess * e.exp(y) == 0.0;
    assert excess == excess * e.exp(y) / e.exp(y);
  }

  /**
    The weights in numbers: one is the other times the exponential of the loss scale times the
    other's excess loss plus the penalty times its excess positive correlation.
  */
  lemma WeightRatio(
      e: Exponential,
      losses: seq<real>, correlations: seq<real>, lossScale: real, penalty: real,
      ws: seq<real>, i: nat, j: nat)
    requires Laws(e) && Settings(losses, correlations, lossScale, penalty)
    requires Softmax(e, Logits(losses, correlations, lossScale, penalty)) == Ok(ws)
    requires i < |losses| && j < |losses|
    ensures |ws| == |losses|
    ensures ws[i] == ws[j] * e.exp(
      lossScale * (losses[j] - losses[i]) + penalty * (Penalised(correlations[j]) - Penalised(correlations[i])))
  {
    var logits := Logits(losses, correlations, lossScale, penalty);
    var gap := lossScale * (losses[j] - losses[i])
      + penalty * (Penalised(correlations[j]) - Penalised(correlations[i]));
    RatioIsTheirOwn(e, logits, ws, i, j);
    LogitGap(losses[i], losses[j], correlations[i], correlations[j], lossScale, penalty);
    ExponentialGap(e, logits[i], logits[j], ws[i], ws[j], gap);
  }

  lemma RatiosAgree(a: real, b: real, c: real, d: real, x: real, y: real)
    requires x > 0.0 && y > 0.0 && SameRatio(a, b, x, y) && SameRatio(c, d, x, y)
    ensures SameRatio(a, b, c, d)
  {
    var ad, bc := a * d, b * c;
    assert ad * x == a * (c * y);
    assert bc * x == (b * x) * c;
    ScaleOrder(ad, bc, x, ad * x, bc * x);
    ScaleOrder(bc, ad, x, bc * x, ad * x);
  }

  /** Two candidates keep the ratio of their weights in any other field of competitors. */
  lemma OthersDoNotMatter(
      e: Exponential,
      logits: seq<real>, ws: seq<real>, i: nat, j: nat,
      others: seq<real>, vs: seq<real>, k: nat, l: nat)
    requires Laws(e) && Softmax(e, logits) == Ok(ws) && Softmax(e, others) == Ok(vs)
    requires i < |logits| && j < |logits| && k < |others| && l < |others|
    requires logits[i] == others[k] && logits[j] == others[l]
    ensures |ws| == |logits| && |vs| == |others| && SameRatio(ws[i], ws[j], vs[k], vs[l])
  {
    RatioIsTheirOwn(e, logits, ws, i, j);
    RatioIsTheirOwn(e, others, vs, k, l);
    var x, y := e.exp(logits[i]), e.exp(logits[j]);
    assert x > 0.0 && y > 0.0 by {
      assert PositiveLaw(e, logits[i]) && PositiveLaw(e, logits[j]);
    }
    RatiosAgree(ws[i], ws[j], vs[k], vs[l], x, y);
  }

  /** Weights are ordered as the logits are. */
  lemma WeightOrder(e: Exponential, logits: seq<real>, ws: seq<real>, i: nat, j: nat)
    requires Laws(e) && Softmax(e, logits) == Ok(ws) && i < |logits| && j < |logits|
    ensures |ws| == |logits| && (ws[i] < ws[j] <==> logits[i] < logits[j])
  {
    var total := Total(Exponentials(e, logits));
    SoftmaxShares(e, logits, ws, total);
    ScaleOrder(ws[i], ws[j], total, e.exp(logits[i]), e.exp(logits[j]));
    assert IncreasingLaw(e, logits[i], logits[j]) && IncreasingLaw(e, logits[j], logits[i]);
  }

  /** Of two candidates with equally penalised correlations, the smaller loss has the larger weight. */
  lemma SmallerLossWeighsMore(
      e: Exponential,
      losses: seq<real>, correlations: seq<real>, lossScale: real, penalty: real,
      ws: seq<real>, i: nat, j: nat)
    requires Laws(e) && Settings(losses, correlations, lossScale, penalty)
    requires Softmax(e, Logits(losses, correlations, lossScale, penalty)) == Ok(ws)
    requires i < |losses| && j < |losses| && Max(correlations[i], 0.0) == Max(correlations[j], 0.0)
    ensures |ws| == |losses| && (ws[i] > ws[j] <==> losses[i] < losses[j])
  {
    var logits := Logits(losses, correlations, lossScale, penalty);
    WeightOrder(e, logits, ws, j, i);
    ScaleOrder(losses[i], losses[j], lossScale, lossScale * losses[i], lossScale * losses[j]);
  }

  /** Of two candidates with equal losses, the one with more positive correlation weighs less. */
  lemma CorrelationIsPenalised(
      e: Exponential,
      losses: seq<real>, correlations: seq<real>, lossScale: real, penalty: real,
      ws: seq<real>, i: nat, j: nat)
    requires Laws(e) && Settings(losses, correlations, lossScale, penalty) && penalty > 0.0
    requires Softmax(e, Logits(losses, correlations, lossScale, penalty)) == Ok(ws)
    requires i < |losses| && j < |losses| && losses[i] == losses[j]
    ensures |ws| == |losses| && (ws[i] > ws[j] <==> Max(correlations[i], 0.0) < Max(correlations[j], 0.0))
  {
    var logits := Logits(losses, correlations, lossScale, penalty);
    var x, y := Max(correlations[i], 0.0), Max(correlations[j], 0.0);
    WeightOrder(e, logits, ws, j, i);
    ScaleOrder(x, y, penalty, penalty * x, penalty * y);
  }
}
