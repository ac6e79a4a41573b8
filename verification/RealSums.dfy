/** Finite sums over sequences of reals. */
module RealSums {

  function Sum<T>(xs: seq<T>, f: T -> real): real {
    if xs == [] then 0.0 else f(xs[0]) + Sum(xs[1..], f)
  }

  lemma {:induction false} SumAgree<T>(xs: seq<T>, f: T -> real, g: T -> real)
    requires forall x | x in xs :: f(x) == g(x)
    ensures Sum(xs, f) == Sum(xs, g)
  {
    if xs != [] {
      SumAgree(xs[1..], f, g);
    }
  }

  lemma {:induction false} SumNonnegative<T>(xs: seq<T>, f: T -> real)
    requires forall x | x in xs :: f(x) >= 0.0
    ensures Sum(xs, f) >= 0.0
    ensures Sum(xs, f) == 0.0 <==> forall x | x in xs :: f(x) == 0.0
  {
    if xs != [] {
      SumNonnegative(xs[1..], f);
      assert forall x | x in xs :: x == xs[0] || x in xs[1..];
    }
  }

  /** On xs, h is the combination a f + b g. */
  ghost predicate Combines<T>(xs: seq<T>, a: real, f: T -> real, b: real, g: T -> real, h: T -> real) {
    forall x | x in xs :: h(x) == a * f(x) + b * g(x)
  }

  /** The sum of a combination is the combination of the sums. */
  lemma {:induction false} SumLinear<T>(xs: seq<T>, a: real, f: T -> real, b: real, g: T -> real, h: T -> real)
    requires Combines(xs, a, f, b, g, h)
    ensures Sum(xs, h) == a * Sum(xs, f) + b * Sum(xs, g)
  {
    if xs != [] {
      SumLinear(xs[1..], a, f, b, g, h);
    }
  }

  lemma {:induction false} SumConstant<T>(xs: seq<T>, c: real, f: T -> real)
    requires forall x | x in xs :: f(x) == c
    ensures Sum(xs, f) == |xs| as real * c
  {
    if xs != [] {
      SumConstant(xs[1..], c, f);
      assert |xs| as real == |xs[1..]| as real + 1.0;
    }
  }

  lemma {:induction false} SumAppend<T>(xs: seq<T>, ys: seq<T>, f: T -> real)
    ensures Sum(xs + ys, f) == Sum(xs, f) + Sum(ys, f)
  {
    if xs == [] {
      assert xs + ys == ys;
    } else {
      assert (xs + ys)[1..] == xs[1..] + ys;
      SumAppend(xs[1..], ys, f);
    }
  }

  lemma MultisetSplit<T>(a: seq<T>, x: T, b: seq<T>)
    ensures multiset(a + ([x] + b)) == multiset(a + b) + multiset{x}
  {
    assert multiset(a + ([x] + b)) == multiset(a) + multiset([x] + b);
    assert multiset([x] + b) == multiset{x} + multiset(b);
  }

  lemma PullOutOfSum<T>(a: seq<T>, x: T, b: seq<T>, f: T -> real)
    ensures Sum(a + ([x] + b), f) == f(x) + Sum(a + b, f)
  {
    assert ([x] + b)[1..] == b;
    SumAppend(a, [x] + b, f);
    SumAppend(a, b, f);
  }

  /** A sum as one of its terms and the rest, which keeps the other elements. */
  lemma PullOut<T>(ys: seq<T>, x: T, f: T -> real) returns (rest: seq<T>)
    requires x in ys
    ensures multiset(ys) == multiset(rest) + multiset{x}
    ensures Sum(ys, f) == f(x) + Sum(rest, f)
  {
    var k :| 0 <= k < |ys| && ys[k] == x;
    var a, b := ys[..k], ys[k + 1..];
    assert ys == a + ([x] + b);
    MultisetSplit(a, x, b);
    PullOutOfSum(a, x, b, f);
    rest := a + b;
  }

  lemma Cancel<T>(a: multiset<T>, b: multiset<T>, x: T)
    requires a + multiset{x} == b + multiset{x}
    ensures a == b
  {
    assert a == a + multiset{x} - multiset{x};
    assert b == b + multiset{x} - multiset{x};
  }

  /** Takes the first term of xs out of a permutation of xs. */
  lemma MatchFirst<T>(xs: seq<T>, ys: seq<T>, f: T -> real) returns (rest: seq<T>)
    requires xs != [] && multiset(xs) == multiset(ys)
    ensures multiset(xs[1..]) == multiset(rest)
    ensures Sum(ys, f) == f(xs[0]) + Sum(rest, f)
  {
    assert xs[0] in multiset(ys);
    rest := PullOut(ys, xs[0], f);
    assert xs == [xs[0]] + xs[1..];
    assert multiset(xs) == multiset(xs[1..]) + multiset{xs[0]};
    Cancel(multiset(xs[1..]), multiset(rest), xs[0]);
  }

  /** The order of the terms does not matter. */
  lemma {:induction false} SumPermuted<T>(xs: seq<T>, ys: seq<T>, f: T -> real)
    requires multiset(xs) == multiset(ys)
    ensures Sum(xs, f) == Sum(ys, f)
  {
    if xs == [] {
      assert |ys| == |multiset(ys)| == 0;
    } else {
      var rest := MatchFirst(xs, ys, f);
      SumPermuted(xs[1..], rest, f);
    }
  }
}
