/**
  Order facts about products of reals. Each product is passed in under a name of its own:
  the solver then meets one fresh variable instead of a nonlinear term.
*/
module RealArithmetic {

  /** Absolute value, spelled out because the language has none for reals. */
  function Abs(x: real): (r: real)
    ensures r >= 0.0 && (r == x || r == -x)
  {
    if x < 0.0 then -x else x
  }

  lemma Positive(a: real, b: real, p: real)
    requires a > 0.0 && b > 0.0 && p == a * b
    ensures p > 0.0
  {
  }

  lemma Nonnegative(a: real, b: real, p: real)
    requires a >= 0.0 && b >= 0.0 && p == a * b
    ensures p >= 0.0
  {
  }

  lemma Square(x: real, s: real)
    requires s == x * x
    ensures s >= 0.0
    ensures s == 0.0 <==> x == 0.0
  {
    if x > 0.0 {
      Positive(x, x, s);
    } else if x < 0.0 {
      Positive(-x, -x, s);
    }
  }

  lemma SquareOrder(x: real, y: real, s: real, r: real)
    requires s == x * x && r == y * y && x >= 0.0 && y >= 0.0
    ensures x <= y <==> s <= r
    ensures x < y <==> s < r
  {
    if x < y {
      Positive(y - x, y + x, r - s);
    } else if y < x {
      Positive(x - y, y + x, s - r);
    }
  }

  lemma AtMostOne(x: real, y: real)
    requires x * x + y * y == 1.0
    ensures -1.0 <= x <= 1.0
  {
    Square(y, y * y);
    if x > 1.0 {
      SquareOrder(1.0, x, 1.0, x * x);
    }
    if x < -1.0 {
      SquareOrder(1.0, -x, 1.0, x * x);
    }
  }

  lemma NegativeUnit(x: real)
    requires x * x == 1.0 && x < 0.0
    ensures x == -1.0
  {
    SquareOrder(1.0, -x, 1.0, 1.0);
    SquareOrder(-x, 1.0, 1.0, 1.0);
  }

  /** Multiplying by a positive factor keeps the order, both ways. */
  lemma ScaleOrder(a: real, b: real, c: real, p: real, q: real)
    requires p == a * c && q == b * c && c > 0.0
    ensures p <= q <==> a <= b
    ensures p < q <==> a < b
  {
    if a < b {
      Positive(b - a, c, q - p);
    } else if b < a {
      Positive(a - b, c, p - q);
    }
  }

  lemma QuotientProduct(a: real, b: real)
    requires b != 0.0
    ensures (a / b) * b == a
  {
  }
}
