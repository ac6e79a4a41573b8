/**
  The trigonometric functions the position query calls, as parameters with the few laws
  the geometry needs. Everything else (Pythagoras, parity, periodicity, signs, the order
  of the sine) is derived below, in degrees.
*/
module Trigonometry {
  import opened RealArithmetic

  datatype Functions = Functions(
    pi: real,
    sin: real -> real,
    cos: real -> real,
    asin: real -> real,
    acos: real -> real)

  type Trig = t: Functions | t.pi > 0.0
    witness Functions(3.0, x => x, x => x, x => x, x => x)

  ghost predicate DifferenceLaw(t: Trig, a: real, b: real) {
    t.cos(a - b) == t.cos(a) * t.cos(b) + t.sin(a) * t.sin(b)
  }

  ghost predicate DecreasingLaw(t: Trig, a: real, b: real) {
    0.0 <= a < b <= t.pi ==> t.cos(a) > t.cos(b)
  }

  ghost predicate ArcCosineLaw(t: Trig, c: real) {
    -1.0 <= c <= 1.0 ==> 0.0 <= t.acos(c) <= t.pi && t.cos(t.acos(c)) == c
  }

  ghost predicate ArcSineLaw(t: Trig, s: real) {
    -1.0 <= s <= 1.0 ==> -t.pi / 2.0 <= t.asin(s) <= t.pi / 2.0 && t.sin(t.asin(s)) == s
  }

  ghost predicate Laws(t: Trig) {
    && t.cos(0.0) == 1.0
    && t.cos(t.pi / 2.0) == 0.0
    && t.sin(t.pi / 2.0) == 1.0
    && (forall a, b {:trigger DifferenceLaw(t, a, b)} :: DifferenceLaw(t, a, b))
    && (forall a, b {:trigger DecreasingLaw(t, a, b)} :: DecreasingLaw(t, a, b))
    && (forall c {:trigger ArcCosineLaw(t, c)} :: ArcCosineLaw(t, c))
    && (forall s {:trigger ArcSineLaw(t, s)} :: ArcSineLaw(t, s))
  }

  function Radians(t: Trig, degrees: real): real {
    degrees * (t.pi / 180.0)
  }

  function Sin(t: Trig, degrees: real): real {
    t.sin(Radians(t, degrees))
  }

  function Cos(t: Trig, degrees: real): real {
    t.cos(Radians(t, degrees))
  }

  lemma RadiansOrder(t: Trig, a: real, b: real)
    ensures a < b <==> Radians(t, a) < Radians(t, b)
  {
    ScaleOrder(a, b, t.pi / 180.0, Radians(t, a), Radians(t, b));
  }

  lemma RadiansConstants(t: Trig)
    ensures Radians(t, 0.0) == 0.0
    ensures Radians(t, 90.0) == t.pi / 2.0
    ensures Radians(t, 180.0) == t.pi
  {
  }

  lemma SpecialAngles(t: Trig)
    requires Laws(t)
    ensures Cos(t, 0.0) == 1.0 && Cos(t, 90.0) == 0.0 && Sin(t, 90.0) == 1.0
  {
    RadiansConstants(t);
  }

  lemma CosDifference(t: Trig, a: real, b: real)
    requires Laws(t)
    ensures Cos(t, a - b) == Cos(t, a) * Cos(t, b) + Sin(t, a) * Sin(t, b)
  {
    assert DifferenceLaw(t, Radians(t, a), Radians(t, b));
    assert Radians(t, a - b) == Radians(t, a) - Radians(t, b);
  }

  lemma CosDecreasing(t: Trig, a: real, b: real)
    requires Laws(t)
    requires 0.0 <= a < b <= 180.0
    ensures Cos(t, a) > Cos(t, b)
  {
    RadiansConstants(t);
    RadiansOrder(t, a, 0.0);
    RadiansOrder(t, a, b);
    RadiansOrder(t, 180.0, b);
    assert DecreasingLaw(t, Radians(t, a), Radians(t, b));
  }

  lemma UnitCircle(t: Trig, a: real)
    requires Laws(t)
    ensures Sin(t, a) * Sin(t, a) + Cos(t, a) * Cos(t, a) == 1.0
  {
    CosDifference(t, a, a);
    SpecialAngles(t);
  }

  lemma CosRange(t: Trig, a: real)
    requires Laws(t)
    ensures -1.0 <= Cos(t, a) <= 1.0 && -1.0 <= Sin(t, a) <= 1.0
  {
    UnitCircle(t, a);
    AtMostOne(Cos(t, a), Sin(t, a));
    AtMostOne(Sin(t, a), Cos(t, a));
  }

  lemma CosEven(t: Trig, a: real)
    requires Laws(t)
    ensures Cos(t, -a) == Cos(t, a)
  {
    SpecialAngles(t);
    UnitCircle(t, 0.0);
    Square(Sin(t, 0.0), 0.0);
    CosDifference(t, 0.0, a);
    assert 0.0 - a == -a;
  }

  /** The sine is the cosine of the complement. */
  lemma SinComplement(t: Trig, a: real)
    requires Laws(t)
    ensures Cos(t, 90.0 - a) == Sin(t, a)
  {
    SpecialAngles(t);
    CosDifference(t, 90.0, a);
  }

  lemma StraightAngle(t: Trig)
    requires Laws(t)
    ensures Cos(t, 180.0) == -1.0 && Sin(t, 180.0) == 0.0
    ensures Sin(t, -90.0) == -1.0 && Cos(t, -90.0) == 0.0
  {
    SpecialAngles(t);
    CosEven(t, 90.0);
    SinComplement(t, -90.0);
    assert 90.0 - -90.0 == 180.0;
    CosDecreasing(t, 90.0, 180.0);
    UnitCircle(t, -90.0);
    NegativeUnit(Sin(t, -90.0));
    UnitCircle(t, 180.0);
    Square(Sin(t, 180.0), 0.0);
  }

  lemma SinOdd(t: Trig, a: real)
    requires Laws(t)
    ensures Sin(t, -a) == -Sin(t, a)
  {
    StraightAngle(t);
    SinComplement(t, -a);
    CosDifference(t, a, -90.0);
    assert a - -90.0 == 90.0 - -a;
  }

  /** A half turn flips the sign, so a full turn changes nothing. */
  lemma CosFullTurn(t: Trig, a: real)
    requires Laws(t)
    ensures Cos(t, a - 360.0) == Cos(t, a) && Cos(t, a + 360.0) == Cos(t, a)
  {
    StraightAngle(t);
    CosDifference(t, a, 180.0);
    CosDifference(t, a - 180.0, 180.0);
    assert a - 180.0 - 180.0 == a - 360.0;
    CosDifference(t, a + 360.0, 180.0);
    CosDifference(t, a + 180.0, 180.0);
    assert a + 360.0 - 180.0 == a + 180.0;
    assert a + 180.0 - 180.0 == a;
  }

  lemma CosReflectsOrder(t: Trig, a: real, b: real)
    requires Laws(t)
    requires 0.0 <= a <= 180.0 && 0.0 <= b <= 180.0
    ensures a <= b <==> Cos(t, a) >= Cos(t, b)
  {
    if a < b {
      CosDecreasing(t, a, b);
    } else if b < a {
      CosDecreasing(t, b, a);
    }
  }

  lemma CosAbs(t: Trig, a: real)
    requires Laws(t)
    ensures Cos(t, Abs(a)) == Cos(t, a)
  {
    CosEven(t, a);
  }

  /** Within half a turn, the cosine is positive exactly within a right angle. */
  lemma CosSign(t: Trig, a: real)
    requires Laws(t)
    requires Abs(a) <= 180.0
    ensures Cos(t, a) > 0.0 <==> Abs(a) < 90.0
    ensures Cos(t, a) >= 0.0 <==> Abs(a) <= 90.0
  {
    SpecialAngles(t);
    CosAbs(t, a);
    CosReflectsOrder(t, Abs(a), 90.0);
    CosReflectsOrder(t, 90.0, Abs(a));
  }

  lemma SinReflectsOrder(t: Trig, a: real, b: real)
    requires Laws(t)
    requires -90.0 <= a <= 90.0 && -90.0 <= b <= 90.0
    ensures a <= b <==> Sin(t, a) <= Sin(t, b)
  {
    SinComplement(t, a);
    SinComplement(t, b);
    CosReflectsOrder(t, 90.0 - b, 90.0 - a);
  }

  lemma SinZero(t: Trig)
    requires Laws(t)
    ensures Sin(t, 0.0) == 0.0
  {
    SinComplement(t, 0.0);
    SpecialAngles(t);
  }

  lemma SinAbs(t: Trig, a: real)
    requires Laws(t)
    requires Abs(a) <= 90.0
    ensures Abs(Sin(t, a)) == Sin(t, Abs(a))
  {
    SinOdd(t, a);
    SinZero(t);
    SinReflectsOrder(t, 0.0, Abs(a));
  }

  function ArcCosine(t: Trig, c: real): real
  {
    t.acos(c) / (t.pi / 180.0)
  }

  function ArcSine(t: Trig, s: real): real
  {
    t.asin(s) / (t.pi / 180.0)
  }

  lemma RadiansInverse(t: Trig, r: real)
    ensures Radians(t, r / (t.pi / 180.0)) == r
  {
  }

  lemma ArcCosineInverse(t: Trig, c: real)
    requires Laws(t)
    requires -1.0 <= c <= 1.0
    ensures 0.0 <= ArcCosine(t, c) <= 180.0 && Cos(t, ArcCosine(t, c)) == c
  {
    assert ArcCosineLaw(t, c);
    RadiansInverse(t, t.acos(c));
    RadiansConstants(t);
    RadiansOrder(t, ArcCosine(t, c), 0.0);
    RadiansOrder(t, 180.0, ArcCosine(t, c));
  }

  lemma ArcSineInverse(t: Trig, s: real)
    requires Laws(t)
    requires -1.0 <= s <= 1.0
    ensures -90.0 <= ArcSine(t, s) <= 90.0 && Sin(t, ArcSine(t, s)) == s
  {
    assert ArcSineLaw(t, s);
    RadiansInverse(t, t.asin(s));
    RadiansConstants(t);
    assert Radians(t, -90.0) == -t.pi / 2.0;
    RadiansOrder(t, ArcSine(t, s), -90.0);
    RadiansOrder(t, 90.0, ArcSine(t, s));
  }
}
