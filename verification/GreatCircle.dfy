/**
  Great-circle distance and the longitude prefilter built around a query point.

  Soundness rests on one inequality: for unit vectors, Cauchy-Schwarz bounds the
  longitude offset of any point within the radius.
*/
module GreatCircle {
  import opened RealArithmetic
  import opened Trigonometry

  function Min(a: real, b: real): real { if a <= b then a else b }

  function Max(a: real, b: real): real { if a >= b then a else b }

  function DistanceCosine(t: Trig, lon1: real, lat1: real, lon2: real, lat2: real): real {
    Sin(t, lat1) * Sin(t, lat2) + Cos(t, lat1) * Cos(t, lat2) * Cos(t, lon2 - lon1)
  }

  function AngularDistanceDegrees(t: Trig, lon1: real, lat1: real, lon2: real, lat2: real): real
  {
    ArcCosine(t, Min(1.0, Max(-1.0, DistanceCosine(t, lon1, lat1, lon2, lat2))))
  }

  /** What the route has validated before it asks for ranges. */
  ghost predicate ValidCircle(lon: real, lat: real, within: real) {
    -180.0 <= lon <= 180.0 && -90.0 <= lat <= 90.0 && 0.0 < within <= 45.0
  }

  predicate ReachesPole(t: Trig, lat: real, within: real) {
    Abs(Radians(t, lat)) + Radians(t, within) >= t.pi / 2.0
  }

  lemma ReachesPoleInDegrees(t: Trig, lat: real, within: real)
    requires Laws(t)
    ensures ReachesPole(t, lat, within) <==> Abs(lat) + within >= 90.0
  {
    RadiansConstants(t);
    RadiansOrder(t, Abs(lat) + within, 90.0);
    RadiansOrder(t, lat, 0.0);
    assert Radians(t, -lat) == -Radians(t, lat);
    assert Radians(t, Abs(lat) + within) == Radians(t, Abs(lat)) + Radians(t, within);
  }

  /** Away from the poles the circle's half-width has a sine below one. */
  lemma AwayFromPole(t: Trig, lat: real, within: real)
    requires Laws(t)
    requires -90.0 <= lat <= 90.0 && 0.0 < within <= 45.0
    requires !ReachesPole(t, lat, within)
    ensures 0.0 < Sin(t, within) < Cos(t, lat)
    ensures Abs(Sin(t, lat)) < Cos(t, within)
  {
    ReachesPoleInDegrees(t, lat, within);
    SinZero(t);
    SinReflectsOrder(t, within, 0.0);
    CosAbs(t, lat);
    SinComplement(t, within);
    SinComplement(t, 90.0 - Abs(lat));
    assert 90.0 - (90.0 - Abs(lat)) == Abs(lat);
    SinReflectsOrder(t, 90.0 - Abs(lat), within);
    SinAbs(t, lat);
    SinComplement(t, Abs(lat));
    SinComplement(t, 90.0 - within);
    assert 90.0 - (90.0 - within) == within;
    SinReflectsOrder(t, 90.0 - within, Abs(lat));
  }

  function LongitudeRadius(t: Trig, lat: real, within: real): real
    requires Laws(t)
    requires -90.0 <= lat <= 90.0 && 0.0 < within <= 45.0
  {
    if ReachesPole(t, lat, within) then 180.0
    else
      AwayFromPole(t, lat, within);
      ArcSine(t, Min(1.0, Sin(t, within) / Cos(t, lat)))
  }

  function LongitudeRanges(t: Trig, lon: real, lat: real, within: real): (ranges: seq<(real, real)>)
    requires Laws(t)
    requires ValidCircle(lon, lat, within)
  {
    var radius := LongitudeRadius(t, lat, within);
    if radius >= 180.0 then [(-180.0, 180.0)]
    else
      var minimum := lon - radius;
      var maximum := lon + radius;
      if minimum < -180.0 then [(minimum + 360.0, 180.0), (-180.0, maximum)]
      else if maximum > 180.0 then [(minimum, 180.0), (-180.0, maximum - 360.0)]
      else [(minimum, maximum)]
  }

  predicate InRanges(ranges: seq<(real, real)>, lon: real) {
    exists k | 0 <= k < |ranges| :: ranges[k].0 <= lon <= ranges[k].1
  }

  /** An unsplit range that ends exactly on the antimeridian knows only one of its two spellings. */
  predicate EndsOnAntimeridian(t: Trig, lon: real, lat: real, within: real)
    requires Laws(t)
    requires ValidCircle(lon, lat, within)
  {
    && !ReachesPole(t, lat, within)
    && (|| lon + LongitudeRadius(t, lat, within) == 180.0
        || lon - LongitudeRadius(t, lat, within) == -180.0)
  }

  /** The observation spelled with the sign the range does not know. */
  predicate Respelled(t: Trig, lon: real, lat: real, within: real, obsLon: real)
    requires Laws(t)
    requires ValidCircle(lon, lat, within)
  {
    && !ReachesPole(t, lat, within)
    && (|| (lon + LongitudeRadius(t, lat, within) == 180.0 && obsLon == -180.0)
        || (lon - LongitudeRadius(t, lat, within) == -180.0 && obsLon == 180.0))
  }

  // ---------------------------------------------------------------- distance against cosine

  lemma DistanceWithin(t: Trig, lon1: real, lat1: real, lon2: real, lat2: real, within: real)
    requires Laws(t)
    requires 0.0 < within <= 45.0
    ensures AngularDistanceDegrees(t, lon1, lat1, lon2, lat2) <= within
            <==> DistanceCosine(t, lon1, lat1, lon2, lat2) >= Cos(t, within)
    ensures AngularDistanceDegrees(t, lon1, lat1, lon2, lat2) < within
            <==> DistanceCosine(t, lon1, lat1, lon2, lat2) > Cos(t, within)
  {
    var c := Min(1.0, Max(-1.0, DistanceCosine(t, lon1, lat1, lon2, lat2)));
    ArcCosineInverse(t, c);
    CosReflectsOrder(t, ArcCosine(t, c), within);
    CosReflectsOrder(t, within, ArcCosine(t, c));
    SpecialAngles(t);
    CosDecreasing(t, 0.0, within);
    CosSign(t, within);
  }

  lemma CosineNonnegative(t: Trig, lat: real)
    requires Laws(t)
    requires -90.0 <= lat <= 90.0
    ensures Cos(t, lat) >= 0.0
  {
    CosSign(t, lat);
  }

  // ---------------------------------------------------------------- the latitude box

  lemma LatitudeBand(t: Trig, lon1: real, lat1: real, lon2: real, lat2: real, within: real)
    requires Laws(t)
    requires -90.0 <= lat1 <= 90.0 && -90.0 <= lat2 <= 90.0 && 0.0 < within <= 45.0
    requires DistanceCosine(t, lon1, lat1, lon2, lat2) >= Cos(t, within)
    ensures Abs(lat2 - lat1) <= within
  {
    var k := Cos(t, lon2 - lon1);
    var cc := Cos(t, lat1) * Cos(t, lat2);
    CosineNonnegative(t, lat1);
    CosineNonnegative(t, lat2);
    Nonnegative(Cos(t, lat1), Cos(t, lat2), cc);
    CosRange(t, lon2 - lon1);
    Nonnegative(cc, 1.0 - k, cc * (1.0 - k));
    CosDifference(t, lat2, lat1);
    assert Cos(t, lat2 - lat1) >= Cos(t, within);
    CosAbs(t, lat2 - lat1);
    CosReflectsOrder(t, Abs(lat2 - lat1), within);
  }

  // ---------------------------------------------------------------- the longitude ranges

  /** Cauchy-Schwarz against a unit vector. */
  lemma CauchySchwarz(a: real, b: real, s: real, c: real, d: real)
    requires s * s + c * c == 1.0
    requires d == a * s + b * c
    ensures d * d <= a * a + b * b
  {
    var e := a * c - b * s;
    Square(e, e * e);
    assert d * d + e * e == (a * a + b * b) * (s * s + c * c);
  }

  /** The longitude offset of any point within the radius, as a bound on its sine. */
  lemma OffsetSine(t: Trig, lat1: real, lat2: real, k: real, within: real, c: real)
    requires Laws(t)
    requires 0.0 < within <= 45.0
    requires c == Cos(t, lat1) * k
    requires Sin(t, lat1) * Sin(t, lat2) + c * Cos(t, lat2) >= Cos(t, within)
    ensures Cos(t, lat1) * Cos(t, lat1) - c * c <= Sin(t, within) * Sin(t, within)
  {
    var d := Sin(t, lat1) * Sin(t, lat2) + c * Cos(t, lat2);
    UnitCircle(t, lat1);
    UnitCircle(t, lat2);
    UnitCircle(t, within);
    CauchySchwarz(Sin(t, lat1), c, Sin(t, lat2), Cos(t, lat2), d);
    CosSign(t, within);
    SquareOrder(Cos(t, within), d, Cos(t, within) * Cos(t, within), d * d);
  }

  lemma OffsetFacesForward(t: Trig, lat1: real, lat2: real, k: real, within: real)
    requires Laws(t)
    requires -90.0 <= lat1 <= 90.0 && -90.0 <= lat2 <= 90.0 && 0.0 < within <= 45.0
    requires !ReachesPole(t, lat1, within)
    requires Sin(t, lat1) * Sin(t, lat2) + Cos(t, lat1) * Cos(t, lat2) * k >= Cos(t, within)
    ensures k > 0.0
  {
    AwayFromPole(t, lat1, within);
    CosineNonnegative(t, lat2);
    var cc := Cos(t, lat1) * Cos(t, lat2);
    Nonnegative(Cos(t, lat1), Cos(t, lat2), cc);
    var ss := Sin(t, lat1) * Sin(t, lat2);
    ProductBound(Sin(t, lat1), Sin(t, lat2), ss) by {
      CosRange(t, lat2);
    }
    if k <= 0.0 {
      Nonnegative(cc, -k, -(cc * k));
    }
  }

  lemma ProductBound(a: real, b: real, p: real)
    requires p == a * b && -1.0 <= b <= 1.0
    ensures p <= Abs(a)
  {
    if a >= 0.0 {
      Nonnegative(a, 1.0 - b, a - p);
    } else {
      Nonnegative(-a, 1.0 + b, -a - p);
    }
  }

  lemma RadiusSine(t: Trig, lat: real, within: real)
    requires Laws(t)
    requires -90.0 <= lat <= 90.0 && 0.0 < within <= 45.0
    requires !ReachesPole(t, lat, within)
    ensures var r := LongitudeRadius(t, lat, within);
      0.0 < r < 90.0 && Sin(t, r) * Cos(t, lat) == Sin(t, within) && Sin(t, r) > 0.0
  {
    AwayFromPole(t, lat, within);
    var ratio := Sin(t, within) / Cos(t, lat);
    QuotientProduct(Sin(t, within), Cos(t, lat));
    ScaleOrder(ratio, 1.0, Cos(t, lat), Sin(t, within), Cos(t, lat));
    ScaleOrder(ratio, 0.0, Cos(t, lat), Sin(t, within), 0.0);
    var r := LongitudeRadius(t, lat, within);
    assert r == ArcSine(t, ratio);
    ArcSineInverse(t, ratio);
    SinZero(t);
    SinReflectsOrder(t, r, 0.0);
    SpecialAngles(t);
    SinReflectsOrder(t, 90.0, r);
  }

  /** An offset within half a turn is within the radius once its cosine is. */
  lemma OffsetWithinRadius(t: Trig, lat1: real, lat2: real, offset: real, k: real, within: real)
    requires Laws(t)
    requires -90.0 <= lat1 <= 90.0 && -90.0 <= lat2 <= 90.0 && 0.0 < within <= 45.0
    requires !ReachesPole(t, lat1, within)
    requires Abs(offset) <= 180.0 && k == Cos(t, offset)
    requires Sin(t, lat1) * Sin(t, lat2) + Cos(t, lat1) * Cos(t, lat2) * k >= Cos(t, within)
    ensures Abs(offset) <= LongitudeRadius(t, lat1, within)
  {
    var c0, r := Cos(t, lat1), LongitudeRadius(t, lat1, within);
    AwayFromPole(t, lat1, within);
    OffsetFacesForward(t, lat1, lat2, k, within);
    CosSign(t, offset);
    OffsetSine(t, lat1, lat2, k, within, c0 * k);
    RadiusSine(t, lat1, within);
    // c0^2 (1 - k^2) <= (c0 sin r)^2, so sin |offset| <= sin r.
    var o := Sin(t, Abs(offset));
    UnitCircle(t, Abs(offset));
    CosAbs(t, offset);
    SinZero(t);
    SinReflectsOrder(t, 0.0, Abs(offset));
    var left, right := o * c0, Sin(t, r) * c0;
    Nonnegative(o, c0, left);
    assert left * left == c0 * c0 - (c0 * k) * (c0 * k) by {
      assert left * left == (o * o) * (c0 * c0);
      assert o * o == 1.0 - k * k;
    }
    SquareOrder(left, right, left * left, right * right);
    ScaleOrder(o, Sin(t, r), c0, left, right);
    SinReflectsOrder(t, Abs(offset), r);
  }

  /** Two longitudes differ by an offset of at most half a turn, up to one full turn. */
  function Offset(lon: real, obsLon: real): (offset: real)
    requires -180.0 <= lon <= 180.0 && -180.0 <= obsLon <= 180.0
    ensures Abs(offset) <= 180.0
  {
    var difference := obsLon - lon;
    if difference > 180.0 then difference - 360.0
    else if difference < -180.0 then difference + 360.0
    else difference
  }

  lemma OffsetCosine(t: Trig, lon: real, obsLon: real)
    requires Laws(t)
    requires -180.0 <= lon <= 180.0 && -180.0 <= obsLon <= 180.0
    ensures Cos(t, Offset(lon, obsLon)) == Cos(t, obsLon - lon)
  {
    CosFullTurn(t, obsLon - lon);
  }

  lemma OffsetNear(t: Trig, lon: real, lat: real, obsLon: real, obsLat: real, within: real)
    requires Laws(t)
    requires ValidCircle(lon, lat, within)
    requires -180.0 <= obsLon <= 180.0 && -90.0 <= obsLat <= 90.0
    requires !ReachesPole(t, lat, within)
    requires DistanceCosine(t, lon, lat, obsLon, obsLat) >= Cos(t, within)
    ensures Abs(Offset(lon, obsLon)) <= LongitudeRadius(t, lat, within)
  {
    var k := Cos(t, Offset(lon, obsLon));
    OffsetCosine(t, lon, obsLon);
    assert Sin(t, lat) * Sin(t, obsLat) + Cos(t, lat) * Cos(t, obsLat) * k >= Cos(t, within);
    OffsetWithinRadius(t, lat, obsLat, Offset(lon, obsLon), k, within);
  }

  /** The ranges are exactly the longitudes within the radius, but for the unknown spelling. */
  lemma RangesAreExact(t: Trig, lon: real, lat: real, within: real, obsLon: real)
    requires Laws(t)
    requires ValidCircle(lon, lat, within)
    requires -180.0 <= obsLon <= 180.0
    ensures InRanges(LongitudeRanges(t, lon, lat, within), obsLon)
            <==> Abs(Offset(lon, obsLon)) <= LongitudeRadius(t, lat, within)
                 && !Respelled(t, lon, lat, within, obsLon)
  {
    var r := LongitudeRadius(t, lat, within);
    var ranges := LongitudeRanges(t, lon, lat, within);
    if ReachesPole(t, lat, within) {
      assert ranges[0].0 <= obsLon <= ranges[0].1;
    } else {
      RadiusSine(t, lat, within);
      if |ranges| == 1 {
        assert InRanges(ranges, obsLon) <==> ranges[0].0 <= obsLon <= ranges[0].1;
      } else {
        assert InRanges(ranges, obsLon)
          <==> ranges[0].0 <= obsLon <= ranges[0].1 || ranges[1].0 <= obsLon <= ranges[1].1;
      }
    }
  }

  // ---------------------------------------------------------------- the edge of the ranges

  /** The latitude at which the circle touches its extreme meridian. */
  function TangentLatitude(t: Trig, lat: real, within: real): real
    requires Laws(t)
    requires -90.0 <= lat <= 90.0 && 0.0 < within <= 45.0
    requires !ReachesPole(t, lat, within)
  {
    AwayFromPole(t, lat, within);
    ArcSine(t, Sin(t, lat) / Cos(t, within))
  }

  lemma TangentSine(t: Trig, lat: real, within: real)
    requires Laws(t)
    requires -90.0 <= lat <= 90.0 && 0.0 < within <= 45.0
    requires !ReachesPole(t, lat, within)
    ensures var tangent := TangentLatitude(t, lat, within);
      -90.0 <= tangent <= 90.0 && Sin(t, tangent) * Cos(t, within) == Sin(t, lat)
  {
    AwayFromPole(t, lat, within);
    var cw := Cos(t, within);
    var ratio := Sin(t, lat) / cw;
    QuotientProduct(Sin(t, lat), cw);
    ScaleOrder(ratio, 1.0, cw, Sin(t, lat), cw);
    ScaleOrder(-1.0, ratio, cw, -cw, Sin(t, lat));
    ArcSineInverse(t, ratio);
  }

  /** The product of the four cosines at the point of tangency. */
  lemma TangentProduct(c0: real, cr: real, ct: real, cw: real, q: real,
                       s0: real, sr: real, st: real, sw: real)
    requires c0 >= 0.0 && cr >= 0.0 && ct >= 0.0 && cw >= 0.0
    requires s0 * s0 + c0 * c0 == 1.0 && sr * sr + cr * cr == 1.0
    requires st * st + ct * ct == 1.0 && sw * sw + cw * cw == 1.0
    requires sr * c0 == sw && st * cw == s0
    requires q == cw * cw - s0 * s0
    ensures (c0 * cr) * (ct * cw) == q
  {
    var a, b := c0 * cr, ct * cw;
    Nonnegative(c0, cr, a);
    Nonnegative(ct, cw, b);
    assert a * a == q by {
      assert a * a == (c0 * c0) * (cr * cr);
      assert (c0 * c0) * (1.0 - sr * sr) == c0 * c0 - (sr * c0) * (sr * c0);
    }
    assert b * b == q by {
      assert b * b == (ct * ct) * (cw * cw);
      assert (1.0 - st * st) * (cw * cw) == cw * cw - (st * cw) * (st * cw);
    }
    SquareOrder(a, b, q, q);
    SquareOrder(b, a, q, q);
  }

  lemma TangentTotal(c0: real, cr: real, ct: real, cw: real, s0: real, sr: real, st: real, sw: real)
    requires c0 >= 0.0 && cr >= 0.0 && ct >= 0.0 && cw > 0.0
    requires s0 * s0 + c0 * c0 == 1.0 && sr * sr + cr * cr == 1.0
    requires st * st + ct * ct == 1.0 && sw * sw + cw * cw == 1.0
    requires sr * c0 == sw && st * cw == s0
    ensures s0 * st + c0 * ct * cr == cw
  {
    var total := s0 * st + c0 * ct * cr;
    TangentProduct(c0, cr, ct, cw, cw * cw - s0 * s0, s0, sr, st, sw);
    assert total * cw == s0 * (st * cw) + (c0 * cr) * (ct * cw);
    ScaleOrder(total, cw, cw, cw * cw, cw * cw);
    ScaleOrder(cw, total, cw, cw * cw, cw * cw);
  }

  lemma Coordinates(t: Trig, a: real) returns (s: real, c: real)
    requires Laws(t)
    requires -90.0 <= a <= 90.0
    ensures s == Sin(t, a) && c == Cos(t, a) && c >= 0.0 && s * s + c * c == 1.0
  {
    s, c := Sin(t, a), Cos(t, a);
    UnitCircle(t, a);
    CosineNonnegative(t, a);
  }

  lemma TangentDistance(t: Trig, lat: real, within: real)
    requires Laws(t)
    requires -90.0 <= lat <= 90.0 && 0.0 < within <= 45.0
    requires !ReachesPole(t, lat, within)
    ensures var tangent := TangentLatitude(t, lat, within);
      Sin(t, lat) * Sin(t, tangent)
      + Cos(t, lat) * Cos(t, tangent) * Cos(t, LongitudeRadius(t, lat, within)) == Cos(t, within)
  {
    var tangent, r := TangentLatitude(t, lat, within), LongitudeRadius(t, lat, within);
    TangentSine(t, lat, within);
    RadiusSine(t, lat, within);
    var s0, c0 := Coordinates(t, lat);
    var st, ct := Coordinates(t, tangent);
    var sr, cr := Coordinates(t, r);
    var sw, cw := Coordinates(t, within);
    CosSign(t, within);
    TangentTotal(c0, cr, ct, cw, s0, sr, st, sw);
  }

  /** Cauchy-Schwarz at the edge: no point there is nearer than the tangent point, and no other as near. */
  lemma EdgeCosine(s0: real, a: real, s2: real, c2: real, cw: real, d: real)
    requires cw > 0.0 && s0 * s0 + a * a == cw * cw && s2 * s2 + c2 * c2 == 1.0
    requires d == s0 * s2 + a * c2
    ensures d <= cw
    ensures d == cw ==> s2 * cw == s0
  {
    var e := s0 * c2 - a * s2;
    Square(e, e * e);
    assert d * d + e * e == (s0 * s0 + a * a) * (s2 * s2 + c2 * c2);
    if d > cw {
      SquareOrder(cw, d, cw * cw, d * d);
    }
    if d == cw {
      assert e * e == 0.0;
      EdgeContact(s0, a, s2, c2, d);
    }
  }

  /** Parallel to a unit vector, a vector is its length along it. */
  lemma EdgeContact(s0: real, a: real, s2: real, c2: real, d: real)
    requires s2 * s2 + c2 * c2 == 1.0 && d == s0 * s2 + a * c2 && s0 * c2 == a * s2
    ensures s2 * d == s0
  {
    assert s2 * d == s0 * (s2 * s2) + (a * s2) * c2;
    assert (a * s2) * c2 == s0 * (c2 * c2);
    assert s0 * (s2 * s2) + s0 * (c2 * c2) == s0 * (s2 * s2 + c2 * c2);
  }

  lemma EdgeSquares(s0: real, c0: real, sr: real, cr: real, sw: real, cw: real)
    requires s0 * s0 + c0 * c0 == 1.0 && sr * sr + cr * cr == 1.0 && sw * sw + cw * cw == 1.0 && sr * c0 == sw
    ensures s0 * s0 + (c0 * cr) * (c0 * cr) == cw * cw
  {
    assert (c0 * cr) * (c0 * cr) == (c0 * c0) * (cr * cr);
    assert (c0 * c0) * (1.0 - sr * sr) == c0 * c0 - (sr * c0) * (sr * c0);
  }

  lemma EdgeBound(s0: real, c0: real, s2: real, c2: real, sr: real, cr: real, sw: real, cw: real)
    requires s0 * s0 + c0 * c0 == 1.0 && s2 * s2 + c2 * c2 == 1.0 && cw > 0.0
    requires sr * sr + cr * cr == 1.0 && sw * sw + cw * cw == 1.0 && sr * c0 == sw
    ensures var d := s0 * s2 + c0 * c2 * cr; d <= cw && (d == cw ==> s2 * cw == s0)
  {
    var a, d := c0 * cr, s0 * s2 + c0 * c2 * cr;
    EdgeSquares(s0, c0, sr, cr, sw, cw);
    assert d == s0 * s2 + a * c2;
    EdgeCosine(s0, a, s2, c2, cw, d);
  }

  /** On the meridian at the half-width only the tangent point is as near as the radius. */
  lemma EdgeDistance(t: Trig, lat: real, obsLat: real, within: real)
    requires Laws(t)
    requires -90.0 <= lat <= 90.0 && -90.0 <= obsLat <= 90.0 && 0.0 < within <= 45.0
    requires !ReachesPole(t, lat, within)
    ensures var d := Sin(t, lat) * Sin(t, obsLat)
        + Cos(t, lat) * Cos(t, obsLat) * Cos(t, LongitudeRadius(t, lat, within));
      d <= Cos(t, within) && (d == Cos(t, within) <==> obsLat == TangentLatitude(t, lat, within))
  {
    var r := LongitudeRadius(t, lat, within);
    RadiusSine(t, lat, within);
    var s0, c0 := Coordinates(t, lat);
    var s2, c2 := Coordinates(t, obsLat);
    var sr, cr := Coordinates(t, r);
    var sw, cw := Coordinates(t, within);
    CosSign(t, within);
    EdgeBound(s0, c0, s2, c2, sr, cr, sw, cw);
    if s2 * cw == s0 {
      SameTangent(t, lat, obsLat, within);
    }
    TangentDistance(t, lat, within);
  }

  lemma SameTangent(t: Trig, lat: real, obsLat: real, within: real)
    requires Laws(t)
    requires -90.0 <= lat <= 90.0 && -90.0 <= obsLat <= 90.0 && 0.0 < within <= 45.0
    requires !ReachesPole(t, lat, within) && Sin(t, obsLat) * Cos(t, within) == Sin(t, lat)
    ensures obsLat == TangentLatitude(t, lat, within)
  {
    var tangent := TangentLatitude(t, lat, within);
    TangentSine(t, lat, within);
    CosSign(t, within);
    var p := Sin(t, lat);
    ScaleOrder(Sin(t, obsLat), Sin(t, tangent), Cos(t, within), p, p);
    ScaleOrder(Sin(t, tangent), Sin(t, obsLat), Cos(t, within), p, p);
    SinReflectsOrder(t, obsLat, tangent);
    SinReflectsOrder(t, tangent, obsLat);
  }

  lemma RespelledCosine(t: Trig, lon: real, lat: real, within: real, obsLon: real)
    requires Laws(t)
    requires ValidCircle(lon, lat, within) && Respelled(t, lon, lat, within, obsLon)
    ensures Cos(t, obsLon - lon) == Cos(t, LongitudeRadius(t, lat, within))
  {
    var r := LongitudeRadius(t, lat, within);
    CosFullTurn(t, r);
    CosEven(t, r);
    CosFullTurn(t, -r);
    assert obsLon - lon == r - 360.0 || obsLon - lon == -r + 360.0;
  }

  /** The distance of an observation that is spelled with the sign the range does not know. */
  lemma RespelledDistance(t: Trig, lon: real, lat: real, within: real, obsLon: real, obsLat: real)
    requires Laws(t)
    requires ValidCircle(lon, lat, within)
    requires -180.0 <= obsLon <= 180.0 && -90.0 <= obsLat <= 90.0
    requires Respelled(t, lon, lat, within, obsLon)
    ensures AngularDistanceDegrees(t, lon, lat, obsLon, obsLat) >= within
    ensures AngularDistanceDegrees(t, lon, lat, obsLon, obsLat) == within
            <==> obsLat == TangentLatitude(t, lat, within)
  {
    RespelledCosine(t, lon, lat, within, obsLon);
    EdgeDistance(t, lat, obsLat, within);
    DistanceWithin(t, lon, lat, obsLon, obsLat, within);
  }

  // ---------------------------------------------------------------- the prefilter

  /** The one point a query can lose: the tangent point, spelled with the sign its range does not know. */
  predicate Lost(t: Trig, lon: real, lat: real, within: real, obsLon: real, obsLat: real)
    requires Laws(t)
    requires ValidCircle(lon, lat, within)
  {
    Respelled(t, lon, lat, within, obsLon) && obsLat == TangentLatitude(t, lat, within)
  }

  /**
    Prefilter soundness. Every observation within the radius is inside the latitude band, and
    every one strictly inside the radius has its longitude in one of the ranges. Of those at
    distance exactly the radius only the tangent point can be outside, and only when an unsplit
    range ends on the antimeridian and the point is spelled with the other sign.
  */
  lemma PrefilterIsSound(t: Trig, lon: real, lat: real, within: real, obsLon: real, obsLat: real)
    requires Laws(t)
    requires ValidCircle(lon, lat, within)
    requires -180.0 <= obsLon <= 180.0 && -90.0 <= obsLat <= 90.0
    requires AngularDistanceDegrees(t, lon, lat, obsLon, obsLat) <= within
    ensures Max(-90.0, lat - within) <= obsLat <= Min(90.0, lat + within)
    ensures AngularDistanceDegrees(t, lon, lat, obsLon, obsLat) < within
            ==> InRanges(LongitudeRanges(t, lon, lat, within), obsLon)
    ensures InRanges(LongitudeRanges(t, lon, lat, within), obsLon)
            <==> !Respelled(t, lon, lat, within, obsLon)
    ensures Respelled(t, lon, lat, within, obsLon) <==> Lost(t, lon, lat, within, obsLon, obsLat)
  {
    DistanceWithin(t, lon, lat, obsLon, obsLat, within);
    LatitudeBand(t, lon, lat, obsLon, obsLat, within);
    RangesAreExact(t, lon, lat, within, obsLon);
    if !ReachesPole(t, lat, within) {
      OffsetNear(t, lon, lat, obsLon, obsLat, within);
    }
    if Respelled(t, lon, lat, within, obsLon) {
      RespelledDistance(t, lon, lat, within, obsLon, obsLat);
    }
  }

  /** The exact loss, of all legal observations: near and outside every range. */
  lemma LossIsExact(t: Trig, lon: real, lat: real, within: real, obsLon: real, obsLat: real)
    requires Laws(t)
    requires ValidCircle(lon, lat, within)
    requires -180.0 <= obsLon <= 180.0 && -90.0 <= obsLat <= 90.0
    ensures AngularDistanceDegrees(t, lon, lat, obsLon, obsLat) <= within
              && !InRanges(LongitudeRanges(t, lon, lat, within), obsLon)
            <==> Lost(t, lon, lat, within, obsLon, obsLat)
    ensures Lost(t, lon, lat, within, obsLon, obsLat)
            ==> AngularDistanceDegrees(t, lon, lat, obsLon, obsLat) == within
  {
    if AngularDistanceDegrees(t, lon, lat, obsLon, obsLat) <= within {
      PrefilterIsSound(t, lon, lat, within, obsLon, obsLat);
    }
    if Respelled(t, lon, lat, within, obsLon) {
      RespelledDistance(t, lon, lat, within, obsLon, obsLat);
      RangesAreExact(t, lon, lat, within, obsLon);
    }
  }

  // ---------------------------------------------------------------- the exception is real

  /**
    Whenever an unsplit range ends on the antimeridian, the point of tangency, spelled with
    the other sign, is at distance exactly the radius and outside every range.
  */
  lemma TangentPointIsDropped(t: Trig, lon: real, lat: real, within: real)
    returns (obsLon: real, obsLat: real)
    requires Laws(t)
    requires ValidCircle(lon, lat, within)
    requires EndsOnAntimeridian(t, lon, lat, within)
    ensures -180.0 <= obsLon <= 180.0 && -90.0 <= obsLat <= 90.0
    ensures AngularDistanceDegrees(t, lon, lat, obsLon, obsLat) == within
    ensures !InRanges(LongitudeRanges(t, lon, lat, within), obsLon)
  {
    obsLat := TangentLatitude(t, lat, within);
    obsLon := if lon + LongitudeRadius(t, lat, within) == 180.0 then -180.0 else 180.0;
    TangentSine(t, lat, within);
    LossIsExact(t, lon, lat, within, obsLon, obsLat);
  }

  /** A concrete instance: radius 10 around (170, 0), observation at (-180, 0). */
  lemma BoundaryExample(t: Trig)
    requires Laws(t)
    ensures AngularDistanceDegrees(t, 170.0, 0.0, -180.0, 0.0) == 10.0
    ensures LongitudeRanges(t, 170.0, 0.0, 10.0) == [(160.0, 180.0)]
    ensures !InRanges(LongitudeRanges(t, 170.0, 0.0, 10.0), -180.0)
  {
    ReachesPoleInDegrees(t, 0.0, 10.0);
    SpecialAngles(t);
    SinZero(t);
    var r := LongitudeRadius(t, 0.0, 10.0);
    RadiusSine(t, 0.0, 10.0);
    SinReflectsOrder(t, r, 10.0);
    SinReflectsOrder(t, 10.0, r);
    assert r == 10.0;
    CosFullTurn(t, 10.0);
    DistanceWithin(t, 170.0, 0.0, -180.0, 0.0, 10.0);
    RangesAreExact(t, 170.0, 0.0, 10.0, -180.0);
  }
}
