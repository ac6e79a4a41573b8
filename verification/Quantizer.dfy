/** Sixteen-bit quantisation of one wind component, and what it gives back. */
module Quantizer {
  import opened Wrappers
  import opened RealArithmetic

  const LIMIT := 32767

  type Int16 = x: int | -32768 <= x < 32768

  datatype QuantizeError = RangeNotRepresentable | DecodesToNonFinite

  datatype Quantized = Quantized(scale: real, offset: real, samples: seq<Int16>)

  // ---------------------------------------------------------------- extremes and rounding

  function Minimum(values: seq<real>): (m: real)
    requires values != []
    ensures m in values && forall v | v in values :: m <= v
  {
    if |values| == 1 then values[0]
    else
      assert values == [values[0]] + values[1..];
      var rest := Minimum(values[1..]);
      if values[0] <= rest then values[0] else rest
  }

  function Maximum(values: seq<real>): (m: real)
    requires values != []
    ensures m in values && forall v | v in values :: v <= m
  {
    if |values| == 1 then values[0]
    else
      assert values == [values[0]] + values[1..];
      var rest := Maximum(values[1..]);
      if values[0] >= rest then values[0] else rest
  }

  /** Rounds to the nearest integer, and a half to the even one. */
  function RoundHalfEven(x: real): (r: int)
    ensures r as real - 0.5 <= x <= r as real + 0.5
    ensures x == r as real - 0.5 || x == r as real + 0.5 ==> r % 2 == 0
  {
    var below := x.Floor;
    var part := x - below as real;
    if part < 0.5 || (part == 0.5 && below % 2 == 0) then below else below + 1
  }

  function Clamp(k: int): (r: Int16)
    ensures -LIMIT <= r <= LIMIT
    ensures -LIMIT <= k <= LIMIT ==> r == k
  {
    if k > LIMIT then LIMIT else if k < -LIMIT then -LIMIT else k
  }

  // ---------------------------------------------------------------- the quantiser

  /** The level stored for a value. */
  function Level(value: real, scale: real, offset: real): (r: Int16)
    requires scale != 0.0
  {
    Clamp(RoundHalfEven((value - offset) / scale))
  }

  /** The value a level stands for. */
  function Value(level: int, scale: real, offset: real): real {
    level as real * scale + offset
  }

  predicate Finite(largest: real, x: real) {
    -largest <= x <= largest
  }

  predicate AllFinite(largest: real, values: seq<real>) {
    forall v | v in values :: Finite(largest, v)
  }

  function Levels(values: seq<real>, scale: real, offset: real): (r: seq<Int16>)
    requires scale != 0.0
    ensures |r| == |values|
  {
    seq(|values|, i requires 0 <= i < |values| => Level(values[i], scale, offset))
  }

  function Values(levels: seq<Int16>, scale: real, offset: real): (r: seq<real>)
    ensures |r| == |levels|
  {
    seq(|levels|, i requires 0 <= i < |levels| => Value(levels[i], scale, offset))
  }

  /** `largest` is the largest finite component. */
  function Quantize(largest: real, values: seq<real>): Result<Quantized, QuantizeError>
    requires values != []
  {
    var low, high := Minimum(values), Maximum(values);
    if low == high then
      Ok(Quantized(1.0, low, seq(|values|, _ => 0)))
    else
      var offset := low / 2.0 + high / 2.0;
      var scale := (high / 2.0 - low / 2.0) / LIMIT as real;
      if !Finite(largest, offset) || !Finite(largest, scale) || scale <= 0.0 then
        Err(RangeNotRepresentable)
      else
        var levels := Levels(values, scale, offset);
        if !AllFinite(largest, Values(levels, scale, offset)) then Err(DecodesToNonFinite)
        else Ok(Quantized(scale, offset, levels))
  }

  function Dequantize(q: Quantized): (r: seq<real>)
    ensures |r| == |q.samples|
  {
    Values(q.samples, q.scale, q.offset)
  }

  // ---------------------------------------------------------------- one value

  /** low < high, and the metadata the quantiser derives from them. */
  ghost predicate Range(low: real, high: real, scale: real, offset: real) {
    && low < high
    && scale > 0.0
    && offset - LIMIT as real * scale == low
    && offset + LIMIT as real * scale == high
  }

  lemma RangeOf(low: real, high: real)
    requires low < high
    ensures Range(low, high, (high / 2.0 - low / 2.0) / LIMIT as real, low / 2.0 + high / 2.0)
  {
  }

  /** Nothing within the range needs clamping. */
  lemma ClampIsIdle(low: real, high: real, scale: real, offset: real, value: real)
    requires Range(low, high, scale, offset) && low <= value <= high
    ensures Level(value, scale, offset) == RoundHalfEven((value - offset) / scale)
    ensures -LIMIT <= RoundHalfEven((value - offset) / scale) <= LIMIT
  {
    var x := (value - offset) / scale;
    ScaleOrder(-LIMIT as real, x, scale, -LIMIT as real * scale, value - offset);
    ScaleOrder(x, LIMIT as real, scale, value - offset, LIMIT as real * scale);
  }

  /** A restored value is within half a step of the original. */
  lemma HalfStep(low: real, high: real, scale: real, offset: real, value: real)
    requires Range(low, high, scale, offset) && low <= value <= high
    ensures Abs(Value(Level(value, scale, offset), scale, offset) - value) <= scale / 2.0
  {
    var x := (value - offset) / scale;
    var r := RoundHalfEven(x) as real;
    ClampIsIdle(low, high, scale, offset, value);
    ScaleOrder(r - x, 0.5, scale, (r - x) * scale, 0.5 * scale);
    ScaleOrder(-0.5, r - x, scale, -0.5 * scale, (r - x) * scale);
    assert (r - x) * scale == r * scale - (value - offset);
  }

  lemma PositionOfLevel(level: int, scale: real, offset: real)
    requires scale != 0.0
    ensures (Value(level, scale, offset) - offset) / scale == level as real
  {
    var k := level as real;
    assert Value(level, scale, offset) - offset == k * scale;
    assert k * scale / scale == k;
  }

  /** A value that is itself a level is stored as that level. */
  lemma LevelOfValue(level: int, scale: real, offset: real)
    requires scale > 0.0 && -LIMIT <= level <= LIMIT
    ensures Level(Value(level, scale, offset), scale, offset) == level
  {
    PositionOfLevel(level, scale, offset);
  }

  /** Larger values never get smaller levels, and larger levels stand for larger values. */
  lemma OrderKept(scale: real, offset: real, a: real, b: real)
    requires scale > 0.0 && a <= b
    ensures Level(a, scale, offset) <= Level(b, scale, offset)
  {
    ScaleOrder((a - offset) / scale, (b - offset) / scale, scale, a - offset, b - offset);
  }

  lemma ValueOrder(scale: real, offset: real, k: int, l: int)
    requires scale > 0.0
    ensures k <= l <==> Value(k, scale, offset) <= Value(l, scale, offset)
  {
    ScaleOrder(k as real, l as real, scale, k as real * scale, l as real * scale);
  }

  lemma ValueWithin(low: real, high: real, scale: real, offset: real, level: int)
    requires Range(low, high, scale, offset) && -LIMIT <= level <= LIMIT
    ensures low <= Value(level, scale, offset) <= high
  {
    ValueOrder(scale, offset, -LIMIT, level);
    ValueOrder(scale, offset, level, LIMIT);
  }

  // ---------------------------------------------------------------- a component

  /** What holds of one value, its level, and the value restored from it. */
  ghost predicate Restores(low: real, high: real, scale: real, value: real, level: int, restored: real) {
    && -LIMIT <= level <= LIMIT
    && Abs(restored - value) <= scale / 2.0
    && (value == low || value == high ==> restored == value)
  }

  /** What the receiver can rely on, sample by sample. */
  ghost predicate Faithful(values: seq<real>, q: Quantized)
    requires values != []
  {
    && |q.samples| == |values|
    && q.scale > 0.0
    && (forall i | 0 <= i < |values| ::
          Restores(Minimum(values), Maximum(values), q.scale, values[i], q.samples[i], Dequantize(q)[i]))
    && (forall i, j | 0 <= i < |values| && 0 <= j < |values| ::
          values[i] <= values[j] ==> q.samples[i] <= q.samples[j] && Dequantize(q)[i] <= Dequantize(q)[j])
  }

  lemma EndsExact(low: real, high: real, scale: real, offset: real)
    requires Range(low, high, scale, offset)
    ensures Value(Level(low, scale, offset), scale, offset) == low
    ensures Value(Level(high, scale, offset), scale, offset) == high
  {
    LevelOfValue(-LIMIT, scale, offset);
    LevelOfValue(LIMIT, scale, offset);
  }

  lemma OneValue(low: real, high: real, scale: real, offset: real, value: real)
    requires Range(low, high, scale, offset) && low <= value <= high
    ensures var level := Level(value, scale, offset);
      Restores(low, high, scale, value, level, Value(level, scale, offset))
  {
    EndsExact(low, high, scale, offset);
    ClampIsIdle(low, high, scale, offset, value);
    HalfStep(low, high, scale, offset, value);
  }

  lemma TwoValues(scale: real, offset: real, a: real, b: real)
    requires scale > 0.0 && a <= b
    ensures var k, l := Level(a, scale, offset), Level(b, scale, offset);
      k <= l && Value(k, scale, offset) <= Value(l, scale, offset)
  {
    OrderKept(scale, offset, a, b);
    ValueOrder(scale, offset, Level(a, scale, offset), Level(b, scale, offset));
  }

  /** The levels of values under a scale and an offset, with both. */
  function Leveled(values: seq<real>, scale: real, offset: real): (q: Quantized)
    requires scale > 0.0
    ensures |q.samples| == |values|
  {
    Quantized(scale, offset, Levels(values, scale, offset))
  }

  lemma SampleRestores(values: seq<real>, low: real, high: real, scale: real, offset: real, i: nat)
    requires i < |values| && Range(low, high, scale, offset) && low <= values[i] <= high
    ensures var q := Leveled(values, scale, offset);
      Restores(low, high, scale, values[i], q.samples[i], Dequantize(q)[i])
  {
    OneValue(low, high, scale, offset, values[i]);
  }

  lemma SamplesOrdered(values: seq<real>, scale: real, offset: real, i: nat, j: nat)
    requires scale > 0.0 && i < |values| && j < |values| && values[i] <= values[j]
    ensures var q := Leveled(values, scale, offset);
      q.samples[i] <= q.samples[j] && Dequantize(q)[i] <= Dequantize(q)[j]
  {
    TwoValues(scale, offset, values[i], values[j]);
  }

  lemma LeveledIsFaithful(values: seq<real>, low: real, high: real, scale: real, offset: real)
    requires values != [] && low == Minimum(values) && high == Maximum(values)
    requires Range(low, high, scale, offset)
    ensures Faithful(values, Leveled(values, scale, offset))
  {
    var q := Leveled(values, scale, offset);
    forall i | 0 <= i < |values|
      ensures Restores(low, high, scale, values[i], q.samples[i], Dequantize(q)[i])
    {
      assert values[i] in values;
      SampleRestores(values, low, high, scale, offset, i);
    }
    forall i, j | 0 <= i < |values| && 0 <= j < |values| && values[i] <= values[j]
      ensures q.samples[i] <= q.samples[j] && Dequantize(q)[i] <= Dequantize(q)[j]
    {
      SamplesOrdered(values, scale, offset, i, j);
    }
  }

  lemma LeveledIsFinite(largest: real, values: seq<real>, low: real, high: real, scale: real, offset: real)
    requires Range(low, high, scale, offset) && Finite(largest, low) && Finite(largest, high)
    ensures AllFinite(largest, Dequantize(Leveled(values, scale, offset)))
  {
    var q := Leveled(values, scale, offset);
    forall v | v in Dequantize(q)
      ensures Finite(largest, v)
    {
      var i :| 0 <= i < |values| && v == Dequantize(q)[i];
      ValueWithin(low, high, scale, offset, q.samples[i]);
    }
  }

  /** The scale and offset of a component whose values are not all equal. */
  lemma Metadata(largest: real, values: seq<real>) returns (low: real, high: real, scale: real, offset: real)
    requires values != [] && AllFinite(largest, values) && Minimum(values) != Maximum(values)
    ensures low == Minimum(values) && high == Maximum(values) && Range(low, high, scale, offset)
    ensures Finite(largest, low) && Finite(largest, high)
    ensures Quantize(largest, values) == Ok(Leveled(values, scale, offset))
  {
    low, high := Minimum(values), Maximum(values);
    scale, offset := (high / 2.0 - low / 2.0) / LIMIT as real, low / 2.0 + high / 2.0;
    RangeOf(low, high);
    assert low in values && high in values;
    LeveledIsFinite(largest, values, low, high, scale, offset);
  }

  lemma FlatIsFaithful(values: seq<real>)
    requires values != [] && Minimum(values) == Maximum(values)
    ensures Faithful(values, Quantized(1.0, Minimum(values), seq(|values|, _ => 0)))
  {
    var q := Quantized(1.0, Minimum(values), seq(|values|, _ => 0));
    forall i | 0 <= i < |values|
      ensures values[i] == Minimum(values) == Dequantize(q)[i]
    {
      assert values[i] in values;
    }
  }

  /** Finite components of any range are quantised, and no guard on the way is ever taken. */
  lemma QuantizeIsFaithful(largest: real, values: seq<real>)
    requires values != [] && AllFinite(largest, values)
    ensures Quantize(largest, values).Ok? && Faithful(values, Quantize(largest, values).value)
  {
    if Minimum(values) == Maximum(values) {
      FlatIsFaithful(values);
    } else {
      var low, high, scale, offset := Metadata(largest, values);
      LeveledIsFaithful(values, low, high, scale, offset);
    }
  }

  lemma ExtremesAre(values: seq<real>, low: real, high: real)
    requires values != [] && low in values && high in values
    requires forall v | v in values :: low <= v <= high
    ensures Minimum(values) == low && Maximum(values) == high
  {
  }

  lemma RestoredExtremes(values: seq<real>, q: Quantized)
    requires values != [] && Faithful(values, q)
    ensures Minimum(Dequantize(q)) == Minimum(values) && Maximum(Dequantize(q)) == Maximum(values)
  {
    var low, high := Minimum(values), Maximum(values);
    var i :| 0 <= i < |values| && values[i] == low;
    var j :| 0 <= j < |values| && values[j] == high;
    var ds := Dequantize(q);
    assert ds[i] == low && ds[j] == high;
    forall d | d in ds
      ensures low <= d <= high
    {
      var k :| 0 <= k < |values| && d == ds[k];
      assert values[k] in values;
    }
    ExtremesAre(ds, low, high);
  }

  lemma LeveledTwice(values: seq<real>, scale: real, offset: real)
    requires scale > 0.0
    ensures var q := Leveled(values, scale, offset);
      Levels(Dequantize(q), scale, offset) == q.samples
  {
    var q := Leveled(values, scale, offset);
    forall i | 0 <= i < |values|
      ensures Level(Dequantize(q)[i], scale, offset) == q.samples[i]
    {
      LevelOfValue(q.samples[i], scale, offset);
    }
  }

  /** Equal extremes give equal metadata. */
  lemma SameMetadata(largest: real, a: seq<real>, b: seq<real>, q: Quantized, r: Quantized)
    requires a != [] && b != [] && Minimum(a) == Minimum(b) != Maximum(b) == Maximum(a)
    requires Quantize(largest, a) == Ok(q) && Quantize(largest, b) == Ok(r)
    ensures q.scale == r.scale && q.offset == r.offset
    ensures q.scale > 0.0 && r.samples == Levels(b, r.scale, r.offset)
  {
  }

  /** Quantising what was restored gives the same levels under the same scale and offset. */
  lemma RequantizeIsSame(largest: real, values: seq<real>, q: Quantized)
    requires values != [] && AllFinite(largest, values) && Quantize(largest, values) == Ok(q)
    ensures Dequantize(q) != [] && AllFinite(largest, Dequantize(q)) && Quantize(largest, Dequantize(q)) == Ok(q)
  {
    QuantizeIsFaithful(largest, values);
    RestoredExtremes(values, q);
    if Minimum(values) == Maximum(values) {
    } else {
      var low, high, scale, offset := Metadata(largest, values);
      LeveledIsFinite(largest, values, low, high, scale, offset);
      QuantizeIsFaithful(largest, Dequantize(q));
      SameMetadata(largest, values, Dequantize(q), q, Quantize(largest, Dequantize(q)).value);
      LeveledTwice(values, scale, offset);
    }
  }

  // ---------------------------------------------------------------- rounded metadata

  /** How far rounding the metadata can move a restored value, on top of half a step. */
  function RoundingError(q: Quantized, scale: real, offset: real): real {
    LIMIT as real * Abs(scale - q.scale) + Abs(offset - q.offset)
  }

  lemma LevelTimesError(level: int, e: real)
    requires -LIMIT <= level <= LIMIT
    ensures Abs(level as real * e) <= LIMIT as real * Abs(e)
  {
    var k := level as real;
    if e >= 0.0 {
      Nonnegative(LIMIT as real - k, e, (LIMIT as real - k) * e);
      Nonnegative(LIMIT as real + k, e, (LIMIT as real + k) * e);
    } else {
      Nonnegative(LIMIT as real - k, -e, (LIMIT as real - k) * -e);
      Nonnegative(LIMIT as real + k, -e, (LIMIT as real + k) * -e);
    }
  }

  lemma ValueMoves(level: int, s: real, o: real, scale: real, offset: real)
    ensures Value(level, scale, offset) == Value(level, s, o) + level as real * (scale - s) + (offset - o)
  {
    Difference(level as real, scale, s);
  }

  lemma Difference(k: real, a: real, b: real)
    ensures k * (a - b) == k * a - k * b
  {
  }

  /** An error of at most `half`, and two more bounded by e and by the distance of the offsets. */
  lemma ErrorsAdd(value: real, before: real, half: real, moved: real, e: real, shift: real, after: real)
    requires Abs(before - value) <= half && Abs(moved) <= e && after == before + moved + shift
    ensures Abs(after - value) <= half + (e + Abs(shift))
  {
  }

  lemma LevelRestoredRounded(level: int, value: real, s: real, o: real, scale: real, offset: real)
    requires -LIMIT <= level <= LIMIT && Abs(Value(level, s, o) - value) <= s / 2.0
    ensures Abs(Value(level, scale, offset) - value)
         <= s / 2.0 + (LIMIT as real * Abs(scale - s) + Abs(offset - o))
  {
    LevelTimesError(level, scale - s);
    ValueMoves(level, s, o, scale, offset);
    ErrorsAdd(value, Value(level, s, o), s / 2.0, level as real * (scale - s), LIMIT as real * Abs(scale - s),
              offset - o, Value(level, scale, offset));
  }

  /** Restoring under a scale and an offset that were rounded. */
  lemma RestoredRounded(values: seq<real>, q: Quantized, scale: real, offset: real, i: nat)
    requires values != [] && Faithful(values, q) && i < |values|
    ensures Abs(Values(q.samples, scale, offset)[i] - values[i]) <= q.scale / 2.0 + RoundingError(q, scale, offset)
  {
    assert Restores(Minimum(values), Maximum(values), q.scale, values[i], q.samples[i], Dequantize(q)[i]);
    LevelRestoredRounded(q.samples[i], values[i], q.scale, q.offset, scale, offset);
  }

  lemma EndLevels(low: real, high: real, scale: real, offset: real)
    requires Range(low, high, scale, offset)
    ensures Level(low, scale, offset) == -LIMIT && Level(high, scale, offset) == LIMIT
  {
    assert low == Value(-LIMIT, scale, offset) && high == Value(LIMIT, scale, offset);
    LevelOfValue(-LIMIT, scale, offset);
    LevelOfValue(LIMIT, scale, offset);
  }

  /** Scale, offset and end levels in numbers. */
  ghost predicate Calibrated(values: seq<real>, q: Quantized)
    requires values != [] && |q.samples| == |values|
  {
    var low, high := Minimum(values), Maximum(values);
    if low == high then
      q.scale == 1.0 && q.offset == low && forall i | 0 <= i < |values| :: q.samples[i] == 0
    else
      && q.scale * 65534.0 == high - low
      && q.offset * 2.0 == high + low
      && (forall i | 0 <= i < |values| :: values[i] == low ==> q.samples[i] == -32767)
      && (forall i | 0 <= i < |values| :: values[i] == high ==> q.samples[i] == 32767)
  }

  lemma HalfStepIsPart(restored: real, value: real, scale: real, spread: real)
    requires Abs(restored - value) <= scale / 2.0 && scale * 65534.0 == spread
    ensures Abs(restored - value) <= spread / 131068.0
  {
  }

  lemma RestoredAt(q: Quantized, i: nat)
    requires i < |q.samples|
    ensures Dequantize(q)[i] == Value(q.samples[i], q.scale, q.offset)
  {
  }

  lemma RestoredIs(values: seq<real>, q: Quantized, i: nat, restored: real)
    requires values != [] && Faithful(values, q) && i < |values| && restored == Dequantize(q)[i]
    ensures Abs(restored - values[i]) <= q.scale / 2.0
    ensures values[i] == Minimum(values) ==> restored == values[i]
  {
    assert Restores(Minimum(values), Maximum(values), q.scale, values[i], q.samples[i], restored);
  }

  /** A sample's value is within that part of the range. */
  lemma SampleWithinPart(values: seq<real>, q: Quantized, i: nat, spread: real) returns (restored: real)
    requires values != [] && Faithful(values, q) && Calibrated(values, q) && i < |values|
    requires spread == Maximum(values) - Minimum(values)
    ensures restored == Value(q.samples[i], q.scale, q.offset)
    ensures Abs(restored - values[i]) <= spread / 131068.0
  {
    restored := Dequantize(q)[i];
    RestoredAt(q, i);
    RestoredIs(values, q, i, restored);
    assert values[i] in values;
    if Minimum(values) != Maximum(values) {
      HalfStepIsPart(restored, values[i], q.scale, spread);
    }
  }

  /** The resolution of the format: 65534 steps from minimum to maximum, so half a step is that part of 131068. */
  lemma Resolution(largest: real, values: seq<real>, q: Quantized)
    requires values != [] && AllFinite(largest, values) && Quantize(largest, values) == Ok(q)
    ensures |q.samples| == |values| && Calibrated(values, q)
    ensures forall i | 0 <= i < |values| ::
      Abs(Value(q.samples[i], q.scale, q.offset) - values[i]) <= (Maximum(values) - Minimum(values)) / 131068.0
  {
    QuantizeIsFaithful(largest, values);
    if Minimum(values) == Maximum(values) {
      assert Minimum(values) in values;
    } else {
      var low, high, scale, offset := Metadata(largest, values);
      EndLevels(low, high, scale, offset);
    }
    forall i | 0 <= i < |values|
      ensures Abs(Value(q.samples[i], q.scale, q.offset) - values[i])
              <= (Maximum(values) - Minimum(values)) / 131068.0
    {
      var restored := SampleWithinPart(values, q, i, Maximum(values) - Minimum(values));
    }
  }

  lemma SampleOf(values: seq<real>, value: real, scale: real, offset: real)
    requires scale > 0.0 && value in values
    ensures Level(value, scale, offset) in Leveled(values, scale, offset).samples
  {
    var i :| 0 <= i < |values| && values[i] == value;
    assert Leveled(values, scale, offset).samples[i] == Level(value, scale, offset);
  }

  /** Both ends of the range are taken unless the component is constant. */
  lemma EndsAreTaken(largest: real, values: seq<real>, q: Quantized)
    requires values != [] && AllFinite(largest, values) && Minimum(values) != Maximum(values)
    requires Quantize(largest, values) == Ok(q)
    ensures -LIMIT in q.samples && LIMIT in q.samples
  {
    var low, high, scale, offset := Metadata(largest, values);
    EndLevels(low, high, scale, offset);
    SampleOf(values, low, scale, offset);
    SampleOf(values, high, scale, offset);
  }

  lemma LevelWithin(scale: real, offset: real, level: int)
    requires scale > 0.0 && -LIMIT <= level <= LIMIT
    ensures Value(-LIMIT, scale, offset) <= Value(level, scale, offset) <= Value(LIMIT, scale, offset)
  {
    ValueOrder(scale, offset, -LIMIT, level);
    ValueOrder(scale, offset, level, LIMIT);
  }

  lemma RangeOfLevels(scale: real, offset: real)
    requires scale > 0.0
    ensures Range(Value(-LIMIT, scale, offset), Value(LIMIT, scale, offset), scale, offset)
  {
  }

  lemma ValuesSpan(levels: seq<Int16>, scale: real, offset: real)
    requires scale > 0.0 && -LIMIT in levels && LIMIT in levels
    requires forall i | 0 <= i < |levels| :: -LIMIT <= levels[i] <= LIMIT
    ensures var values := Values(levels, scale, offset);
      && Minimum(values) == Value(-LIMIT, scale, offset)
      && Maximum(values) == Value(LIMIT, scale, offset)
  {
    var values := Values(levels, scale, offset);
    var i :| 0 <= i < |levels| && levels[i] == -LIMIT;
    var j :| 0 <= j < |levels| && levels[j] == LIMIT;
    assert values[i] in values && values[j] in values;
    forall v | v in values
      ensures Value(-LIMIT, scale, offset) <= v <= Value(LIMIT, scale, offset)
    {
      var k :| 0 <= k < |levels| && v == values[k];
      LevelWithin(scale, offset, levels[k]);
    }
    ExtremesAre(values, Value(-LIMIT, scale, offset), Value(LIMIT, scale, offset));
  }

  lemma SameRange(low: real, high: real, scale: real, offset: real, s: real, o: real)
    requires Range(low, high, scale, offset) && Range(low, high, s, o)
    ensures scale == s && offset == o
  {
  }

  lemma LevelsOfValues(levels: seq<Int16>, scale: real, offset: real)
    requires scale > 0.0 && forall i | 0 <= i < |levels| :: -LIMIT <= levels[i] <= LIMIT
    ensures Levels(Values(levels, scale, offset), scale, offset) == levels
  {
    forall i | 0 <= i < |levels|
      ensures Level(Values(levels, scale, offset)[i], scale, offset) == levels[i]
    {
      LevelOfValue(levels[i], scale, offset);
    }
  }

  /** Levels that take both ends come back from the values they stand for, under any scale and offset. */
  lemma RequantizeLevels(largest: real, levels: seq<Int16>, scale: real, offset: real)
    requires scale > 0.0 && -LIMIT in levels && LIMIT in levels
    requires forall i | 0 <= i < |levels| :: -LIMIT <= levels[i] <= LIMIT
    requires AllFinite(largest, Values(levels, scale, offset))
    ensures levels != [] && Quantize(largest, Values(levels, scale, offset)) == Ok(Quantized(scale, offset, levels))
  {
    var values := Values(levels, scale, offset);
    ValuesSpan(levels, scale, offset);
    RangeOfLevels(scale, offset);
    var low, high, s, o := Metadata(largest, values);
    SameRange(low, high, scale, offset, s, o);
    LevelsOfValues(levels, scale, offset);
  }

  lemma RequantizeFlat(largest: real, levels: seq<Int16>, scale: real, offset: real)
    requires levels != [] && forall i | 0 <= i < |levels| :: levels[i] == 0
    ensures Quantize(largest, Values(levels, scale, offset)) == Ok(Quantized(1.0, offset, levels))
  {
    var values := Values(levels, scale, offset);
    forall v | v in values
      ensures v == offset
    {
      var i :| 0 <= i < |levels| && v == values[i];
      assert levels[i] as real * scale == 0.0;
    }
    assert seq(|values|, _ => 0) == levels;
  }

  /** What quantising gives back for the levels of a component under any positive scale and any offset. */
  lemma RequantizeRounded(largest: real, values: seq<real>, q: Quantized, scale: real, offset: real)
    requires values != [] && AllFinite(largest, values) && Quantize(largest, values) == Ok(q) && scale > 0.0
    requires AllFinite(largest, Values(q.samples, scale, offset))
    ensures q.samples != []
    ensures Quantize(largest, Values(q.samples, scale, offset))
         == Ok(Quantized(if Minimum(values) == Maximum(values) then 1.0 else scale, offset, q.samples))
  {
    QuantizeIsFaithful(largest, values);
    if Minimum(values) == Maximum(values) {
      RequantizeFlat(largest, q.samples, scale, offset);
    } else {
      EndsAreTaken(largest, values, q);
      forall i | 0 <= i < |q.samples|
        ensures -LIMIT <= q.samples[i] <= LIMIT
      {
        assert Restores(Minimum(values), Maximum(values), q.scale, values[i], q.samples[i], Dequantize(q)[i]);
      }
      RequantizeLevels(largest, q.samples, scale, offset);
    }
  }

  /** The order of samples survives restoring under any positive scale. */
  lemma OrderRounded(values: seq<real>, q: Quantized, scale: real, offset: real, i: nat, j: nat)
    requires values != [] && Faithful(values, q) && scale > 0.0
    requires i < |values| && j < |values| && values[i] <= values[j]
    ensures Values(q.samples, scale, offset)[i] <= Values(q.samples, scale, offset)[j]
  {
    ValueOrder(scale, offset, q.samples[i], q.samples[j]);
  }

  /** What restoring under a rounded scale and offset still promises, sample by sample. */
  ghost predicate FaithfulWithin(values: seq<real>, q: Quantized, restored: seq<real>, scale: real, offset: real)
  {
    && |restored| == |values|
    && (forall i | 0 <= i < |values| ::
          Abs(restored[i] - values[i]) <= q.scale / 2.0 + RoundingError(q, scale, offset))
    && (forall i, j | 0 <= i < |values| && 0 <= j < |values| :: values[i] <= values[j] ==> restored[i] <= restored[j])
  }

  lemma RoundedIsFaithful(values: seq<real>, q: Quantized, scale: real, offset: real)
    requires values != [] && Faithful(values, q) && scale > 0.0
    ensures FaithfulWithin(values, q, Values(q.samples, scale, offset), scale, offset)
  {
    var restored := Values(q.samples, scale, offset);
    forall i | 0 <= i < |values|
      ensures Abs(restored[i] - values[i]) <= q.scale / 2.0 + RoundingError(q, scale, offset)
    {
      RestoredRounded(values, q, scale, offset, i);
    }
    forall i, j | 0 <= i < |values| && 0 <= j < |values| && values[i] <= values[j]
      ensures restored[i] <= restored[j]
    {
      OrderRounded(values, q, scale, offset, i, j);
    }
  }

  /** The same in numbers: a part of the range, and what rounding scale and offset adds. */
  ghost predicate WithinPart(values: seq<real>, restored: seq<real>, part: real, rounding: real) {
    |restored| == |values| && forall i | 0 <= i < |values| :: Abs(restored[i] - values[i]) <= part + rounding
  }

  lemma FlatIsWithinPart(values: seq<real>, q: Quantized, scale: real, offset: real, i: nat)
    requires values != [] && |q.samples| == |values| && Calibrated(values, q) && i < |values|
    requires Minimum(values) == Maximum(values)
    ensures Abs(Values(q.samples, scale, offset)[i] - values[i]) <= Abs(offset - q.offset)
  {
    assert values[i] in values;
    assert q.samples[i] as real * scale == 0.0;
  }

  lemma FlatWithinPart(values: seq<real>, q: Quantized, scale: real, offset: real, rounding: real)
    requires values != [] && |q.samples| == |values| && Calibrated(values, q)
    requires Minimum(values) == Maximum(values) && rounding >= Abs(offset - q.offset)
    ensures WithinPart(values, Values(q.samples, scale, offset), 0.0, rounding)
  {
    forall i | 0 <= i < |values|
      ensures Abs(Values(q.samples, scale, offset)[i] - values[i]) <= 0.0 + rounding
    {
      FlatIsWithinPart(values, q, scale, offset, i);
    }
  }

  lemma RangedWithinPart(values: seq<real>, restored: seq<real>, scale: real, rounding: real, spread: real)
    requires |restored| == |values| && scale * 65534.0 == spread
    requires forall i | 0 <= i < |values| :: Abs(restored[i] - values[i]) <= scale / 2.0 + rounding
    ensures WithinPart(values, restored, spread / 131068.0, rounding)
  {
  }

  lemma PartOf(values: seq<real>, q: Quantized, restored: seq<real>, rounding: real)
    requires values != [] && |q.samples| == |values| == |restored| && Calibrated(values, q)
    requires Minimum(values) == Maximum(values) ==> WithinPart(values, restored, 0.0, rounding)
    requires forall i | 0 <= i < |values| :: Abs(restored[i] - values[i]) <= q.scale / 2.0 + rounding
    ensures WithinPart(values, restored, (Maximum(values) - Minimum(values)) / 131068.0, rounding)
  {
    if Minimum(values) != Maximum(values) {
      RangedWithinPart(values, restored, q.scale, rounding, Maximum(values) - Minimum(values));
    }
  }

  lemma RoundingErrorIs(q: Quantized, scale: real, offset: real)
    ensures RoundingError(q, scale, offset) == 32767.0 * Abs(scale - q.scale) + Abs(offset - q.offset)
  {
  }

  lemma RestoredIsWithinPart(
      values: seq<real>, q: Quantized, restored: seq<real>, scale: real, offset: real, rounding: real)
    requires values != [] && |q.samples| == |values| && Calibrated(values, q) && rounding >= Abs(offset - q.offset)
    requires restored == Values(q.samples, scale, offset)
    requires forall i | 0 <= i < |values| :: Abs(restored[i] - values[i]) <= q.scale / 2.0 + rounding
    ensures WithinPart(values, restored, (Maximum(values) - Minimum(values)) / 131068.0, rounding)
  {
    if Minimum(values) == Maximum(values) {
      FlatWithinPart(values, q, scale, offset, rounding);
    }
    PartOf(values, q, restored, rounding);
  }

  lemma RestoredWithinPart(values: seq<real>, q: Quantized, scale: real, offset: real, rounding: real)
    requires values != [] && Faithful(values, q) && Calibrated(values, q) && scale > 0.0
    requires rounding == 32767.0 * Abs(scale - q.scale) + Abs(offset - q.offset)
    ensures WithinPart(values, Values(q.samples, scale, offset),
                       (Maximum(values) - Minimum(values)) / 131068.0, rounding)
  {
    RoundedIsFaithful(values, q, scale, offset);
    RoundingErrorIs(q, scale, offset);
    RestoredIsWithinPart(values, q, Values(q.samples, scale, offset), scale, offset, rounding);
  }
}
