/** `DoubleSlider`: a slider over a real interval [min_val, max_val] built on
    an integer `QSlider` whose positions are 0..nb_steps. */
module Slider {
  import opened Numeric

  /** The default number of steps of the inner slider. */
  const DefaultSteps: int := 1000

  /** `innerToValue`: the real value of inner position `i`. */
  function InnerToValue(min_val: real, max_val: real, nb_steps: int, i: int): real
    requires 1 <= nb_steps
  {
    min_val + (max_val - min_val) * i as real / nb_steps as real
  }

  /** `valueToInner`: the inner position nearest to `v`, rounded as
      `std::round` does. */
  function ValueToInner(min_val: real, max_val: real, nb_steps: int, v: real): int
    requires 1 <= nb_steps && max_val != min_val
  {
    Round(Scaled(min_val, max_val, nb_steps, v))
  }

  /** `(v - min_val) / (max_val - min_val) * nb_steps`, the real position that
      `valueToInner` rounds. */
  function Scaled(min_val: real, max_val: real, nb_steps: int, v: real): real
    requires 1 <= nb_steps && max_val != min_val
  {
    (v - min_val) / (max_val - min_val) * nb_steps as real
  }

  /** The clamping `setLimits` applies to the previous value: first raised to
      `min`, then lowered to `max`. */
  function ClampValue(v: real, min: real, max: real): (r: real)
    ensures min <= max ==> min <= r <= max
    ensures min <= v <= max ==> r == v
  {
    var raised := if min > v then min else v;
    if max < raised then max else raised
  }

  /** `innerToValue` extended to real positions. */
  function InnerToValueReal(min_val: real, max_val: real, nb_steps: int, x: real): real
    requires 1 <= nb_steps
  {
    min_val + (max_val - min_val) * x / nb_steps as real
  }

  /** `innerToValue` is the affine map sending 0 to `min_val` and `nb_steps`
      to `max_val`. */
  lemma InnerToValueAffine(min_val: real, max_val: real, nb_steps: int, i: int, j: int)
    requires 1 <= nb_steps
    ensures InnerToValue(min_val, max_val, nb_steps, 0) == min_val
    ensures InnerToValue(min_val, max_val, nb_steps, nb_steps) == max_val
    ensures InnerToValue(min_val, max_val, nb_steps, j) - InnerToValue(min_val, max_val, nb_steps, i)
      == (max_val - min_val) * (j - i) as real / nb_steps as real
  {
  }

  /** Every inner position 0..nb_steps denotes a value inside the interval. */
  lemma InnerToValueInRange(min_val: real, max_val: real, nb_steps: int, i: int)
    requires 1 <= nb_steps && 0 <= i <= nb_steps && min_val <= max_val
    ensures min_val <= InnerToValue(min_val, max_val, nb_steps, i) <= max_val
  {
    var range, n := max_val - min_val, nb_steps as real;
    assert 0.0 <= range * i as real <= range * n;
    assert range * i as real / n <= range * n / n;
  }

  /** The value a scaled position stands for is the value itself. */
  lemma ScaledPosition(min_val: real, max_val: real, nb_steps: int, v: real)
    requires 1 <= nb_steps && max_val != min_val
    ensures v == InnerToValueReal(min_val, max_val, nb_steps, Scaled(min_val, max_val, nb_steps, v))
  {
    var range, n := max_val - min_val, nb_steps as real;
    var b := (v - min_val) / range;
    var x := b * n;
    assert b * range == v - min_val;
    assert x / n == b;
    assert range * x / n == range * (x / n);
  }

  /** Encoding the value of an inner position gives that position back. */
  lemma {:induction false} RoundTrip(min_val: real, max_val: real, nb_steps: int, i: int)
    requires 1 <= nb_steps && max_val != min_val
    ensures ValueToInner(min_val, max_val, nb_steps, InnerToValue(min_val, max_val, nb_steps, i)) == i
  {
    var range, n := max_val - min_val, nb_steps as real;
    var v := InnerToValue(min_val, max_val, nb_steps, i);
    var a := range * i as real / n;
    assert v - min_val == a;
    assert a * n == range * i as real;
    var b := a / range;
    assert b * range == a;
    var x := b * n;
    assert x == Scaled(min_val, max_val, nb_steps, v);
    assert x * range == a * n;
    assert (x - i as real) * range == 0.0;
    assert x == i as real;
    RoundOfInt(i);
  }

  /** On an increasing interval, encoding is monotone. */
  lemma ValueToInnerMonotone(min_val: real, max_val: real, nb_steps: int, v: real, w: real)
    requires 1 <= nb_steps && min_val < max_val && v <= w
    ensures ValueToInner(min_val, max_val, nb_steps, v) <= ValueToInner(min_val, max_val, nb_steps, w)
  {
    var range, n := max_val - min_val, nb_steps as real;
    var a, b := (v - min_val) / range, (w - min_val) / range;
    assert a <= b;
    assert a * n <= b * n;
    assert Scaled(min_val, max_val, nb_steps, v) == a * n;
    assert Scaled(min_val, max_val, nb_steps, w) == b * n;
    RoundMonotone(a * n, b * n);
  }

  /** A value of the interval has a scaled position in [0, nb_steps]. */
  lemma ScaledInRange(min_val: real, max_val: real, nb_steps: int, v: real)
    requires 1 <= nb_steps && min_val < max_val && min_val <= v <= max_val
    ensures 0.0 <= Scaled(min_val, max_val, nb_steps, v) <= nb_steps as real
  {
    var range, n := max_val - min_val, nb_steps as real;
    var b := (v - min_val) / range;
    assert b * range == v - min_val;
    assert 0.0 <= b <= 1.0;
    assert b * n <= 1.0 * n;
  }

  /** A value inside an increasing interval encodes to a position in
      0..nb_steps, and decodes back to within half a step of itself. */
  lemma EncodeNearest(min_val: real, max_val: real, nb_steps: int, v: real)
    requires 1 <= nb_steps && min_val < max_val && min_val <= v <= max_val
    ensures 0 <= ValueToInner(min_val, max_val, nb_steps, v) <= nb_steps
    ensures Abs(InnerToValue(min_val, max_val, nb_steps, ValueToInner(min_val, max_val, nb_steps, v)) - v)
      <= (max_val - min_val) / (2.0 * nb_steps as real)
  {
    var x := Scaled(min_val, max_val, nb_steps, v);
    ScaledInRange(min_val, max_val, nb_steps, v);
    RoundMonotone(0.0, x);
    RoundMonotone(x, nb_steps as real);
    RoundOfInt(0);
    RoundOfInt(nb_steps);
    var i := Round(x);
    ScaledPosition(min_val, max_val, nb_steps, v);
    DecodeDistance(min_val, max_val, nb_steps, x, i);
  }

  /** Decoding position i of a real position x misses the value of x by at
      most half a step when |i - x| <= 1/2. */
  lemma DecodeDistance(min_val: real, max_val: real, nb_steps: int, x: real, i: int)
    requires 1 <= nb_steps && min_val < max_val
    requires x - 0.5 <= i as real <= x + 0.5
    ensures Abs(InnerToValue(min_val, max_val, nb_steps, i) - InnerToValueReal(min_val, max_val, nb_steps, x))
      <= (max_val - min_val) / (2.0 * nb_steps as real)
  {
    var range, n := max_val - min_val, nb_steps as real;
    ScaleDifference(range, n, i as real, x);
    assert InnerToValue(min_val, max_val, nb_steps, i) == min_val + range * i as real / n;
    assert InnerToValueReal(min_val, max_val, nb_steps, x) == min_val + range * x / n;
    assert InnerToValue(min_val, max_val, nb_steps, i) - InnerToValueReal(min_val, max_val, nb_steps, x)
      == range * (i as real - x) / n;
    HalfStep(range, n, i as real - x);
  }

  /** Scaling a difference by range / n. */
  lemma ScaleDifference(range: real, n: real, a: real, b: real)
    requires n != 0.0
    ensures range * a / n - range * b / n == range * (a - b) / n
  {
    assert range * a - range * b == range * (a - b);
  }

  /** A position error of at most half a step is a value error of at most
      range / (2 nb_steps). */
  lemma HalfStep(range: real, n: real, e: real)
    requires 0.0 < range && 1.0 <= n && -0.5 <= e <= 0.5
    ensures Abs(range * e / n) <= range / (2.0 * n)
  {
    assert -range * 0.5 <= range * e <= range * 0.5;
    assert range * 0.5 / n == range / (2.0 * n);
  }

  /** What `setLimits` leaves: with min < max the slider's value lies in
      [min, max], and a previous value already in range moves by at most
      half a step. */
  lemma SetLimitsValue(nb_steps: int, previous: real, min: real, max: real)
    requires 1 <= nb_steps && min < max
    ensures var pos := Clamp(ValueToInner(min, max, nb_steps, ClampValue(previous, min, max)), 0, nb_steps);
      && min <= InnerToValue(min, max, nb_steps, pos) <= max
      && (min <= previous <= max ==>
            Abs(InnerToValue(min, max, nb_steps, pos) - previous) <= (max - min) / (2.0 * nb_steps as real))
  {
    var v := ClampValue(previous, min, max);
    EncodeNearest(min, max, nb_steps, v);
    var pos := Clamp(ValueToInner(min, max, nb_steps, v), 0, nb_steps);
    InnerToValueInRange(min, max, nb_steps, pos);
  }

  class DoubleSlider {
    var min_val: real
    var max_val: real
    /** The inner `QSlider` ranges over 0..nb_steps ... */
    const nb_steps: int
    /** ... and sits at `position`. */
    var position: int

    /** `QSlider` keeps its position inside its range. */
    ghost predicate Valid()
      reads this
    {
      1 <= nb_steps && 0 <= position <= nb_steps
    }

    /** The inner slider starts at its minimum, 0, so the first value is
        `min_val`. */
    constructor (min_val: real, max_val: real, nb_steps: int := DefaultSteps)
      requires 1 <= nb_steps
      ensures Valid() && position == 0 && this.nb_steps == nb_steps
      ensures this.min_val == min_val && this.max_val == max_val
      ensures Value() == min_val
    {
      this.min_val, this.max_val := min_val, max_val;
      this.nb_steps := nb_steps;
      position := 0;
    }

    /** `value()`: the value the inner position denotes, which lies in the
        interval when the interval is increasing. */
    function Value(): (r: real)
      reads this
      requires Valid()
      ensures min_val <= max_val ==> min_val <= r <= max_val
    {
      if min_val <= max_val then
        InnerToValueInRange(min_val, max_val, nb_steps, position);
        InnerToValue(min_val, max_val, nb_steps, position)
      else
        InnerToValue(min_val, max_val, nb_steps, position)
    }

    /** `setValue`: `QSlider::setValue` clamps the encoded position into
        0..nb_steps. */
    method SetValue(new_value: real)
      requires Valid() && max_val != min_val
      modifies this`position
      ensures Valid()
      ensures position == Clamp(ValueToInner(min_val, max_val, nb_steps, new_value), 0, nb_steps)
    {
      position := Clamp(ValueToInner(min_val, max_val, nb_steps, new_value), 0, nb_steps);
    }

    /** `setLimits`: clamps the previous value into [min, max] and re-encodes
        it against the new interval. */
    method SetLimits(min: real, max: real)
      requires Valid() && min != max
      modifies this`min_val, this`max_val, this`position
      ensures Valid() && min_val == min && max_val == max
      ensures position == Clamp(ValueToInner(min, max, nb_steps, ClampValue(old(Value()), min, max)), 0, nb_steps)
      ensures min < max ==> min <= Value() <= max
      ensures min < max && min <= old(Value()) <= max ==>
        Abs(Value() - old(Value())) <= (max - min) / (2.0 * nb_steps as real)
    {
      var new_value := Value();
      min_val := min;
      max_val := max;
      if min_val > new_value {
        new_value := min_val;
      }
      if max_val < new_value {
        new_value := max_val;
      }
      SetValue(new_value);
      if min < max {
        SetLimitsValue(nb_steps, old(Value()), min, max);
      }
    }
  }
}
