/** Numeric conventions of the C++ viewer, written out over Dafny's unbounded
    integers and exact reals: the 8- and 16-bit sample types, the 32-bit `int`
    range, `DBL_MAX`, and the two double-to-integer conversions the source uses
    (the implicit truncating cast and `std::round`). */
module Numeric {

  datatype Option<T> = None | Some(value: T)

  /** `unsigned char`: one sample of the 8-bit display volume. */
  type Byte = x: int | 0 <= x < 0x100

  /** `uint16_t`: one sample of the 16-bit raw volume. */
  type U16 = x: int | 0 <= x < 0x1_0000

  const IntMax: int := 0x7fff_ffff
  const IntMin: int := -0x8000_0000

  /** A C++ `int`. */
  type Int32 = x: int | IntMin <= x <= IntMax

  function Pow2(n: nat): (r: nat)
    ensures r >= 1
  {
    if n == 0 then 1 else 2 * Pow2(n - 1)
  }

  /** `std::numeric_limits<double>::max()`, that is (2 - 2^-52) * 2^1023;
      `lowest()` is its negation. */
  const DoubleMax: real := (Pow2(1024) - Pow2(971)) as real

  /** The values a finite `double` can hold (ignoring rounding). */
  predicate Finite(x: real) {
    -DoubleMax <= x <= DoubleMax
  }

  function Min(a: real, b: real): (r: real)
    ensures r <= a && r <= b && (r == a || r == b)
  {
    if a < b then a else b
  }

  function Max(a: real, b: real): (r: real)
    ensures r >= a && r >= b && (r == a || r == b)
  {
    if a > b then a else b
  }

  function Abs(x: real): (r: real)
    ensures r >= 0.0 && (r == x || r == -x)
  {
    if x < 0.0 then -x else x
  }

  /** The implicit conversion of a `double` to an `int`: rounds toward zero. */
  function Trunc(x: real): (r: int)
    ensures 0.0 <= x ==> 0 <= r && r as real <= x < r as real + 1.0
    ensures x < 0.0 ==> r <= 0 && r as real - 1.0 < x <= r as real
  {
    if x >= 0.0 then x.Floor else -((-x).Floor)
  }

  /** Truncation toward zero is monotone. */
  lemma TruncMonotone(x: real, y: real)
    requires x <= y
    ensures Trunc(x) <= Trunc(y)
  {
    if 0.0 <= x {
      assert Trunc(x) as real <= x <= y < Trunc(y) as real + 1.0;
    } else if y < 0.0 {
      assert Trunc(x) as real - 1.0 < x <= y <= Trunc(y) as real;
    }
  }

  /** Truncation of an integral value gives that value back. */
  lemma TruncOfInt(n: int)
    ensures Trunc(n as real) == n
  {
  }

  /** `std::round`: to the nearest integer, halfway cases away from zero. */
  function Round(x: real): (r: int)
    ensures x - 0.5 <= r as real <= x + 0.5
    ensures 0.0 <= x ==> 0 <= r && x - 0.5 < r as real
    ensures x < 0.0 ==> r <= 0 && r as real < x + 0.5
  {
    if x >= 0.0 then (x + 0.5).Floor else -((-x + 0.5).Floor)
  }

  /** Rounding gives an integral value back unchanged. */
  lemma {:induction false} RoundOfInt(n: int)
    ensures Round(n as real) == n
  {
    if n >= 0 {
      assert (n as real + 0.5).Floor == n;
    } else {
      assert (-(n as real) + 0.5).Floor == -n;
    }
  }

  /** `std::round` is monotone. */
  lemma RoundMonotone(x: real, y: real)
    requires x <= y
    ensures Round(x) <= Round(y)
  {
    if 0.0 <= x {
      assert (x + 0.5).Floor <= (y + 0.5).Floor;
    } else if y < 0.0 {
      assert (-y + 0.5).Floor <= (-x + 0.5).Floor;
    }
  }

  /** Clamp an integer into [lo, hi], as `QSlider::setValue` does. */
  function Clamp(x: int, lo: int, hi: int): (r: int)
    requires lo <= hi
    ensures lo <= r <= hi
    ensures lo <= x <= hi ==> r == x
    ensures x < lo ==> r == lo
    ensures hi < x ==> r == hi
  {
    if x < lo then lo else if hi < x then hi else x
  }
}
