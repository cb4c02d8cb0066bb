/** Java number semantics that the app's arithmetic relies on, stated over
    Dafny's unbounded `int` and exact `real`. */
module JavaSemantics {

  datatype Option<T> = None | Some(value: T)

  /** Java's `(int)` cast of a `double` or `float`: rounds toward zero
      (unlike Dafny's `.Floor`, which rounds toward negative infinity). */
  function Trunc(x: real): (r: int)
    ensures 0.0 <= x ==> r as real <= x < r as real + 1.0
    ensures x < 0.0 ==> r as real - 1.0 < x <= r as real
  {
    if x >= 0.0 then x.Floor else -((-x).Floor)
  }

  /** Truncation never moves a value by a whole unit or more. */
  lemma TruncNear(x: real)
    ensures -1.0 < Trunc(x) as real - x < 1.0
  {
  }

  /** Truncation is monotone: the order of two values survives the cast. */
  lemma TruncMonotone(a: real, b: real)
    requires a <= b
    ensures Trunc(a) <= Trunc(b)
  {
    if a < 0.0 && 0.0 <= b {
    } else if 0.0 <= a {
      assert Trunc(a) as real <= a <= b;
    } else {
      assert a <= b < Trunc(b) as real + 1.0;
    }
  }

  /** An integral value is unchanged by the cast. */
  /** TruncMonotone without its precondition, for use inside functions. */
  lemma TruncKeepsOrder(a: real, b: real)
    ensures a <= b ==> Trunc(a) <= Trunc(b)
  {
    if a <= b {
      TruncMonotone(a, b);
    }
  }

  lemma TruncOfInt(n: int)
    ensures Trunc(n as real) == n
  {
  }

  /** Two values of the same sign whose distance is d truncate to integers
      whose distance is within one of d. */
  lemma TruncDifference(a: real, b: real)
    requires a <= b
    requires 0.0 <= a || b < 0.0
    ensures -1.0 < (Trunc(b) - Trunc(a)) as real - (b - a) < 1.0
  {
  }

  /** Java's `/` on `int` with a positive divisor: rounds toward zero, so
      what is left over has the sign of `a` and is smaller than `b`. */
  function JavaDiv(a: int, b: int): (q: int)
    requires b > 0
    ensures 0 <= a ==> 0 <= a - q * b < b
    ensures a < 0 ==> -b < a - q * b <= 0
  {
    if a >= 0 then a / b else -((-a) / b)
  }

  newtype int8 = x: int | -128 <= x < 128

  /** Java's `(byte)` narrowing: keeps the low eight bits, read as a
      two's-complement value. */
  function ToByte(v: int): (b: int8)
    ensures (b as int - v) % 256 == 0
    ensures 0 <= v < 128 ==> b as int == v
    ensures 128 <= v < 256 ==> b as int == v - 256
  {
    var low := v % 256;
    if low < 128 then low as int8 else (low - 256) as int8
  }

  /** The byte written for an unsigned value in [0, 255] reads back as that
      value when masked with 0xff, so nothing is lost. */
  lemma ToByteRoundTrip(v: int)
    requires 0 <= v < 256
    ensures (ToByte(v) as int) % 256 == v
  {
  }
}
