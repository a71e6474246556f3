/**
 * The parts of Java's integer semantics the simulator relies on:
 * 32-bit `int` values, truncating division and remainder, and `Math.abs`,
 * whose two's-complement negation leaves `Integer.MIN_VALUE` negative.
 */
module JavaArith {

  const IntMin: int := -0x8000_0000
  const IntMax: int := 0x7fff_ffff
  const LongMin: int := -0x8000_0000_0000_0000
  const LongMax: int := 0x7fff_ffff_ffff_ffff

  /** A Java `int`. */
  newtype int32 = x: int | -0x8000_0000 <= x < 0x8000_0000

  predicate IsLong(x: int) { LongMin <= x <= LongMax }

  function Abs(x: int): (r: int)
    ensures r >= 0 && (r == x || r == -x)
  {
    if x < 0 then -x else x
  }

  /** Java's `/`: the quotient is truncated toward zero. */
  function Div(a: int, b: int): (q: int)
    requires b != 0
    ensures (a < 0) == (b < 0) ==> q >= 0
    ensures (a < 0) != (b < 0) ==> q <= 0
  {
    var A, B := Abs(a), Abs(b);
    assert B > 0;
    var m := A / B;
    assert m >= 0;
    if (a < 0) == (b < 0) then m else -m
  }

  /** Java's `%`: the remainder takes the sign of the dividend. */
  function Rem(a: int, b: int): (r: int)
    requires b != 0
    ensures Abs(r) < Abs(b)
    ensures a >= 0 ==> r >= 0
    ensures a <= 0 ==> r <= 0
  {
    var A, B := Abs(a), Abs(b);
    assert B > 0;
    var m := A % B;
    if a < 0 then -m else m
  }

  /** Quotient and remainder fit together as in section 15.17.3 of the Java Language Specification. */
  lemma DivRem(a: int, b: int)
    requires b != 0
    ensures a == Div(a, b) * b + Rem(a, b)
  {
  }

  /** For a non-negative dividend and a positive divisor, Java and Dafny agree. */
  lemma NonNegativeDivRem(a: int, b: int)
    requires a >= 0 && b > 0
    ensures Div(a, b) == a / b && Rem(a, b) == a % b
  {
  }

  lemma MulAtLeast(d: int, m: int)
    requires d >= 1 && m > 0
    ensures d * m >= m
  {
  }

  /** Euclidean quotient and remainder are determined by the division equation. */
  lemma DivUnique(a: int, m: int, q: int, r: int)
    requires m > 0 && 0 <= r < m && a == q * m + r
    ensures a / m == q && a % m == r
  {
    var q', r' := a / m, a % m;
    assert a == q' * m + r';
    var d := q - q';
    assert d * m == q * m - q' * m;
    assert d * m == r' - r;
    if d >= 1 {
      MulAtLeast(d, m);
    } else if d <= -1 {
      assert (-d) * m == -(d * m);
      MulAtLeast(-d, m);
    }
  }

  /** Adding k multiples of m shifts the quotient by k and leaves the remainder alone. */
  lemma ShiftDivRem(x: int, k: int, m: int)
    requires m > 0
    ensures (x + k * m) / m == x / m + k
    ensures (x + k * m) % m == x % m
  {
    assert x == (x / m) * m + x % m;
    assert (x / m + k) * m == (x / m) * m + k * m;
    DivUnique(x + k * m, m, x / m + k, x % m);
  }

  /** Reduces an unbounded integer to the `int` with the same low 32 bits. */
  function Wrap32(v: int): (r: int32)
    ensures (r as int - v) % 0x1_0000_0000 == 0
    ensures IntMin <= v <= IntMax ==> r as int == v
  {
    ((v + 0x8000_0000) % 0x1_0000_0000 - 0x8000_0000) as int32
  }

  /** `Math.abs(int)`: negation in 32-bit two's complement. */
  function JavaAbs(x: int32): (r: int32)
    ensures x as int != IntMin ==> r as int == Abs(x as int)
    ensures x as int == IntMin ==> r == x && r < 0
  {
    if x < 0 then Wrap32(-(x as int)) else x
  }

  /** `a % b` on two `int`s; the result always fits in an `int`. */
  function Rem32(a: int32, b: int32): (r: int32)
    requires b != 0
    ensures r as int == Rem(a as int, b as int)
  {
    Rem(a as int, b as int) as int32
  }
}
