/**
 * Java's 32-bit `int` and the operators on it that the view uses.
 *
 * Dafny's integers are unbounded and its `/` and `%` are Euclidean; Java's
 * `/` truncates toward zero, its `%` takes the sign of the dividend, its
 * additions wrap around modulo 2^32, and its `(int)` cast of a `double`
 * saturates. Each of these is written out here. `Div` is the truncating
 * quotient of the exact operands; it agrees with Java's `int` division except
 * at `MIN_VALUE / -1`, where Java's result wraps back to `MIN_VALUE`.
 */
module JavaInt {

  const MinInt32: int := -0x8000_0000
  const MaxInt32: int := 0x7fff_ffff
  const TwoTo32: int := 0x1_0000_0000

  /** A value a Java `int` variable can hold. */
  type Int32 = x: int | MinInt32 <= x <= MaxInt32

  function Abs(x: int): (r: nat)
    ensures r == x || r == -x
  {
    if x < 0 then -x else x
  }

  /** Two's-complement wrap-around of an exact result, as Java's `+` and `-` on `int` do. */
  function Wrap32(x: int): (r: Int32)
    ensures (x - r) % TwoTo32 == 0
    ensures MinInt32 <= x <= MaxInt32 ==> r == x
  {
    var k := (x - MinInt32) / TwoTo32;
    var r := x - k * TwoTo32;
    assert MinInt32 <= r <= MaxInt32;
    r
  }

  /** Java's `x >> 1`: an arithmetic shift, which rounds toward negative infinity. */
  function ShiftRight1(x: Int32): (r: Int32)
    ensures 2 * r <= x <= 2 * r + 1
  {
    x / 2
  }

  /**
   * The truncating quotient of the exact operands, as Java's `a / b` on `int`
   * computes it: the quotient of the magnitudes, negated when the operands
   * have opposite signs. Java's overflow at `MIN_VALUE / -1` is not modelled.
   */
  function Div(a: int, b: int): (q: int)
    requires b != 0
    ensures Abs(q) == Abs(a) / Abs(b) <= Abs(a)
    ensures q > 0 ==> (a < 0) == (b < 0)
    ensures q < 0 ==> (a < 0) != (b < 0)
  {
    var x, y := Abs(a), Abs(b);
    var m := x / y;
    DivisionOfMagnitudes(x, y);
    assert 0 <= m <= x;
    if (a < 0) == (b < 0) then m else -m
  }

  /** Java's `a % b` on `int`: what `Div` leaves over, so that `Div(a, b) * b + Rem(a, b) == a`. */
  function Rem(a: int, b: int): (r: int)
    requires b != 0
    ensures Abs(r) < Abs(b)
    ensures r == 0 || (r < 0 <==> a < 0)
    ensures r == (if a < 0 then -(Abs(a) % Abs(b)) else Abs(a) % Abs(b))
  {
    DivRemainder(a, b);
    a - Div(a, b) * b
  }

  /** On non-negative operands Java's division and Dafny's agree. */
  lemma DivOfNonNegatives(a: int, b: int)
    requires a >= 0 && b > 0
    ensures Div(a, b) == a / b
  {
  }

  /** What `Div` leaves over is below the divisor in magnitude and has the sign of the dividend. */
  lemma DivRemainder(a: int, b: int)
    requires b != 0
    ensures a - Div(a, b) * b == (if a < 0 then -(Abs(a) % Abs(b)) else Abs(a) % Abs(b))
  {
    var m := Abs(a) / Abs(b);
    var r := Abs(a) % Abs(b);
    assert Abs(a) == m * Abs(b) + r;
    NegateFactor(m, b);
    if (a < 0) == (b < 0) {
      assert Div(a, b) * b == (if b < 0 then -(m * Abs(b)) else m * Abs(b));
    } else {
      assert Div(a, b) * b == (if b < 0 then m * Abs(b) else -(m * Abs(b)));
    }
  }

  /** Java's `(int) Math.floor(x)`: the floor, saturated to the `int` range. */
  function FloorToInt(x: real): (r: Int32)
    ensures MinInt32 <= x.Floor <= MaxInt32 ==> r as real <= x < r as real + 1.0
    ensures x.Floor > MaxInt32 ==> r == MaxInt32
    ensures x.Floor < MinInt32 ==> r == MinInt32
  {
    if x.Floor > MaxInt32 then MaxInt32
    else if x.Floor < MinInt32 then MinInt32
    else x.Floor
  }

  /** Euclidean division of two magnitudes leaves a remainder below the divisor, and the quotient is at most the dividend. */
  lemma DivisionOfMagnitudes(a: nat, b: nat)
    requires b > 0
    ensures a == (a / b) * b + a % b && 0 <= a % b < b
    ensures a / b <= a
  {
    AtMostProduct(a / b, b);
  }

  lemma AtMostProduct(m: nat, b: nat)
    requires b > 0
    ensures m <= m * b
  {
    assert m * b == m * (b - 1) + m;
  }

  /** Flipping the sign of either factor flips the sign of the product. */
  lemma NegateFactor(m: int, b: int)
    ensures m * b == (if b < 0 then -(m * Abs(b)) else m * Abs(b))
    ensures -m * b == -(m * b)
  {
  }

  /** Java's parity test `x % 2 == 0` agrees with Dafny's, although the two `%` differ on negative `x`. */
  lemma EvenTest(x: int)
    ensures Rem(x, 2) == 0 <==> x % 2 == 0
  {
  }
}
