/** Real-number helpers and the transcendental functions the trainer uses.

    Trigonometry, `degrees`, `tanh` and `sqrt` are not computed: they are
    supplied as an uninterpreted record of functions. The only facts assumed
    of them are the sign facts of the real square root and that the tangent
    of an angle strictly between -90 and 90 degrees vanishes only at 0. */
module RealMath {

  /** sin, cos and tan of an angle given in degrees (the source always
      converts with `radians` first), radians-to-degrees, tanh and sqrt. */
  datatype Transcendentals = Transcendentals(
    sinDeg: real -> real,
    cosDeg: real -> real,
    tanDeg: real -> real,
    degrees: real -> real,
    tanh: real -> real,
    sqrt: real -> real)

  /** The square root is non-negative, and positive on positive arguments;
      the tangent is non-zero on non-zero angles within (-90, 90). */
  ghost predicate IsSound(t: Transcendentals) {
    && (forall x: real {:trigger t.sqrt(x)} :: 0.0 <= x ==> 0.0 <= t.sqrt(x) && (0.0 < x ==> 0.0 < t.sqrt(x)))
    && (forall x: real {:trigger t.tanDeg(x)} :: -90.0 < x < 90.0 && x != 0.0 ==> t.tanDeg(x) != 0.0)
  }

  type MathLib = t: Transcendentals | IsSound(t)
    witness Transcendentals(x => 0.0, x => 1.0, x => x, x => x, x => x, x => if 0.0 <= x then x else 0.0)

  /** The Pythagorean identity at one angle. It is not assumed of every
      angle: callers that need it state it for the angles they use. */
  predicate Pythagorean(m: MathLib, angle: real) {
    m.cosDeg(angle) * m.cosDeg(angle) + m.sinDeg(angle) * m.sinDeg(angle) == 1.0
  }

  function Abs(x: real): real { if x < 0.0 then -x else x }
  function Min(a: real, b: real): real { if a <= b then a else b }
  function Max(a: real, b: real): real { if a >= b then a else b }

  /** Python's `math.copysign(magnitude, sign)` for a non-negative magnitude. */
  function CopySign(magnitude: real, sign: real): real { if sign < 0.0 then -magnitude else magnitude }

  /** The value is a whole number. */
  predicate IsIntegral(x: real) { x.Floor as real == x }

  /** Python's float `x % 360`: the remainder takes the sign of the divisor. */
  function Mod360(x: real): (r: real)
    ensures 0.0 <= r < 360.0
    ensures IsIntegral((x - r) / 360.0)
  {
    x - 360.0 * (x / 360.0).Floor as real
  }

  /** On [-360, 360) the remainder is the value itself or one turn more. */
  lemma Mod360Small(x: real)
    requires -360.0 <= x < 360.0
    ensures Mod360(x) == if x >= 0.0 then x else x + 360.0
  {
    var k := (x / 360.0).Floor;
    assert k == 0 || k == -1;
  }

  /** Two values that differ by whole turns have the same remainder. */
  lemma Mod360Periodic(x: real, y: real)
    requires IsIntegral((x - y) / 360.0)
    ensures Mod360(x) == Mod360(y)
  {
    var rx, ry := Mod360(x), Mod360(y);
    var d := (rx - ry) / 360.0;
    assert d == (x - y) / 360.0 - (x - rx) / 360.0 + (y - ry) / 360.0;
    IntegralSum((x - y) / 360.0, (y - ry) / 360.0);
    IntegralDifference((x - y) / 360.0 + (y - ry) / 360.0, (x - rx) / 360.0);
    assert -1.0 < d < 1.0;
  }

  lemma IntegralSum(a: real, b: real)
    requires IsIntegral(a) && IsIntegral(b)
    ensures IsIntegral(a + b)
  {
    assert a + b == (a.Floor + b.Floor) as real;
  }

  lemma IntegralDifference(a: real, b: real)
    requires IsIntegral(a) && IsIntegral(b)
    ensures IsIntegral(a - b)
  {
    assert a - b == (a.Floor - b.Floor) as real;
  }

  lemma SquarePositive(x: real)
    requires x != 0.0
    ensures x * x > 0.0
  {
  }

  lemma SumOfSquaresPositive(a: real, b: real)
    requires a != 0.0
    ensures a * a + b * b > 0.0
  {
    SquarePositive(a);
    assert b * b >= 0.0;
  }

  lemma InversePositive(x: real)
    requires 0.0 < x
    ensures 0.0 < 1.0 / x
  {
  }

  lemma ProductNonNegative(a: real, b: real)
    requires (a >= 0.0 && b >= 0.0) || (a <= 0.0 && b <= 0.0)
    ensures a * b >= 0.0
  {
    if a <= 0.0 && b <= 0.0 {
      assert a * b == (-a) * (-b);
    }
  }

  /** Multiplying by a positive factor preserves strict order, both ways. */
  lemma MulMonotone(c: real, a: real, b: real)
    requires c > 0.0
    ensures a < b <==> c * a < c * b
  {
    if a < b {
      assert c * b - c * a == c * (b - a);
    } else {
      assert c * a - c * b == c * (a - b);
    }
  }
}
