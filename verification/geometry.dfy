/**
 Two- and three-dimensional vectors over the reals, and the two pieces of
 vector math the character controller uses: the perp-dot "normalized angle"
 and the quarter turn about the axis pointing away from the viewer.
 Floating-point rounding is not modelled: every component is an exact real.
 */
module Geometry {

  datatype Vec2 = Vec2(x: real, y: real)

  /** A transform position; the controller moves in the x/y plane only. */
  datatype Vec3 = Vec3(x: real, y: real, z: real)

  const Zero: Vec2 := Vec2(0.0, 0.0)

  function Add(a: Vec2, b: Vec2): Vec2 {
    Vec2(a.x + b.x, a.y + b.y)
  }

  function Sub(a: Vec2, b: Vec2): Vec2 {
    Vec2(a.x - b.x, a.y - b.y)
  }

  function Neg(a: Vec2): Vec2 {
    Vec2(-a.x, -a.y)
  }

  function Scale(a: Vec2, k: real): Vec2 {
    Vec2(a.x * k, a.y * k)
  }

  function Dot(a: Vec2, b: Vec2): real {
    a.x * b.x + a.y * b.y
  }

  function SqrMagnitude(a: Vec2): real {
    Dot(a, a)
  }

  predicate IsUnit(a: Vec2) {
    SqrMagnitude(a) == 1.0
  }

  function Abs(r: real): real {
    if r < 0.0 then -r else r
  }

  /** The implicit Vector3-to-Vector2 conversion: drops z. */
  function Flatten(v: Vec3): Vec2 {
    Vec2(v.x, v.y)
  }

  /** The implicit Vector2-to-Vector3 conversion followed by setting z. */
  function Lift(v: Vec2, z: real): Vec3 {
    Vec3(v.x, v.y, z)
  }

  function Sub3(a: Vec3, b: Vec3): Vec3 {
    Vec3(a.x - b.x, a.y - b.y, a.z - b.z)
  }

  function SqrMagnitude3(a: Vec3): real {
    a.x * a.x + a.y * a.y + a.z * a.z
  }

  /** The 2D cross product of a and b: the component of b along a turned a
      quarter clockwise (to the right, with y pointing up). For unit vectors
      it is the sine of the signed angle from a to b: 0 when they are
      parallel or opposite, 1 when b is a quarter turn to the right of a and
      -1 when it is a quarter turn to the left (AngleOfPerpendicular). */
  function GetNormalizedAngle(a: Vec2, b: Vec2): real {
    -a.x * b.y + a.y * b.x
  }

  /** The angle is b's component along a's clockwise quarter turn. */
  lemma AngleIsTurnedDot(a: Vec2, b: Vec2)
    ensures GetNormalizedAngle(a, b) == Dot(RotateAboutBack(a, Plus90), b)
    ensures GetNormalizedAngle(a, b) == -Dot(RotateAboutBack(a, Minus90), b)
  {
  }

  lemma AngleOfSelfIsZero(a: Vec2)
    ensures GetNormalizedAngle(a, a) == 0.0
  {
  }

  lemma AngleIsAntisymmetric(a: Vec2, b: Vec2)
    ensures GetNormalizedAngle(a, b) == -GetNormalizedAngle(b, a)
  {
  }

  /** Reversing the first argument flips the sign of the angle. */
  lemma AngleOfNegation(a: Vec2, b: Vec2)
    ensures GetNormalizedAngle(Neg(a), b) == -GetNormalizedAngle(a, b)
  {
  }

  /** Lagrange's identity in the plane: the squared cross product and the
      squared dot product add up to the product of the squared lengths. */
  lemma AngleAndDot(a: Vec2, b: Vec2)
    ensures GetNormalizedAngle(a, b) * GetNormalizedAngle(a, b) + Dot(a, b) * Dot(a, b)
            == SqrMagnitude(a) * SqrMagnitude(b)
  {
    var c, d := GetNormalizedAngle(a, b), Dot(a, b);
    calc {
      c * c + d * d;
      (a.y * b.x - a.x * b.y) * (a.y * b.x - a.x * b.y) + (a.x * b.x + a.y * b.y) * (a.x * b.x + a.y * b.y);
      a.y * a.y * b.x * b.x + a.x * a.x * b.y * b.y + a.x * a.x * b.x * b.x + a.y * a.y * b.y * b.y;
      (a.x * a.x + a.y * a.y) * (b.x * b.x + b.y * b.y);
    }
  }

  // Ordered-field facts, each proved in a context small enough for the
  // solver's non-linear reasoning to be dependable.

  lemma MulMonotone(k: real, a: real, b: real)
    requires k >= 0.0 && a <= b
    ensures k * a <= k * b
  {
  }

  lemma MulStrict(k: real, a: real, b: real)
    requires k > 0.0 && a < b
    ensures k * a < k * b
  {
  }

  lemma ScaledBetween(k: real, a: real)
    requires k >= 0.0 && 0.0 <= a <= 1.0
    ensures 0.0 <= k * a <= k
  {
  }

  lemma ScaledTwiceBetween(k: real, a: real, m: real)
    requires k >= 0.0 && 0.0 <= a <= 1.0 && m == k * a
    ensures 0.0 <= m * a <= k
  {
    ScaledBetween(k, a);
    assert 0.0 <= m <= k;
    ScaledBetween(m, a);
  }

  /** A real whose square is at most 1 lies in [-1, 1]. */
  lemma SquareAtMostOne(r: real)
    requires r * r <= 1.0
    ensures -1.0 <= r <= 1.0
  {
    if r > 1.0 {
      MulStrict(r, 1.0, r);
    } else if r < -1.0 {
      MulStrict(-r, 1.0, -r);
    }
  }

  /** A real whose square is 1 is 1 or -1. */
  lemma SquareIsOne(r: real)
    requires r * r == 1.0
    ensures r == 1.0 || r == -1.0
  {
    if r > 1.0 {
      MulStrict(r, 1.0, r);
    } else if 0.0 < r < 1.0 {
      MulStrict(r, r, 1.0);
    } else if -1.0 < r < 0.0 {
      MulStrict(-r, -r, 1.0);
    } else if r < -1.0 {
      MulStrict(-r, 1.0, -r);
    }
  }

  /** For unit vectors the normalized angle lies in [-1, 1]. */
  lemma AngleIsBounded(a: Vec2, b: Vec2)
    requires IsUnit(a) && IsUnit(b)
    ensures -1.0 <= GetNormalizedAngle(a, b) <= 1.0
    ensures Abs(GetNormalizedAngle(a, b)) <= 1.0
  {
    AngleAndDot(a, b);
    SquareAtMostOne(GetNormalizedAngle(a, b));
  }

  /** Solving the two linear equations Dot(a, b) == 0 and
      GetNormalizedAngle(a, b) == s for b, whose determinant is the squared
      length of a. */
  lemma SolvePerpendicular(a: Vec2, b: Vec2, s: real)
    requires IsUnit(a) && Dot(a, b) == 0.0 && GetNormalizedAngle(a, b) == s
    ensures b.x == s * a.y && b.y == -(s * a.x)
  {
    calc {
      b.x;
      b.x * (a.x * a.x + a.y * a.y);
      a.x * (a.x * b.x) + a.y * (a.y * b.x);
      a.x * -(a.y * b.y) + a.y * (s + a.x * b.y);
      s * a.y;
    }
    calc {
      b.y;
      b.y * (a.x * a.x + a.y * a.y);
      a.x * (a.x * b.y) + a.y * (a.y * b.y);
      a.x * (a.y * b.x - s) + a.y * -(a.x * b.x);
      -(s * a.x);
    }
  }

  /** The normalized angle from a to its own quarter turns: the squared
      length of a for the clockwise turn, its negation for the other. */
  lemma AngleOfQuarterTurn(a: Vec2)
    ensures GetNormalizedAngle(a, RotateAboutBack(a, Plus90)) == SqrMagnitude(a)
    ensures GetNormalizedAngle(a, RotateAboutBack(a, Minus90)) == -SqrMagnitude(a)
  {
  }

  /** Perpendicular unit vectors are a quarter turn apart, and the sign of the
      angle says which way: 1 exactly when b is a's clockwise quarter turn
      (b to the right of a), -1 exactly when it is the counter-clockwise one. */
  lemma AngleOfPerpendicular(a: Vec2, b: Vec2)
    requires IsUnit(a) && IsUnit(b) && Dot(a, b) == 0.0
    ensures GetNormalizedAngle(a, b) == 1.0 || GetNormalizedAngle(a, b) == -1.0
    ensures GetNormalizedAngle(a, b) == 1.0 <==> b == RotateAboutBack(a, Plus90)
    ensures GetNormalizedAngle(a, b) == -1.0 <==> b == RotateAboutBack(a, Minus90)
  {
    AngleAndDot(a, b);
    SquareIsOne(GetNormalizedAngle(a, b));
    AngleOfQuarterTurn(a);
    var s := GetNormalizedAngle(a, b);
    SolvePerpendicular(a, b, s);
    if s == 1.0 {
      assert b == Vec2(a.y, -a.x);
    } else {
      assert b == Vec2(-a.y, a.x);
    }
  }

  /** In Unity's axes, with y up: (1, 0) lies a quarter turn to the right of
      (0, 1), and the angle from (0, 1) to it is 1, not -1. */
  lemma AngleOfRightTurn()
    ensures GetNormalizedAngle(Vec2(0.0, 1.0), Vec2(1.0, 0.0)) == 1.0
  {
  }

  /** A rotation of +90 or -90 degrees about Vector3.back, the axis pointing
      from the screen towards the viewer's back (0, 0, -1). */
  datatype QuarterTurn = Plus90 | Minus90

  function Opposite(t: QuarterTurn): QuarterTurn {
    if t == Plus90 then Minus90 else Plus90
  }

  /** Rotating a vector in the x/y plane by the quarter turn `t` about
      (0, 0, -1): +90 degrees is clockwise as seen from +z, -90 counter-clockwise.
      Either turn is perpendicular to its input and keeps its length. */
  function RotateAboutBack(v: Vec2, t: QuarterTurn): (r: Vec2)
    ensures Dot(r, v) == 0.0
    ensures SqrMagnitude(r) == SqrMagnitude(v)
  {
    match t
    case Plus90 => Vec2(v.y, -v.x)
    case Minus90 => Vec2(-v.y, v.x)
  }

  /** Turning back the other way undoes a quarter turn. */
  lemma RotationInverse(v: Vec2, t: QuarterTurn)
    ensures RotateAboutBack(RotateAboutBack(v, t), Opposite(t)) == v
  {
  }

  /** The two quarter turns point in opposite directions. */
  lemma RotationsAreOpposite(v: Vec2)
    ensures RotateAboutBack(v, Minus90) == Neg(RotateAboutBack(v, Plus90))
  {
  }

  lemma DotOfAdd(a: Vec2, b: Vec2, c: Vec2)
    ensures Dot(Add(a, b), c) == Dot(a, c) + Dot(b, c)
  {
  }

  /** Dot products scale linearly. */
  lemma DotOfScale(a: Vec2, k: real, b: Vec2)
    ensures Dot(Scale(a, k), b) == k * Dot(a, b)
    ensures SqrMagnitude(Scale(a, k)) == k * k * SqrMagnitude(a)
  {
  }
}
