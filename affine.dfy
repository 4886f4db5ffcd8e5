/**
 * The 2D affine factories: literal 3x3 matrices acting on homogeneous
 * coordinates (x, y, w), where w = 1 marks a point and w = 0 a free vector.
 * Rotation2D takes the cosine c and sine s of its angle instead of the angle.
 */
module Affine {
  import opened Vectors
  import opened Matrix

  /** Rotation2D: the counter-clockwise rotation whose angle has cosine c and sine s; it keeps w, and on the unit circle its determinant is 1. */
  function Rotation2D(c: real, s: real): (r: Mat3)
    ensures r.values[2] == [0.0, 0.0, 1.0]
    ensures Determinant(r.values) == c * c + s * s
  {
    Mat3([[c, -s, 0.0], [s, c, 0.0], [0.0, 0.0, 1.0]])
  }

  /** Translation: moves points by the displacement; it keeps w and the determinant is 1. */
  function Translation(displacement: Vec2): (r: Mat3)
    ensures r.values[2] == [0.0, 0.0, 1.0]
    ensures Determinant(r.values) == 1.0
  {
    Mat3([[1.0, 0.0, displacement.x], [0.0, 1.0, displacement.y], [0.0, 0.0, 1.0]])
  }

  /** Scaling: axis-aligned scaling by factor.x and factor.y; it keeps w and scales areas by factor.x * factor.y. */
  function Scaling(factor: Vec2): (r: Mat3)
    ensures r.values[2] == [0.0, 0.0, 1.0]
    ensures Determinant(r.values) == factor.x * factor.y
  {
    Mat3([[factor.x, 0.0, 0.0], [0.0, factor.y, 0.0], [0.0, 0.0, 1.0]])
  }

  /**
   * BasisChange: from coordinates about center c in the basis (b1, b2) to
   * Cartesian coordinates. It keeps w, and it is singular exactly when b1 and
   * b2 are parallel (their cross product is 0).
   */
  function BasisChange(c: Vec2, b1: Vec2, b2: Vec2): (r: Mat3)
    ensures r.values[2] == [0.0, 0.0, 1.0]
    ensures Determinant(r.values) == b1.x * b2.y - b2.x * b1.y
  {
    Mat3([[b1.x, b2.x, c.x], [b1.y, b2.y, c.y], [0.0, 0.0, 1.0]])
  }

  // ---------------------------------------------------------------------------
  // What each factory does to a homogeneous vector

  /** Coordinates (v0, v1) about c in the basis (b1, b2) land at w*c + v0*b1 + v1*b2; w is kept. */
  lemma BasisChangeAction(c: Vec2, b1: Vec2, b2: Vec2, v: Vec3)
    ensures Apply(BasisChange(c, b1, b2).values, v)
         == [v[0] * b1.x + v[1] * b2.x + v[2] * c.x, v[0] * b1.y + v[1] * b2.y + v[2] * c.y, v[2]]
  {
    var image: Vec3 := [v[0] * b1.x + v[1] * b2.x + v[2] * c.x, v[0] * b1.y + v[1] * b2.y + v[2] * c.y, v[2]];
    forall t | 0 <= t < 3
      ensures Apply(BasisChange(c, b1, b2).values, v)[t] == image[t]
    {
    }
  }

  /** A translation adds w times the displacement: points move, free vectors do not. */
  lemma TranslationAction(displacement: Vec2, v: Vec3)
    ensures Apply(Translation(displacement).values, v)
         == [v[0] + v[2] * displacement.x, v[1] + v[2] * displacement.y, v[2]]
  {
    BasisChangeAction(displacement, Vec2X, Vec2Y, v);
    TranslationIsBasisChange(displacement);
  }

  lemma TranslationMovesPointsOnly(displacement: Vec2, x: real, y: real)
    ensures Apply(Translation(displacement).values, Point(x, y)) == Point(x + displacement.x, y + displacement.y)
    ensures Apply(Translation(displacement).values, Direction(x, y)) == Direction(x, y)
  {
    TranslationAction(displacement, [x, y, 1.0]);
    TranslationAction(displacement, [x, y, 0.0]);
    assert [x + 1.0 * displacement.x, y + 1.0 * displacement.y, 1.0] == [x + displacement.x, y + displacement.y, 1.0];
    assert [x + 0.0 * displacement.x, y + 0.0 * displacement.y, 0.0] == [x, y, 0.0];
  }

  /** A scaling multiplies each coordinate by its factor and keeps w. */
  lemma ScalingAction(factor: Vec2, v: Vec3)
    ensures Apply(Scaling(factor).values, v) == [factor.x * v[0], factor.y * v[1], v[2]]
  {
    var image: Vec3 := [factor.x * v[0], factor.y * v[1], v[2]];
    forall t | 0 <= t < 3
      ensures Apply(Scaling(factor).values, v)[t] == image[t]
    {
    }
  }

  /** A rotation turns (x, y) and keeps w. */
  lemma RotationAction(c: real, s: real, v: Vec3)
    ensures Apply(Rotation2D(c, s).values, v) == [c * v[0] - s * v[1], s * v[0] + c * v[1], v[2]]
  {
    var image: Vec3 := [c * v[0] - s * v[1], s * v[0] + c * v[1], v[2]];
    forall t | 0 <= t < 3
      ensures Apply(Rotation2D(c, s).values, v)[t] == image[t]
    {
    }
  }

  // ---------------------------------------------------------------------------
  // Relations between the factories

  lemma TranslationIsBasisChange(displacement: Vec2)
    ensures Translation(displacement) == BasisChange(displacement, Vec2X, Vec2Y)
  {
  }

  lemma ScalingIsBasisChange(factor: Vec2)
    ensures Scaling(factor) == BasisChange(Vec2Zero, Vec2(factor.x, 0.0), Vec2(0.0, factor.y))
  {
  }

  /** Translation by zero, scaling by one, the standard basis about the origin and the zero angle are Id. */
  lemma FactoriesOfIdentity()
    ensures Translation(Vec2Zero) == Id
    ensures Scaling(Vec2One) == Id
    ensures BasisChange(Vec2Zero, Vec2X, Vec2Y) == Id
    ensures Rotation2D(1.0, 0.0) == Id
  {
  }

  /** Translations compose by adding displacements, so the opposite displacement undoes one. */
  lemma TranslationsCompose(a: Vec2, b: Vec2)
    ensures Mul(Translation(a).values, Translation(b).values) == Translation(Vec2(a.x + b.x, a.y + b.y)).values
    ensures Mul(Translation(Vec2(-a.x, -a.y)).values, Translation(a).values) == IdGrid
  {
    GridEq(Mul(Translation(a).values, Translation(b).values), Translation(Vec2(a.x + b.x, a.y + b.y)).values);
    GridEq(Mul(Translation(Vec2(-a.x, -a.y)).values, Translation(a).values), IdGrid);
  }

  /** Scalings compose by multiplying factors. */
  lemma ScalingsCompose(a: Vec2, b: Vec2)
    ensures Mul(Scaling(a).values, Scaling(b).values) == Scaling(Vec2(a.x * b.x, a.y * b.y)).values
  {
    GridEq(Mul(Scaling(a).values, Scaling(b).values), Scaling(Vec2(a.x * b.x, a.y * b.y)).values);
  }

  /** Rotations compose by the angle-addition formulas. */
  lemma RotationsCompose(c1: real, s1: real, c2: real, s2: real)
    ensures Mul(Rotation2D(c1, s1).values, Rotation2D(c2, s2).values)
         == Rotation2D(c1 * c2 - s1 * s2, s1 * c2 + c1 * s2).values
  {
    GridEq(Mul(Rotation2D(c1, s1).values, Rotation2D(c2, s2).values),
           Rotation2D(c1 * c2 - s1 * s2, s1 * c2 + c1 * s2).values);
  }

  /** When c and s lie on the unit circle, the rotation is orthogonal with determinant 1. */
  lemma RotationIsOrthogonal(c: real, s: real)
    requires c * c + s * s == 1.0
    ensures Mul(Transposed(Rotation2D(c, s).values), Rotation2D(c, s).values) == IdGrid
    ensures Determinant(Rotation2D(c, s).values) == 1.0
  {
    GridEq(Mul(Transposed(Rotation2D(c, s).values), Rotation2D(c, s).values), IdGrid);
  }

  // ---------------------------------------------------------------------------
  // Examples

  lemma TranslationExamples()
    ensures Apply(Translation(Vec2(-2.0, 4.0)).values, [3.0, -6.0, 1.0]) == [1.0, -2.0, 1.0]
    ensures Apply(Translation(Vec2(-2.0, 4.0)).values, [3.0, -6.0, 0.0]) == [3.0, -6.0, 0.0]
    ensures Apply(Translation(Vec2X).values, [0.0, 1.0, 1.0]) == [1.0, 1.0, 1.0]
    ensures Apply(Translation(Vec2Y).values, [3.0, -6.0, 1.0]) == [3.0, -5.0, 1.0]
  {
    TranslationAction(Vec2(-2.0, 4.0), [3.0, -6.0, 1.0]);
    TranslationAction(Vec2(-2.0, 4.0), [3.0, -6.0, 0.0]);
    TranslationAction(Vec2X, [0.0, 1.0, 1.0]);
    TranslationAction(Vec2Y, [3.0, -6.0, 1.0]);
  }

  lemma ScalingExamples()
    ensures Apply(Scaling(Vec2(2.0, -3.0)).values, [3.0, -6.0, 1.0]) == [6.0, 18.0, 1.0]
    ensures Apply(Scaling(Vec2(2.0, -3.0)).values, [0.0, 1.0, 0.0]) == [0.0, -3.0, 0.0]
    ensures Apply(Scaling(Vec2Zero).values, [3.0, -6.0, 1.0]) == [0.0, 0.0, 1.0]
    ensures Apply(Scaling(Vec2Zero).values, [3.0, -6.0, 0.0]) == [0.0, 0.0, 0.0]
  {
    ScalingAction(Vec2(2.0, -3.0), [3.0, -6.0, 1.0]);
    ScalingAction(Vec2(2.0, -3.0), [0.0, 1.0, 0.0]);
    ScalingAction(Vec2Zero, [3.0, -6.0, 1.0]);
    ScalingAction(Vec2Zero, [3.0, -6.0, 0.0]);
  }

  lemma BasisChangeExamples()
    ensures Apply(BasisChange(Vec2(-2.0, 3.0), Vec2(1.0, 1.0), Vec2(2.0, -1.0)).values, [1.0, 0.0, 1.0]) == [-1.0, 4.0, 1.0]
    ensures Apply(BasisChange(Vec2(-2.0, 3.0), Vec2(1.0, 1.0), Vec2(2.0, -1.0)).values, [3.0, -6.0, 1.0]) == [-11.0, 12.0, 1.0]
    ensures Apply(BasisChange(Vec2(-2.0, 3.0), Vec2(1.0, 1.0), Vec2(2.0, -1.0)).values, [3.0, -6.0, 0.0]) == [-9.0, 9.0, 0.0]
  {
    BasisChangeAction(Vec2(-2.0, 3.0), Vec2(1.0, 1.0), Vec2(2.0, -1.0), [1.0, 0.0, 1.0]);
    BasisChangeAction(Vec2(-2.0, 3.0), Vec2(1.0, 1.0), Vec2(2.0, -1.0), [3.0, -6.0, 1.0]);
    BasisChangeAction(Vec2(-2.0, 3.0), Vec2(1.0, 1.0), Vec2(2.0, -1.0), [3.0, -6.0, 0.0]);
  }

  /** A quarter turn (cosine 0, sine 1) takes the x axis to the y axis and the y axis to minus the x axis. */
  lemma QuarterTurnExamples()
    ensures Apply(Rotation2D(0.0, 1.0).values, [1.0, 0.0, 1.0]) == [0.0, 1.0, 1.0]
    ensures Apply(Rotation2D(0.0, 1.0).values, [0.0, 1.0, 0.0]) == [-1.0, 0.0, 0.0]
  {
    RotationAction(0.0, 1.0, [1.0, 0.0, 1.0]);
    RotationAction(0.0, 1.0, [0.0, 1.0, 0.0]);
  }

  /** A half turn (cosine -1, sine 0) sends each axis to its opposite, points and vectors alike. */
  lemma HalfTurnExamples()
    ensures Apply(Rotation2D(-1.0, 0.0).values, [1.0, 0.0, 1.0]) == [-1.0, 0.0, 1.0]
    ensures Apply(Rotation2D(-1.0, 0.0).values, [0.0, 1.0, 1.0]) == [0.0, -1.0, 1.0]
    ensures Apply(Rotation2D(-1.0, 0.0).values, [1.0, 0.0, 0.0]) == [-1.0, 0.0, 0.0]
    ensures Apply(Rotation2D(-1.0, 0.0).values, [0.0, 1.0, 0.0]) == [0.0, -1.0, 0.0]
  {
    RotationAction(-1.0, 0.0, [1.0, 0.0, 1.0]);
    RotationAction(-1.0, 0.0, [0.0, 1.0, 1.0]);
    RotationAction(-1.0, 0.0, [1.0, 0.0, 0.0]);
    RotationAction(-1.0, 0.0, [0.0, 1.0, 0.0]);
  }

  /** Three quarter turns (cosine 0, sine -1) send the x axis to minus the y axis and the y axis to the x axis. */
  lemma ThreeQuarterTurnExamples()
    ensures Apply(Rotation2D(0.0, -1.0).values, [1.0, 0.0, 1.0]) == [0.0, -1.0, 1.0]
    ensures Apply(Rotation2D(0.0, -1.0).values, [0.0, 1.0, 1.0]) == [1.0, 0.0, 1.0]
    ensures Apply(Rotation2D(0.0, -1.0).values, [1.0, 0.0, 0.0]) == [0.0, -1.0, 0.0]
    ensures Apply(Rotation2D(0.0, -1.0).values, [0.0, 1.0, 0.0]) == [1.0, 0.0, 0.0]
  {
    RotationAction(0.0, -1.0, [1.0, 0.0, 1.0]);
    RotationAction(0.0, -1.0, [0.0, 1.0, 1.0]);
    RotationAction(0.0, -1.0, [1.0, 0.0, 0.0]);
    RotationAction(0.0, -1.0, [0.0, 1.0, 0.0]);
  }

  /**
   * A twelfth of a turn: cosine c, the positive square root of 3/4, and sine
   * 1/2. The x axis goes to (c, 1/2) and the y axis to (-1/2, c).
   */
  lemma ThirtyDegreeExamples(c: real)
    requires c > 0.0 && c * c == 3.0 / 4.0
    ensures Apply(Rotation2D(c, 0.5).values, [1.0, 0.0, 1.0]) == [c, 0.5, 1.0]
    ensures Apply(Rotation2D(c, 0.5).values, [0.0, 1.0, 1.0]) == [-0.5, c, 1.0]
    ensures Apply(Rotation2D(c, 0.5).values, [1.0, 0.0, 0.0]) == [c, 0.5, 0.0]
    ensures Apply(Rotation2D(c, 0.5).values, [0.0, 1.0, 0.0]) == [-0.5, c, 0.0]
    ensures Mul(Transposed(Rotation2D(c, 0.5).values), Rotation2D(c, 0.5).values) == IdGrid
  {
    RotationAction(c, 0.5, [1.0, 0.0, 1.0]);
    RotationAction(c, 0.5, [0.0, 1.0, 1.0]);
    RotationAction(c, 0.5, [1.0, 0.0, 0.0]);
    RotationAction(c, 0.5, [0.0, 1.0, 0.0]);
    RotationIsOrthogonal(c, 0.5);
  }
}
