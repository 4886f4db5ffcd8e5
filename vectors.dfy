/**
 * The two vector types the matrix module consumes. They come from the
 * packages @azleur/vec2 and @azleur/vec3, which are not part of this model:
 * only the shapes that Mat3 relies on are declared here.
 */
module Vectors {

  /** A 2D vector with components x and y, taken by the affine factories. */
  datatype Vec2 = Vec2(x: real, y: real)

  /**
   * A 3-component vector, indexed 0..2 like the `values` array of Vec3.
   * In homogeneous coordinates index 2 is w: 1 for a point, 0 for a free vector.
   */
  type Vec3 = v: seq<real> | |v| == 3 witness [0.0, 0.0, 0.0]

  /** Vec2.Zero, Vec2.X, Vec2.Y and Vec2.One. */
  const Vec2Zero: Vec2 := Vec2(0.0, 0.0)
  const Vec2X: Vec2 := Vec2(1.0, 0.0)
  const Vec2Y: Vec2 := Vec2(0.0, 1.0)
  const Vec2One: Vec2 := Vec2(1.0, 1.0)

  /** Vec3.Zero. */
  const Vec3Zero: Vec3 := [0.0, 0.0, 0.0]

  /** A homogeneous point (x, y, 1). */
  function Point(x: real, y: real): Vec3 { [x, y, 1.0] }

  /** A homogeneous free vector (x, y, 0). */
  function Direction(x: real, y: real): Vec3 { [x, y, 0.0] }
}
