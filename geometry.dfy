/** World-space vectors and the linear interpolation the renderer uses. */
module Geometry {

  /** A point or a size in world space (XNA's Vector3), with real coordinates. */
  datatype Vec3 = Vec3(x: real, y: real, z: real) {

    /** The X and Y components, as the XY extension of Vector3 gives them. */
    function XY(): Vec2 {
      Vec2(x, y)
    }
  }

  /** A two-dimensional size (XNA's Vector2). */
  datatype Vec2 = Vec2(x: real, y: real)

  /** Linear interpolation in the form XNA's MathHelper.Lerp computes it. */
  function Lerp(a: real, b: real, t: real): real {
    a + (b - a) * t
  }

  /** Component-wise linear interpolation of two points. */
  function Lerp3(a: Vec3, b: Vec3, t: real): Vec3 {
    Vec3(Lerp(a.x, b.x, t), Lerp(a.y, b.y, t), Lerp(a.z, b.z, t))
  }
}
