/**
 * The vectors, points, rays and colours the renderer computes with, over
 * the reals (src/math/vector.rs, point.rs, ray.rs and src/imaging/color.rs
 * are not part of this model; only the operations the renderer's decision
 * logic needs are given here).
 */
module Geometry {

  datatype Vector3 = Vector3(x: real, y: real, z: real)
  {
    function Scale(f: real): Vector3
    {
      Vector3(x * f, y * f, z * f)
    }
  }

  datatype Point3 = Point3(x: real, y: real, z: real)
  {
    function Plus(v: Vector3): Point3
    {
      Point3(x + v.x, y + v.y, z + v.z)
    }

    function Minus(p: Point3): Vector3
    {
      Vector3(x - p.x, y - p.y, z - p.z)
    }
  }

  datatype Vector2 = Vector2(x: real, y: real)
  {
    function Scale(f: real): Vector2
    {
      Vector2(x * f, y * f)
    }
  }

  datatype Point2 = Point2(x: real, y: real)
  {
    function Plus(v: Vector2): Point2
    {
      Point2(x + v.x, y + v.y)
    }
  }

  /** `Ray`: an origin and a direction. */
  datatype Ray = Ray(origin: Point3, direction: Vector3)
  {
    /** `at`: the point `t` directions along the ray. */
    function At(t: real): Point3
    {
      origin.Plus(direction.Scale(t))
    }
  }

  /** `Ray::through`: the ray from `origin` whose direction reaches `point` at t = 1. */
  function Through(origin: Point3, point: Point3): Ray
  {
    Ray(origin, point.Minus(origin))
  }

  /** `Color`: red, green and blue intensities. */
  datatype Color = Color(r: real, g: real, b: real)
  {
    function Plus(c: Color): Color
    {
      Color(r + c.r, g + c.g, b + c.b)
    }

    function Scale(f: real): Color
    {
      Color(r * f, g * f, b * f)
    }

    /** Component-wise product, as colours are multiplied. */
    function Times(c: Color): Color
    {
      Color(r * c.r, g * c.g, b * c.b)
    }

    predicate NonNegative()
    {
      r >= 0.0 && g >= 0.0 && b >= 0.0
    }
  }

  function Black(): Color
  {
    Color(0.0, 0.0, 0.0)
  }
}
