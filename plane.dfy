/**
 * `PlaneXY::find_first_positive_hit` (src/primitives/plane.rs): the plane
 * z = 0, hit by a ray that is not parallel to it and reaches it at a
 * positive `t`.
 */
module Planes {
  import opened Wrappers
  import opened Geometry
  import opened Primitives

  /** `compute_uv_coordinates`: the x and y of the hit point. */
  function ComputeUvCoordinates(p: Point3): Point2
  {
    Point2(p.x, p.y)
  }

  /**
   * `compute_coordinate_system`: the world x and y axes, and a z axis that
   * points to the side of the plane the ray comes from.
   */
  function ComputeCoordinateSystem(origin: Point3, rayOrigin: Point3): Frame
  {
    var zAxis := if rayOrigin.z > 0.0 then Vector3(0.0, 0.0, 1.0) else Vector3(0.0, 0.0, -1.0);
    Frame(origin, Vector3(1.0, 0.0, 0.0), Vector3(0.0, 1.0, 0.0), zAxis)
  }

  function FindFirstPositiveHit(ray: Ray): Option<Hit>
  {
    var d := ray.direction.z;
    if d == 0.0 then None
    else
      var t := (0.0 - ray.origin.z) / d;
      if t > 0.0 then
        var p := ray.At(t);
        Some(Hit(t, p, ComputeUvCoordinates(p), ComputeCoordinateSystem(p, ray.origin), None, None))
      else None
  }

  /** A positive quotient has operands of the same sign. */
  lemma QuotientPositive(a: real, d: real)
    requires d != 0.0
    ensures a / d > 0.0 <==> a * d > 0.0
  {
    var q := a / d;
    assert a == q * d;
    assert a * d == q * (d * d);
    assert d * d > 0.0;
  }

  /**
   * The plane is hit exactly when the ray starts off the plane and heads
   * towards it; the hit lies on the plane at the ray's `t`, its uv are the
   * hit point's x and y, its frame is the world's x and y axes with the
   * normal facing the ray's origin, and it carries no material.
   */
  lemma PlaneHit(ray: Ray)
    ensures var r := FindFirstPositiveHit(ray);
      && (ray.direction.z == 0.0 ==> r.None?)
      && (r.Some? <==> ray.origin.z * ray.direction.z < 0.0)
      && (r.Some? ==> r.value.t > 0.0 && r.value.t * ray.direction.z == -ray.origin.z)
      && (r.Some? ==> r.value.position == ray.At(r.value.t) && r.value.position.z == 0.0)
      && (r.Some? ==> r.value.uv == Point2(r.value.position.x, r.value.position.y))
      && (r.Some? ==> r.value.frame.xAxis == Vector3(1.0, 0.0, 0.0) && r.value.frame.yAxis == Vector3(0.0, 1.0, 0.0))
      && (r.Some? ==> r.value.Normal().x == 0.0 && r.value.Normal().y == 0.0 && r.value.Normal().z * ray.origin.z == if ray.origin.z > 0.0 then ray.origin.z else -ray.origin.z)
      && (r.Some? ==> r.value.material.None? && r.value.properties.None?)
  {
    var d := ray.direction.z;
    if d != 0.0 {
      var t := (0.0 - ray.origin.z) / d;
      QuotientPositive(0.0 - ray.origin.z, d);
      assert t * d == -ray.origin.z;
      assert ray.origin.z + d * t == 0.0;
    }
  }

  /** plane_hit_1: from (0, 0, 5) straight down, the hit is the origin with normal +z. */
  lemma PlaneHitFromAbove(ray: Ray)
    requires ray == Ray(Point3(0.0, 0.0, 5.0), Vector3(0.0, 0.0, -1.0))
    ensures var r := FindFirstPositiveHit(ray);
      r.Some? && r.value.position == Point3(0.0, 0.0, 0.0) && r.value.Normal() == Vector3(0.0, 0.0, 1.0)
      && r.value.frame.xAxis == Vector3(1.0, 0.0, 0.0) && r.value.frame.yAxis == Vector3(0.0, 1.0, 0.0)
  {
    PlaneHit(ray);
    assert FindFirstPositiveHit(ray).value.t == 5.0;
  }

  /** plane_hit_2: from (0, 0, -5) straight up, the hit is the origin with normal -z. */
  lemma PlaneHitFromBelow(ray: Ray)
    requires ray == Ray(Point3(0.0, 0.0, -5.0), Vector3(0.0, 0.0, 1.0))
    ensures var r := FindFirstPositiveHit(ray);
      r.Some? && r.value.position == Point3(0.0, 0.0, 0.0) && r.value.Normal() == Vector3(0.0, 0.0, -1.0)
      && r.value.frame.xAxis == Vector3(1.0, 0.0, 0.0) && r.value.frame.yAxis == Vector3(0.0, 1.0, 0.0)
  {
    PlaneHit(ray);
    assert FindFirstPositiveHit(ray).value.t == 5.0;
  }
}
