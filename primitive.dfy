/**
 * Hits and the closest-hit rule (src/primitives/primitive.rs).
 *
 * A `Hit` gathers the fields the primitives of the renderer set or read:
 * the ray parameter `t`, the global position, the local uv coordinates,
 * the local coordinate frame (whose z axis is the normal), the material a
 * decorator attaches and the material properties the ray tracer shades
 * with.
 */
module Primitives {
  import opened Wrappers
  import opened Geometry

  /** A local coordinate frame: an origin and three axes. */
  datatype Frame = Frame(origin: Point3, xAxis: Vector3, yAxis: Vector3, zAxis: Vector3)

  /** A material, known only by identity. */
  datatype MaterialRef = MaterialRef(id: nat)

  /** `MaterialProperties`: the diffuse colour used for shading. */
  datatype MaterialProperties = MaterialProperties(diffuse: Color)

  datatype Hit = Hit(
    t: real,
    position: Point3,
    uv: Point2,
    frame: Frame,
    material: Option<MaterialRef>,
    properties: Option<MaterialProperties>)
  {
    /** `normal`: the z axis of the hit's frame. */
    function Normal(): Vector3
    {
      frame.zAxis
    }
  }

  function Min(a: real, b: real): real
  {
    if a <= b then a else b
  }

  /**
   * `Hit::overwrite_if_closer`: the hit held becomes the new one only when
   * the new one is strictly closer, so on a tie the hit already held is
   * kept, and afterwards `t` is the smaller of the two.
   */
  method OverwriteIfCloser(current: Hit, hit: Hit) returns (updated: Hit)
    requires current.t >= 0.0 && hit.t >= 0.0
    ensures updated.t == Min(current.t, hit.t)
    ensures hit.t < current.t ==> updated == hit
    ensures hit.t >= current.t ==> updated == current
  {
    updated := current;
    if hit.t < current.t {
      updated := hit;
    }
  }
}
