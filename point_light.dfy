/**
 * The point light (src/lights/point.rs and the `LightRay` of
 * src/lights/light.rs): towards any point it sends exactly one light ray,
 * from its position towards the point, in its own colour.  The iterator
 * it hands out yields that ray once and is empty from then on.
 */
module PointLights {
  import opened Wrappers
  import opened Geometry

  /** `LightRay`: the light's colour travelling along a ray. */
  datatype LightRay = LightRay(color: Color, ray: Ray)

  /** `PointLight`. */
  datatype PointLight = PointLight(color: Color, position: Point3)

  /** The rays `lightrays_to(point)` yields, in order. */
  function LightRaysTo(light: PointLight, point: Point3): seq<LightRay>
  {
    [LightRay(light.color, Through(light.position, point))]
  }

  /** `PointLightIterator`: the light ray not yet taken, if any. */
  class PointLightIterator {
    var lightray: Option<LightRay>

    constructor (lightray: Option<LightRay>)
      ensures this.lightray == lightray
    {
      this.lightray := lightray;
    }

    /** How many items the iterator still yields. */
    function Remaining(): nat
      reads this
    {
      if lightray.Some? then 1 else 0
    }

    /** `next`: takes the pending ray, after which the iterator is empty. */
    method Next() returns (item: Option<LightRay>)
      modifies this
      ensures item == old(lightray) && lightray == None
      ensures Remaining() == 0 && (old(Remaining()) == 1 <==> item.Some?)
    {
      item := lightray;
      lightray := None;
    }
  }

  /**
   * `lightrays_to`: a fresh iterator holding the one ray from the light's
   * position through `point`, in the light's colour.
   */
  method LightraysTo(light: PointLight, point: Point3) returns (iter: PointLightIterator)
    ensures fresh(iter)
    ensures iter.lightray == Some(LightRaysTo(light, point)[0])
    ensures iter.lightray.value.ray.origin == light.position
    ensures iter.lightray.value.ray.origin.Plus(iter.lightray.value.ray.direction) == point
    ensures iter.lightray.value.color == light.color
  {
    var ray := Through(light.position, point);
    iter := new PointLightIterator(Some(LightRay(light.color, ray)));
  }
}
