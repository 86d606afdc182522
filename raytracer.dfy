/**
 * The shading control flow of `RayTracer` (src/tracing/raytracer.rs).
 *
 * The scene's root primitive is given by its answer for every ray
 * (`Scene.root`), its light sources are point lights, and
 * `cosAngleBetween` stands for `Vector::cos_angle_between` of the math
 * kernel, which is not part of this model.  A ray that misses, or hits a
 * surface without material properties, is black; otherwise its colour is
 * the sum over the light sources of the mean contribution of each source's
 * light rays, where a ray blocked before 0.999 of its length contributes
 * black and an unblocked one the light's colour scaled by the cosine of the
 * incidence angle and the diffuse colour, when the light falls on the front
 * of the surface.
 */
module RayTracers {
  import opened Wrappers
  import opened Geometry
  import opened Primitives
  import opened PointLights

  /** `Scene`: the root primitive's first positive hit for each ray, and the light sources. */
  datatype Scene = Scene(root: Ray -> Option<Hit>, lightSources: seq<PointLight>)

  /** `RayTracer`. */
  datatype RayTracer = RayTracer(scene: Scene)

  /** `TraceResult`. */
  datatype TraceResult = TraceResult(color: Color)

  /** The fraction of a light ray's length before which a blocker casts a shadow. */
  const ShadowThreshold: real := 0.999

  /** A light ray is shadowed when something is hit before the threshold. */
  predicate IsShadowed(blocker: Option<Hit>)
  {
    blocker.Some? && blocker.value.t < ShadowThreshold
  }

  /**
   * `process_light_ray`: black when shadowed or when the light does not
   * fall on the front of the surface; otherwise the light's colour scaled
   * by the cosine and multiplied by the diffuse colour.
   */
  function ProcessLightRay(
    tracer: RayTracer, cosAngleBetween: (Vector3, Vector3) -> real,
    hit: Hit, properties: MaterialProperties, lightRay: LightRay): (c: Color)
    ensures c != Black() ==> !IsShadowed(tracer.scene.root(lightRay.ray)) && -cosAngleBetween(hit.Normal(), lightRay.ray.direction) > 0.0
  {
    if IsShadowed(tracer.scene.root(lightRay.ray)) then Black()
    else
      var cosAngle := -cosAngleBetween(hit.Normal(), lightRay.ray.direction);
      if cosAngle > 0.0 then lightRay.color.Scale(cosAngle).Times(properties.diffuse) else Black()
  }

  lemma ProductNonNegative(a: real, b: real, c: real)
    requires a >= 0.0 && b >= 0.0 && c >= 0.0
    ensures a * b * c >= 0.0
  {
    assert a * b >= 0.0;
  }

  /** A light ray of a non-negative colour on a non-negative diffuse surface contributes a non-negative colour. */
  lemma ProcessLightRayNonNegative(
    tracer: RayTracer, cosAngleBetween: (Vector3, Vector3) -> real,
    hit: Hit, properties: MaterialProperties, lightRay: LightRay)
    requires lightRay.color.NonNegative() && properties.diffuse.NonNegative()
    ensures ProcessLightRay(tracer, cosAngleBetween, hit, properties, lightRay).NonNegative()
  {
    var cosAngle := -cosAngleBetween(hit.Normal(), lightRay.ray.direction);
    if cosAngle > 0.0 {
      var l, d := lightRay.color, properties.diffuse;
      ProductNonNegative(l.r, cosAngle, d.r);
      ProductNonNegative(l.g, cosAngle, d.g);
      ProductNonNegative(l.b, cosAngle, d.b);
    }
  }

  /** The sum of the contributions of `rays`, added in order. */
  function SumOfRays(
    tracer: RayTracer, cosAngleBetween: (Vector3, Vector3) -> real,
    hit: Hit, properties: MaterialProperties, rays: seq<LightRay>): Color
  {
    if rays == [] then Black()
    else SumOfRays(tracer, cosAngleBetween, hit, properties, rays[..|rays| - 1])
           .Plus(ProcessLightRay(tracer, cosAngleBetween, hit, properties, rays[|rays| - 1]))
  }

  /** What `process_light` computes: the mean contribution of a light source's rays. */
  function LightContribution(
    tracer: RayTracer, cosAngleBetween: (Vector3, Vector3) -> real,
    hit: Hit, properties: MaterialProperties, light: PointLight): Color
  {
    var rays := LightRaysTo(light, hit.position);
    SumOfRays(tracer, cosAngleBetween, hit, properties, rays).Scale(1.0 / |rays| as real)
  }

  /** The sum of the contributions of `lights`, added in order. */
  function SumOfLights(
    tracer: RayTracer, cosAngleBetween: (Vector3, Vector3) -> real,
    hit: Hit, properties: MaterialProperties, lights: seq<PointLight>): Color
  {
    if lights == [] then Black()
    else SumOfLights(tracer, cosAngleBetween, hit, properties, lights[..|lights| - 1])
           .Plus(LightContribution(tracer, cosAngleBetween, hit, properties, lights[|lights| - 1]))
  }

  /** What `trace` computes. */
  function TraceColor(tracer: RayTracer, cosAngleBetween: (Vector3, Vector3) -> real, ray: Ray): Color
  {
    match tracer.scene.root(ray)
    case None => Black()
    case Some(hit) =>
      match hit.properties
      case None => Black()
      case Some(properties) => SumOfLights(tracer, cosAngleBetween, hit, properties, tracer.scene.lightSources)
  }

  /** `trace`: black on a miss or on a surface without material properties, shaded otherwise. */
  method Trace(tracer: RayTracer, cosAngleBetween: (Vector3, Vector3) -> real, ray: Ray) returns (result: TraceResult)
    ensures result.color == TraceColor(tracer, cosAngleBetween, ray)
    ensures tracer.scene.root(ray).None? ==> result.color == Black()
    ensures tracer.scene.root(ray).Some? && tracer.scene.root(ray).value.properties.None? ==> result.color == Black()
  {
    match tracer.scene.root(ray) {
      case None =>
        result := TraceResult(Black());
      case Some(hit) =>
        match hit.properties {
          case None =>
            result := TraceResult(Black());
          case Some(properties) =>
            var lightColor := ProcessLights(tracer, cosAngleBetween, hit, properties);
            result := TraceResult(lightColor);
        }
    }
  }

  /** `process_lights`: adds up the contribution of every light source, in order. */
  method ProcessLights(tracer: RayTracer, cosAngleBetween: (Vector3, Vector3) -> real, hit: Hit, properties: MaterialProperties)
    returns (result: Color)
    ensures result == SumOfLights(tracer, cosAngleBetween, hit, properties, tracer.scene.lightSources)
  {
    var lights := tracer.scene.lightSources;
    result := Black();
    for i := 0 to |lights|
      invariant result == SumOfLights(tracer, cosAngleBetween, hit, properties, lights[..i])
    {
      var contribution := ProcessLight(tracer, cosAngleBetween, hit, properties, lights[i]);
      assert lights[..i + 1][..i] == lights[..i];
      result := result.Plus(contribution);
    }
    assert lights[..|lights|] == lights;
  }

  /**
   * `process_light`: adds up the contributions of the light source's rays
   * while counting them, then divides by the count, which is one for a
   * point light.
   */
  method ProcessLight(
    tracer: RayTracer, cosAngleBetween: (Vector3, Vector3) -> real,
    hit: Hit, properties: MaterialProperties, light: PointLight)
    returns (result: Color)
    ensures result == LightContribution(tracer, cosAngleBetween, hit, properties, light)
  {
    ghost var rays := LightRaysTo(light, hit.position);
    result := Black();
    var count: nat := 0;
    var iter := LightraysTo(light, hit.position);
    var item := iter.Next();
    while item.Some?
      invariant count <= 1 && iter.lightray.None?
      invariant count == 0 ==> item == Some(rays[0]) && result == Black()
      invariant count == 1 ==> item.None? && result == SumOfRays(tracer, cosAngleBetween, hit, properties, rays)
      decreases 1 - count
    {
      SumOfOneRay(tracer, cosAngleBetween, hit, properties, rays);
      result := result.Plus(ProcessLightRay(tracer, cosAngleBetween, hit, properties, item.value));
      count := count + 1;
      item := iter.Next();
    }
    result := result.Scale(1.0 / count as real);
  }

  /** The sum over a single ray is that ray's contribution. */
  lemma SumOfOneRay(
    tracer: RayTracer, cosAngleBetween: (Vector3, Vector3) -> real,
    hit: Hit, properties: MaterialProperties, rays: seq<LightRay>)
    requires |rays| == 1
    ensures SumOfRays(tracer, cosAngleBetween, hit, properties, rays)
         == Black().Plus(ProcessLightRay(tracer, cosAngleBetween, hit, properties, rays[0]))
  {
    assert rays[..0] == [];
  }

  // ---------------------------------------------------------------------
  // Properties

  /** A point light's contribution is that of its one ray: the mean over one ray is the ray's. */
  lemma PointLightContribution(
    tracer: RayTracer, cosAngleBetween: (Vector3, Vector3) -> real,
    hit: Hit, properties: MaterialProperties, light: PointLight)
    ensures LightContribution(tracer, cosAngleBetween, hit, properties, light)
         == ProcessLightRay(tracer, cosAngleBetween, hit, properties, LightRay(light.color, Through(light.position, hit.position)))
  {
    var rays := LightRaysTo(light, hit.position);
    SumOfOneRay(tracer, cosAngleBetween, hit, properties, rays);
    MeanOfOne(ProcessLightRay(tracer, cosAngleBetween, hit, properties, rays[0]));
  }

  /** Averaging a single colour gives it back. */
  lemma MeanOfOne(c: Color)
    ensures Black().Plus(c).Scale(1.0 / 1 as real) == c
  {
  }

  /** Lights shining non-negative colours on a non-negative diffuse surface add up to a non-negative colour. */
  lemma {:induction false} SumOfLightsNonNegative(
    tracer: RayTracer, cosAngleBetween: (Vector3, Vector3) -> real,
    hit: Hit, properties: MaterialProperties, lights: seq<PointLight>)
    requires properties.diffuse.NonNegative()
    requires forall k :: 0 <= k < |lights| ==> lights[k].color.NonNegative()
    ensures SumOfLights(tracer, cosAngleBetween, hit, properties, lights).NonNegative()
    decreases |lights|
  {
    if lights != [] {
      var init := lights[..|lights| - 1];
      var light := lights[|lights| - 1];
      SumOfLightsNonNegative(tracer, cosAngleBetween, hit, properties, init);
      PointLightContribution(tracer, cosAngleBetween, hit, properties, light);
      ProcessLightRayNonNegative(tracer, cosAngleBetween, hit, properties, LightRay(light.color, Through(light.position, hit.position)));
    }
  }

  /** The contributions of two groups of lights add up: shading is additive in the light sources. */
  lemma {:induction false} SumOfLightsAppend(
    tracer: RayTracer, cosAngleBetween: (Vector3, Vector3) -> real,
    hit: Hit, properties: MaterialProperties, first: seq<PointLight>, second: seq<PointLight>)
    ensures SumOfLights(tracer, cosAngleBetween, hit, properties, first + second)
         == SumOfLights(tracer, cosAngleBetween, hit, properties, first).Plus(SumOfLights(tracer, cosAngleBetween, hit, properties, second))
    decreases |second|
  {
    if second == [] {
      assert first + second == first;
    } else {
      var init := second[..|second| - 1];
      SumOfLightsAppend(tracer, cosAngleBetween, hit, properties, first, init);
      assert (first + second)[..|first + second| - 1] == first + init;
      assert (first + second)[|first + second| - 1] == second[|second| - 1];
    }
  }

  /**
   * With non-negative light colours and non-negative diffuse colours, every
   * traced colour is non-negative.
   */
  lemma TraceNonNegative(tracer: RayTracer, cosAngleBetween: (Vector3, Vector3) -> real, ray: Ray)
    requires forall k :: 0 <= k < |tracer.scene.lightSources| ==> tracer.scene.lightSources[k].color.NonNegative()
    requires var h := tracer.scene.root(ray); h.Some? && h.value.properties.Some? ==> h.value.properties.value.diffuse.NonNegative()
    ensures TraceColor(tracer, cosAngleBetween, ray).NonNegative()
  {
    match tracer.scene.root(ray)
    case None =>
    case Some(hit) =>
      match hit.properties
      case None =>
      case Some(properties) =>
        SumOfLightsNonNegative(tracer, cosAngleBetween, hit, properties, tracer.scene.lightSources);
  }
}
