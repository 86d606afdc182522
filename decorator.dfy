/**
 * `Decorator::find_first_positive_hit` (src/primitives/decorator.rs): the
 * child's hit, if any, with the decorator's material attached.
 */
module Decorators {
  import opened Wrappers
  import opened Primitives

  /** `Decorator`: a material and the child primitive it dresses. */
  datatype Decorator<P> = Decorator(material: MaterialRef, child: P)

  /**
   * `find_first_positive_hit`, given the child's answer: a miss stays a
   * miss, and a hit keeps every field but its material, which becomes the
   * decorator's.
   */
  function Decorate(material: MaterialRef, childHit: Option<Hit>): (r: Option<Hit>)
    ensures r.Some? <==> childHit.Some?
    ensures r.Some? ==> r.value.material == Some(material)
    ensures r.Some? ==> r.value.(material := childHit.value.material) == childHit.value
  {
    match childHit
    case None => None
    case Some(hit) => Some(hit.(material := Some(material)))
  }

  /**
   * The decorator's answer, `hitOf` being the child's `find_first_positive_hit`
   * for the ray: the child's hit, if any, dressed in the decorator's material.
   */
  function FindFirstPositiveHit<P>(decorator: Decorator<P>, hitOf: P -> Option<Hit>): (r: Option<Hit>)
    ensures r.Some? <==> hitOf(decorator.child).Some?
    ensures r.Some? ==> r.value.material == Some(decorator.material)
    ensures r.Some? ==> r.value.(material := hitOf(decorator.child).value.material) == hitOf(decorator.child).value
  {
    Decorate(decorator.material, hitOf(decorator.child))
  }

  /** Of two nested decorators, the outer one's material is the one the hit carries. */
  lemma OutermostMaterialWins(outer: MaterialRef, inner: MaterialRef, childHit: Option<Hit>)
    ensures Decorate(outer, Decorate(inner, childHit)) == Decorate(outer, childHit)
  {
  }
}
