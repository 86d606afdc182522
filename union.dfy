/**
 * `Union::find_first_positive_hit` (src/primitives/union.rs).
 *
 * The children are asked, in order, for their first positive hit on the
 * ray; `hitOf` is that query with the ray fixed, and `smallestPositive`
 * stands for `Hit::smallest_positive`, which is not part of this model.
 * A child that misses leaves the result as it is, the first hit is taken
 * as it comes, and two competing hits are resolved by `smallestPositive`.
 */
module Unions {
  import opened Wrappers
  import opened Primitives

  /** `Union`: the children, in order. */
  datatype Union<P> = Union(children: seq<P>)

  /** One iteration of the loop: combine the result so far with one child's answer. */
  function Combine(smallestPositive: (Hit, Hit) -> Option<Hit>, result: Option<Hit>, childHit: Option<Hit>): Option<Hit>
  {
    match (result, childHit)
    case (None, None) => None
    case (Some(h), None) => Some(h)
    case (None, Some(h)) => Some(h)
    case (Some(h1), Some(h2)) => smallestPositive(h1, h2)
  }

  /** The loop over the children's answers, starting from `result`. */
  function CombineAll(smallestPositive: (Hit, Hit) -> Option<Hit>, result: Option<Hit>, childHits: seq<Option<Hit>>): Option<Hit>
    decreases |childHits|
  {
    if childHits == [] then result
    else CombineAll(smallestPositive, Combine(smallestPositive, result, childHits[0]), childHits[1..])
  }

  /** The children's answers, in order. */
  function ChildHits<P>(children: seq<P>, hitOf: P -> Option<Hit>): (hits: seq<Option<Hit>>)
    ensures |hits| == |children| && forall k :: 0 <= k < |children| ==> hits[k] == hitOf(children[k])
  {
    seq(|children|, k requires 0 <= k < |children| => hitOf(children[k]))
  }

  /** `find_first_positive_hit`: queries each child once, in order, and folds the answers. */
  method FindFirstPositiveHit<P>(union: Union<P>, hitOf: P -> Option<Hit>, smallestPositive: (Hit, Hit) -> Option<Hit>)
    returns (result: Option<Hit>)
    ensures result == CombineAll(smallestPositive, None, ChildHits(union.children, hitOf))
  {
    result := None;
    for i := 0 to |union.children|
      invariant CombineAll(smallestPositive, result, ChildHits(union.children, hitOf)[i..])
             == CombineAll(smallestPositive, None, ChildHits(union.children, hitOf))
    {
      var childHit := hitOf(union.children[i]);
      ghost var rest := ChildHits(union.children, hitOf)[i..];
      assert rest[0] == childHit && rest[1..] == ChildHits(union.children, hitOf)[i + 1..];
      result := Combine(smallestPositive, result, childHit);
    }
  }

  // ---------------------------------------------------------------------
  // Properties

  /** Children that all miss leave the result as it was; in particular an empty union misses. */
  lemma {:induction false} MissesLeaveResult(smallestPositive: (Hit, Hit) -> Option<Hit>, result: Option<Hit>, childHits: seq<Option<Hit>>)
    requires forall k :: 0 <= k < |childHits| ==> childHits[k].None?
    ensures CombineAll(smallestPositive, result, childHits) == result
    decreases |childHits|
  {
    if childHits != [] {
      MissesLeaveResult(smallestPositive, result, childHits[1..]);
    }
  }

  /** When exactly one child hits, the union's hit is that child's. */
  lemma {:induction false} SingleHitWins(smallestPositive: (Hit, Hit) -> Option<Hit>, childHits: seq<Option<Hit>>, k: nat)
    requires k < |childHits| && childHits[k].Some?
    requires forall l :: 0 <= l < |childHits| && l != k ==> childHits[l].None?
    ensures CombineAll(smallestPositive, None, childHits) == childHits[k]
    decreases |childHits|
  {
    if k == 0 {
      MissesLeaveResult(smallestPositive, childHits[0], childHits[1..]);
    } else {
      SingleHitWins(smallestPositive, childHits[1..], k - 1);
    }
  }

  /** Two hits from two children are resolved by `smallest_positive`. */
  lemma TwoHitsCompete(smallestPositive: (Hit, Hit) -> Option<Hit>, h1: Hit, h2: Hit)
    ensures CombineAll(smallestPositive, None, [Some(h1), Some(h2)]) == smallestPositive(h1, h2)
  {
    var hits := [Some(h1), Some(h2)];
    assert hits[1..] == [Some(h2)] && [Some(h2)][1..] == [];
    assert CombineAll(smallestPositive, None, hits) == CombineAll(smallestPositive, Some(h1), [Some(h2)]);
    assert CombineAll(smallestPositive, Some(h1), [Some(h2)]) == CombineAll(smallestPositive, smallestPositive(h1, h2), []);
  }

  /** `smallest_positive` keeps the hit with the smaller `t`, the first one on a tie. */
  ghost predicate PicksCloser(smallestPositive: (Hit, Hit) -> Option<Hit>)
  {
    forall h1, h2 :: smallestPositive(h1, h2) == Some(if h2.t < h1.t then h2 else h1)
  }

  /**
   * With a `smallest_positive` that keeps the closer hit, the union hits
   * exactly when some child hits, its hit is one of the children's, and
   * no child's hit is closer.
   */
  lemma {:induction false} ClosestChildHit(smallestPositive: (Hit, Hit) -> Option<Hit>, result: Option<Hit>, childHits: seq<Option<Hit>>)
    requires PicksCloser(smallestPositive)
    ensures var r := CombineAll(smallestPositive, result, childHits);
      && (r.Some? <==> result.Some? || exists k :: 0 <= k < |childHits| && childHits[k].Some?)
      && (r.Some? ==> r == result || exists k :: 0 <= k < |childHits| && childHits[k] == r)
      && (r.Some? && result.Some? ==> r.value.t <= result.value.t)
      && (forall k :: 0 <= k < |childHits| && childHits[k].Some? ==> r.Some? && r.value.t <= childHits[k].value.t)
    decreases |childHits|
  {
    if childHits != [] {
      var next := Combine(smallestPositive, result, childHits[0]);
      ClosestChildHit(smallestPositive, next, childHits[1..]);
      var r := CombineAll(smallestPositive, result, childHits);
      forall k | 0 <= k < |childHits| && childHits[k].Some?
        ensures r.Some? && r.value.t <= childHits[k].value.t
      {
        if k > 0 {
          assert childHits[k] == childHits[1..][k - 1];
        }
      }
      if r.Some? && r != result && r != next {
        var k :| 0 <= k < |childHits[1..]| && childHits[1..][k] == r;
        assert childHits[k + 1] == r;
      }
      if next.Some? && next != result {
        assert childHits[0] == next;
      }
      if exists k :: 0 <= k < |childHits[1..]| && childHits[1..][k].Some? {
        var k :| 0 <= k < |childHits[1..]| && childHits[1..][k].Some?;
        assert childHits[k + 1].Some?;
      }
    }
  }
}
