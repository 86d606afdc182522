/**
 * A set of active positions in a graph whose edges are labelled by symbols
 * or by epsilon (src/data/graphwalker.rs).  After every move the active
 * set is closed under epsilon edges.
 *
 * `Closure` is the epsilon closure as a function of the graph's vertices;
 * the lemmas after it show it is the least superset closed under epsilon
 * edges, and `WalkEpsilons`, the worklist of the source, is proved to
 * compute it.
 */
module GraphWalkers {
  import opened Wrappers
  import opened Graphs
  import opened RegexDefs

  type Vertices<V, E> = seq<Vertex<VertexLabel<V>, EdgeLabel<E>>>

  /** The ids that name a vertex. */
  function ValidIds<V, E>(vs: Vertices<V, E>): (ids: set<VertexId>)
    ensures forall id :: id in ids <==> id.index < |vs|
  {
    set i | 0 <= i < |vs| :: VertexId(i)
  }

  /** Every edge leads to a vertex of the graph. */
  ghost predicate ClosedGraph<V, E>(vs: Vertices<V, E>)
  {
    forall i, id :: 0 <= i < |vs| && id in vs[i].departing ==> id.index < |vs|
  }

  predicate IsEpsilon<E>(l: EdgeLabel<E>)
  {
    l.Epsilon?
  }

  /** `is_label_of_interest`: a symbol edge whose symbol satisfies `p`. */
  function OfInterest<E>(p: E -> bool): EdgeLabel<E> -> bool
  {
    (l: EdgeLabel<E>) => l.Char? && p(l.symbol)
  }

  /** The targets of the epsilon edges leaving `v`. */
  ghost function EpsilonTargets<V, E>(vs: Vertices<V, E>, v: VertexId): set<VertexId>
  {
    if v.index < |vs| then vs[v.index].ReachableMatching(IsEpsilon) else {}
  }

  /** A set that contains the targets of the epsilon edges leaving its members. */
  ghost predicate EpsilonClosed<V, E>(vs: Vertices<V, E>, s: set<VertexId>)
  {
    forall v :: v in s ==> EpsilonTargets(vs, v) <= s
  }

  /** One round of epsilon moves from every member of `s`. */
  ghost function EpsilonStep<V, E>(vs: Vertices<V, E>, s: set<VertexId>): set<VertexId>
  {
    set v, n | v in s && n in EpsilonTargets(vs, v) :: n
  }

  lemma {:induction false} SubsetNoLarger(a: set<VertexId>, b: set<VertexId>)
    requires a <= b
    ensures |a| <= |b|
    decreases a
  {
    if a != {} {
      var x :| x in a;
      SubsetNoLarger(a - {x}, b - {x});
    }
  }

  lemma SubsetCardinality(a: set<VertexId>, b: set<VertexId>)
    requires a < b
    ensures |a| < |b|
  {
    var x :| x in b && x !in a;
    SubsetNoLarger(a, b - {x});
  }

  /**
   * The worklist invariant of `walk_epsilons`: the active set lies between
   * the start set and its closure, and every active vertex that is no
   * longer scheduled has its epsilon targets active.
   */
  ghost predicate Worklist<V, E>(vs: Vertices<V, E>, s0: set<VertexId>, active: set<VertexId>, todo: set<VertexId>)
    requires ClosedGraph(vs) && s0 <= ValidIds(vs)
  {
    && s0 <= active <= Closure(vs, s0) && todo <= active
    && forall v :: v in active && v !in todo ==> EpsilonTargets(vs, v) <= active
  }

  /** One round of the worklist keeps its invariant. */
  lemma WorklistStep<V, E>(vs: Vertices<V, E>, s0: set<VertexId>, active: set<VertexId>, todo: set<VertexId>, vertex: VertexId)
    requires ClosedGraph(vs) && s0 <= ValidIds(vs)
    requires Worklist(vs, s0, active, todo) && vertex in todo
    ensures Worklist(vs, s0, active + EpsilonTargets(vs, vertex), (todo - {vertex}) + (EpsilonTargets(vs, vertex) - active))
  {
    assert vertex in Closure(vs, s0);
  }

  /** An empty worklist leaves the closure of the start set active. */
  lemma WorklistDone<V, E>(vs: Vertices<V, E>, s0: set<VertexId>, active: set<VertexId>)
    requires ClosedGraph(vs) && s0 <= ValidIds(vs)
    requires Worklist(vs, s0, active, {})
    ensures active == Closure(vs, s0)
  {
    ClosureUnique(vs, s0, active);
  }

  /** The epsilon closure: rounds of epsilon moves until nothing is added. */
  ghost function Closure<V, E>(vs: Vertices<V, E>, s: set<VertexId>): (c: set<VertexId>)
    requires ClosedGraph(vs) && s <= ValidIds(vs)
    ensures s <= c <= ValidIds(vs)
    ensures EpsilonClosed(vs, c)
    decreases |ValidIds(vs) - s|
  {
    var next := s + EpsilonStep(vs, s);
    if next == s then
      assert forall v, n :: v in s && n in EpsilonTargets(vs, v) ==> n in EpsilonStep(vs, s);
      s
    else
      SubsetCardinality(ValidIds(vs) - next, ValidIds(vs) - s);
      Closure(vs, next)
  }

  /** The closure lies inside every superset that is closed under epsilon edges. */
  lemma {:induction false} ClosureLeast<V, E>(vs: Vertices<V, E>, s: set<VertexId>, t: set<VertexId>)
    requires ClosedGraph(vs) && s <= ValidIds(vs)
    requires s <= t && EpsilonClosed(vs, t)
    ensures Closure(vs, s) <= t
    decreases |ValidIds(vs) - s|
  {
    var next := s + EpsilonStep(vs, s);
    if next != s {
      SubsetCardinality(ValidIds(vs) - next, ValidIds(vs) - s);
      ClosureLeast(vs, next, t);
    }
  }

  /**
   * The closure is determined by its three properties: a closed superset
   * of `s` that lies within the closure is the closure.
   */
  lemma ClosureUnique<V, E>(vs: Vertices<V, E>, s: set<VertexId>, c: set<VertexId>)
    requires ClosedGraph(vs) && s <= ValidIds(vs)
    requires s <= c && EpsilonClosed(vs, c) && c <= Closure(vs, s)
    ensures c == Closure(vs, s)
  {
    ClosureLeast(vs, s, c);
  }

  /** Closing twice is closing once. */
  lemma ClosureIdempotent<V, E>(vs: Vertices<V, E>, s: set<VertexId>)
    requires ClosedGraph(vs) && s <= ValidIds(vs)
    ensures Closure(vs, Closure(vs, s)) == Closure(vs, s)
  {
    var c := Closure(vs, s);
    ClosureLeast(vs, c, c);
  }

  /** The targets of the symbol edges leaving `v` that `p` accepts. */
  ghost function SymbolTargets<V, E>(vs: Vertices<V, E>, v: VertexId, p: E -> bool): set<VertexId>
  {
    if v.index < |vs| then vs[v.index].ReachableMatching(OfInterest(p)) else {}
  }

  /** One move on a symbol from every member of `s`. */
  ghost function SymbolStep<V, E>(vs: Vertices<V, E>, s: set<VertexId>, p: E -> bool): set<VertexId>
  {
    set v, n | v in s && n in SymbolTargets(vs, v, p) :: n
  }

  /** Equality with one symbol, the predicate both the tests and the NFA walker walk with. */
  function IsSymbol<E(==)>(c: E): E -> bool
  {
    x => x == c
  }

  /** Every label on an edge leaving `v`. */
  ghost function LabelsLeaving<V, E>(vs: Vertices<V, E>, v: VertexId): set<EdgeLabel<E>>
  {
    if v.index < |vs| then
      set id, k | id in vs[v.index].departing && 0 <= k < |vs[v.index].departing[id]| :: vs[v.index].departing[id][k]
    else {}
  }

  /**
   * The labels of the edges leaving a vertex, which graphwalker.rs asks of
   * the graph as `arcs_departing_from`.
   */
  function ArcsDepartingFrom<V, E(==)>(graph: Graph<VertexLabel<V>, EdgeLabel<E>>, id: VertexId)
    : (r: Result<set<EdgeLabel<E>>, Error>)
    reads graph
    ensures r.Ok? <==> graph.IsValid(id)
    ensures r.Ok? ==> r.value == LabelsLeaving(graph.vertices, id)
  {
    if id.index < |graph.vertices| then
      var d := graph.vertices[id.index].departing;
      Ok(set to, k | to in d && 0 <= k < |d[to]| :: d[to][k])
    else Err(InvalidVertexId(id))
  }

  class GraphWalker<V, E(==)> {
    const graph: Graph<VertexLabel<V>, EdgeLabel<E>>
    /** `active_positions`. */
    var active: set<VertexId>

    ghost predicate Valid()
      reads this, graph
    {
      ClosedGraph(graph.vertices) && active <= ValidIds(graph.vertices)
    }

    /** `new`: the closure of the start vertex. */
    constructor(graph: Graph<VertexLabel<V>, EdgeLabel<E>>, start: VertexId)
      requires ClosedGraph(graph.vertices) && graph.IsValid(start)
      ensures this.graph == graph && Valid()
      ensures active == Closure(graph.vertices, {start})
    {
      this.graph := graph;
      active := {start};
      new;
      WalkEpsilons();
    }

    /** `walk_epsilons`: close the active set under epsilon edges, with a worklist. */
    method WalkEpsilons()
      requires Valid()
      modifies this
      ensures Valid()
      ensures active == Closure(graph.vertices, old(active))
    {
      ghost var vs := graph.vertices;
      ghost var s0 := active;
      var todo := active;
      while todo != {}
        invariant Valid() && graph.vertices == vs && Worklist(vs, s0, active, todo)
        decreases |ValidIds(vs) - active|, |todo|
      {
        todo := WorklistRound(s0, todo);
      }
      WorklistDone(vs, s0, active);
    }

    /**
     * One round of the outer loop of `walk_epsilons`: take a scheduled
     * vertex and add its epsilon targets.  Either more vertices are active
     * or fewer are scheduled.
     */
    method WorklistRound(ghost s0: set<VertexId>, todo: set<VertexId>) returns (todo': set<VertexId>)
      requires Valid() && s0 <= ValidIds(graph.vertices) && Worklist(graph.vertices, s0, active, todo) && todo != {}
      modifies this
      ensures Valid() && Worklist(graph.vertices, s0, active, todo')
      ensures |ValidIds(graph.vertices) - active| < |ValidIds(graph.vertices) - old(active)|
           || (active == old(active) && |todo'| < |todo|)
    {
      ghost var vs := graph.vertices;
      var vertex :| vertex in todo;
      WorklistStep(vs, s0, active, todo, vertex);
      todo' := AddEpsilonTargets(vertex, todo - {vertex});
      if active != old(active) {
        SubsetCardinality(ValidIds(vs) - active, ValidIds(vs) - old(active));
      } else {
        assert todo' < todo;
      }
    }

    /**
     * The inner loop of `walk_epsilons`: insert the epsilon targets of
     * `vertex`, and schedule those that were not active yet.
     */
    method AddEpsilonTargets(vertex: VertexId, todo: set<VertexId>) returns (todo': set<VertexId>)
      requires Valid() && graph.IsValid(vertex)
      modifies this
      ensures Valid()
      ensures active == old(active) + EpsilonTargets(graph.vertices, vertex)
      ensures todo' == todo + (EpsilonTargets(graph.vertices, vertex) - old(active))
    {
      var reachable := graph.ReachableWhere(vertex, IsEpsilon);
      var rest := reachable.value;
      todo' := todo;
      while rest != {}
        invariant rest <= EpsilonTargets(graph.vertices, vertex)
        invariant active == old(active) + (EpsilonTargets(graph.vertices, vertex) - rest)
        invariant todo' == todo + ((EpsilonTargets(graph.vertices, vertex) - rest) - old(active))
        decreases rest
      {
        var n :| n in rest;
        rest := rest - {n};
        if n !in active {
          active := active + {n};
          todo' := todo' + {n};
        }
      }
    }

    /**
     * `walk`: move along the symbol edges `p` accepts.  When there are none,
     * nothing moves; otherwise the active set becomes the closure of their
     * targets.
     */
    method Walk(p: E -> bool) returns (moved: bool)
      requires Valid()
      modifies this
      ensures Valid()
      ensures SymbolStep(graph.vertices, old(active), p) == {} ==> !moved && active == old(active)
      ensures SymbolStep(graph.vertices, old(active), p) != {} ==>
        moved && active == Closure(graph.vertices, SymbolStep(graph.vertices, old(active), p))
    {
      ghost var vs := graph.vertices;
      var newPosition: set<VertexId> := {};
      var rest := active;
      while rest != {}
        invariant active == old(active)
        invariant rest <= active
        invariant newPosition == SymbolStep(vs, active - rest, p)
        decreases rest
      {
        var vertex :| vertex in rest;
        SymbolStepAdd(vs, active - rest, vertex, p);
        rest := rest - {vertex};
        assert active - rest == (active - (rest + {vertex})) + {vertex};
        var targets := graph.ReachableWhere(vertex, OfInterest(p));
        newPosition := newPosition + targets.value;
      }
      assert active - rest == active;
      if newPosition == {} {
        return false;
      }
      SymbolStepValid(vs, active, p);
      active := newPosition;
      WalkEpsilons();
      moved := true;
    }

    /** `departing_arcs`: every label on an edge leaving an active vertex. */
    method DepartingArcs() returns (result: set<EdgeLabel<E>>)
      requires Valid()
      ensures forall l :: l in result <==> exists v :: v in active && l in LabelsLeaving(graph.vertices, v)
    {
      result := {};
      var rest := active;
      while rest != {}
        invariant rest <= active
        invariant forall l :: l in result <==> exists v :: v in active - rest && l in LabelsLeaving(graph.vertices, v)
        decreases rest
      {
        var vertex :| vertex in rest;
        var arcs := ArcsDepartingFrom(graph, vertex);
        result := result + arcs.value;
        rest := rest - {vertex};
      }
    }

    /** `set_active_positions`: the closure of the given positions. */
    method SetActivePositions(positions: set<VertexId>)
      requires Valid() && positions <= ValidIds(graph.vertices)
      modifies this
      ensures Valid()
      ensures active == Closure(graph.vertices, positions)
    {
      active := positions;
      WalkEpsilons();
    }
  }

  lemma SymbolStepAdd<V, E>(vs: Vertices<V, E>, s: set<VertexId>, v: VertexId, p: E -> bool)
    ensures SymbolStep(vs, s + {v}, p) == SymbolStep(vs, s, p) + SymbolTargets(vs, v, p)
  {
  }

  lemma SymbolStepValid<V, E>(vs: Vertices<V, E>, s: set<VertexId>, p: E -> bool)
    requires ClosedGraph(vs)
    ensures SymbolStep(vs, s, p) <= ValidIds(vs)
  {
  }

  // ---------------------------------------------------------------------
  // The unit test `graphwalker_walk_with_epsilons`

  /** The graph of the test, vertices v1..v5 being indices 0..4. */
  function EpsilonTestVertices(): Vertices<(), char>
  {
    [ Vertex(NonTerminal, map[VertexId(1) := [Char('a')]]),
      Vertex(NonTerminal, map[VertexId(2) := [EdgeLabel.Epsilon], VertexId(4) := [EdgeLabel.Epsilon]]),
      Vertex(NonTerminal, map[VertexId(2) := [Char('c')], VertexId(3) := [EdgeLabel.Epsilon]]),
      Vertex(NonTerminal, map[]),
      Vertex(NonTerminal, map[VertexId(0) := [Char('b')]]) ]
  }

  lemma EpsilonTestTargets()
    ensures var vs := EpsilonTestVertices();
      EpsilonTargets(vs, VertexId(0)) == {} && EpsilonTargets(vs, VertexId(1)) == {VertexId(2), VertexId(4)}
      && EpsilonTargets(vs, VertexId(2)) == {VertexId(3)} && EpsilonTargets(vs, VertexId(3)) == {}
      && EpsilonTargets(vs, VertexId(4)) == {}
  {
    var vs := EpsilonTestVertices();
    assert VertexId(1) !in EpsilonTargets(vs, VertexId(0));
    assert IsEpsilon(vs[1].departing[VertexId(2)][0]) && IsEpsilon(vs[1].departing[VertexId(4)][0]);
    assert VertexId(2) in EpsilonTargets(vs, VertexId(1)) && VertexId(4) in EpsilonTargets(vs, VertexId(1));
    assert IsEpsilon(vs[2].departing[VertexId(3)][0]);
    assert VertexId(2) !in EpsilonTargets(vs, VertexId(2)) && VertexId(3) in EpsilonTargets(vs, VertexId(2));
    assert VertexId(0) !in EpsilonTargets(vs, VertexId(4));
  }

  lemma EpsilonTestClosed()
    ensures ClosedGraph(EpsilonTestVertices())
  {
    var vs := EpsilonTestVertices();
    forall i, id | 0 <= i < |vs| && id in vs[i].departing
      ensures id.index < |vs|
    {
    }
  }

  /**
   * The closures of the test, from the epsilon targets alone: on a graph of
   * five vertices whose epsilon edges are those of the test graph.
   */
  lemma TestClosures(vs: Vertices<(), char>)
    requires ClosedGraph(vs) && |vs| == 5
    requires EpsilonTargets(vs, VertexId(0)) == {} && EpsilonTargets(vs, VertexId(1)) == {VertexId(2), VertexId(4)}
    requires EpsilonTargets(vs, VertexId(2)) == {VertexId(3)} && EpsilonTargets(vs, VertexId(3)) == {}
    requires EpsilonTargets(vs, VertexId(4)) == {}
    ensures Closure(vs, {VertexId(0)}) == {VertexId(0)}
    ensures Closure(vs, {VertexId(1)}) == {VertexId(1), VertexId(2), VertexId(3), VertexId(4)}
    ensures Closure(vs, {VertexId(2)}) == {VertexId(2), VertexId(3)}
  {
    ClosureUnique(vs, {VertexId(0)}, {VertexId(0)});
    var c1 := Closure(vs, {VertexId(1)});
    assert VertexId(2) in c1 && VertexId(4) in c1;
    assert VertexId(3) in c1;
    ClosureUnique(vs, {VertexId(1)}, {VertexId(1), VertexId(2), VertexId(3), VertexId(4)});
    var c2 := Closure(vs, {VertexId(2)});
    assert VertexId(3) in c2;
    ClosureUnique(vs, {VertexId(2)}, {VertexId(2), VertexId(3)});
  }

  /** The closures the test observes. */
  lemma EpsilonTestClosures()
    ensures ClosedGraph(EpsilonTestVertices())
    ensures var vs := EpsilonTestVertices();
      Closure(vs, {VertexId(0)}) == {VertexId(0)}
      && Closure(vs, {VertexId(1)}) == {VertexId(1), VertexId(2), VertexId(3), VertexId(4)}
      && Closure(vs, {VertexId(2)}) == {VertexId(2), VertexId(3)}
  {
    EpsilonTestClosed();
    EpsilonTestTargets();
    TestClosures(EpsilonTestVertices());
  }

  /** The symbol moves the test observes: 'a' from v1 and 'c' from v2..v5. */
  lemma EpsilonTestSteps()
    ensures var vs := EpsilonTestVertices();
      SymbolStep(vs, {VertexId(0)}, IsSymbol('a')) == {VertexId(1)}
      && SymbolStep(vs, {VertexId(1), VertexId(2), VertexId(3), VertexId(4)}, IsSymbol('c')) == {VertexId(2)}
  {
    var vs := EpsilonTestVertices();
    var pa := IsSymbol('a');
    assert OfInterest(pa)(vs[0].departing[VertexId(1)][0]);
    assert VertexId(1) in SymbolTargets(vs, VertexId(0), pa);
    var pc := IsSymbol('c');
    assert OfInterest(pc)(vs[2].departing[VertexId(2)][0]);
    assert VertexId(2) in SymbolTargets(vs, VertexId(2), pc);
    assert SymbolTargets(vs, VertexId(1), pc) == {};
    assert VertexId(0) !in SymbolTargets(vs, VertexId(4), pc);
  }

  /**
   * `graphwalker_walk_with_epsilons`: v1 is active at the start, walking
   * 'a' activates v2..v5, and walking 'c' then activates v3 and v4.
   */
  method EpsilonTestWalk()
  {
    var graph := new Graph<VertexLabel<()>, EdgeLabel<char>>();
    graph.vertices := EpsilonTestVertices();
    EpsilonTestClosures();
    var walker := new GraphWalker(graph, VertexId(0));
    assert walker.active == {VertexId(0)};
    EpsilonTestSteps();
    EpsilonTestWalkSymbols(walker);
  }

  /** The two walks of the test, from the start position v1, given the closures and moves the test observes. */
  method EpsilonTestWalkSymbols(walker: GraphWalker<(), char>)
    requires walker.Valid() && walker.active == {VertexId(0)}
    requires var vs := walker.graph.vertices;
      && SymbolStep(vs, {VertexId(0)}, IsSymbol('a')) == {VertexId(1)}
      && Closure(vs, {VertexId(1)}) == {VertexId(1), VertexId(2), VertexId(3), VertexId(4)}
      && SymbolStep(vs, {VertexId(1), VertexId(2), VertexId(3), VertexId(4)}, IsSymbol('c')) == {VertexId(2)}
      && Closure(vs, {VertexId(2)}) == {VertexId(2), VertexId(3)}
    modifies walker
  {
    var moved := walker.Walk(IsSymbol('a'));
    assert moved && walker.active == {VertexId(1), VertexId(2), VertexId(3), VertexId(4)};
    moved := walker.Walk(IsSymbol('c'));
    assert moved && walker.active == {VertexId(2), VertexId(3)};
  }
}
