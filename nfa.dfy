/**
 * Thompson-style compilation of regular expressions into a graph
 * (src/scripting/regex/nfa.rs), and a walker that simulates the resulting
 * automaton on a set of active vertices.
 *
 * `NFABuilder.AddHelper` is proved against `Build`, which computes the same
 * graph from the vertices it starts with.  The lemmas after it show that a
 * build only extends the graph: it appends non-terminal vertices, keeps the
 * labels of the vertices already there, keeps every edge already there,
 * and keeps the graph closed.  The builder's invariant adds that distinct
 * terminal vertices carry distinct priorities below the next one, so the
 * walker's choice of the terminal with the least priority is determined.
 */
module Nfa {
  import opened Wrappers
  import opened Graphs
  import opened RegexDefs
  import opened GraphWalkers

  /** The vertices with a fresh non-terminal vertex, without edges, appended. */
  function AddVertex<V, E>(vs: Vertices<V, E>): (ws: Vertices<V, E>)
    ensures |ws| == |vs| + 1
  {
    vs + [Vertex(NonTerminal, map[])]
  }

  /** The vertices with one more edge, from `start` to `end`. */
  function AddEdge<V, E>(vs: Vertices<V, E>, start: VertexId, end: VertexId, edgeLabel: EdgeLabel<E>): (ws: Vertices<V, E>)
    requires start.index < |vs|
    ensures |ws| == |vs|
  {
    vs[start.index := vs[start.index].AddEdgeTo(end, edgeLabel)]
  }

  /**
   * `add_helper` as a function: the vertices after compiling `r` starting
   * at `entry`, and the vertex where the compiled expression exits.
   */
  function Build<V, E>(vs: Vertices<V, E>, r: RegularExpression<E>, entry: VertexId): (built: (Vertices<V, E>, VertexId))
    requires entry.index < |vs|
    ensures |vs| <= |built.0| && built.1.index < |built.0|
    decreases r, 1
  {
    match r
    case Epsilon =>
      (AddEdge(AddVertex(vs), entry, VertexId(|vs|), EdgeLabel.Epsilon), VertexId(|vs|))
    case Literal(c) =>
      (AddEdge(AddVertex(vs), entry, VertexId(|vs|), Char(c)), VertexId(|vs|))
    case Sequence(children) =>
      BuildSequence(vs, children, entry)
    case Alternatives(children) =>
      (BuildAlternatives(AddVertex(vs), children, entry, VertexId(|vs|)), VertexId(|vs|))
    case Kleene(child) =>
      var finish := VertexId(|vs|);
      var inner := Build(AddVertex(vs), child, entry);
      var exit := inner.1;
      (AddEdge(AddEdge(AddEdge(inner.0, entry, finish, EdgeLabel.Epsilon), exit, finish, EdgeLabel.Epsilon),
               exit, entry, EdgeLabel.Epsilon),
       finish)
  }

  /** The `for` loop of the `Sequence` case: each child starts where the previous one exits. */
  function BuildSequence<V, E>(vs: Vertices<V, E>, children: seq<RegularExpression<E>>, entry: VertexId)
    : (built: (Vertices<V, E>, VertexId))
    requires entry.index < |vs|
    ensures |vs| <= |built.0| && built.1.index < |built.0|
    decreases children, 0
  {
    if children == [] then (vs, entry)
    else
      var first := Build(vs, children[0], entry);
      BuildSequence(first.0, children[1..], first.1)
  }

  /**
   * The `for` loop of the `Alternatives` case: each child starts at `entry`,
   * and its exit gets an epsilon edge to `finish`.
   */
  function BuildAlternatives<V, E>(vs: Vertices<V, E>, children: seq<RegularExpression<E>>, entry: VertexId, finish: VertexId)
    : (ws: Vertices<V, E>)
    requires entry.index < |vs| && finish.index < |vs|
    ensures |vs| <= |ws|
    decreases children, 0
  {
    if children == [] then vs
    else
      var first := Build(vs, children[0], entry);
      BuildAlternatives(AddEdge(first.0, first.1, finish, EdgeLabel.Epsilon), children[1..], entry, finish)
  }

  // ---------------------------------------------------------------------
  // What a build keeps

  /**
   * `ws` extends `vs`: it has at least the same vertices, with the same
   * labels, and every edge of `vs` is still there, in the same order,
   * possibly followed by parallel ones.
   */
  ghost predicate Extends<V, E>(vs: Vertices<V, E>, ws: Vertices<V, E>)
  {
    |vs| <= |ws|
    && forall i :: 0 <= i < |vs| ==>
         ws[i].vertexLabel == vs[i].vertexLabel
         && forall id :: id in vs[i].departing ==> id in ws[i].departing && vs[i].departing[id] <= ws[i].departing[id]
  }

  /** The vertices from index `n` on are all non-terminal. */
  ghost predicate NonTerminalFrom<V, E>(ws: Vertices<V, E>, n: nat)
  {
    forall i :: n <= i < |ws| ==> ws[i].vertexLabel == NonTerminal
  }

  /** A build step: `ws` extends `vs` and the vertices it appends are non-terminal. */
  ghost predicate Grows<V, E>(vs: Vertices<V, E>, ws: Vertices<V, E>)
  {
    Extends(vs, ws) && NonTerminalFrom(ws, |vs|)
  }

  lemma GrowsTransitive<V, E>(us: Vertices<V, E>, vs: Vertices<V, E>, ws: Vertices<V, E>)
    requires Grows(us, vs) && Grows(vs, ws)
    ensures Grows(us, ws)
  {
    forall i, id | 0 <= i < |us| && id in us[i].departing
      ensures us[i].departing[id] <= ws[i].departing[id]
    {
      assert us[i].departing[id] <= vs[i].departing[id];
    }
  }

  lemma AddVertexGrows<V, E>(vs: Vertices<V, E>)
    ensures Grows(vs, AddVertex(vs))
  {
  }

  lemma AddEdgeGrows<V, E>(vs: Vertices<V, E>, start: VertexId, end: VertexId, edgeLabel: EdgeLabel<E>)
    requires start.index < |vs|
    ensures Grows(vs, AddEdge(vs, start, end, edgeLabel))
  {
    var ws := AddEdge(vs, start, end, edgeLabel);
    forall id | id in vs[start.index].departing
      ensures vs[start.index].departing[id] <= ws[start.index].departing[id]
    {
      if id == end {
        assert ws[start.index].departing[id] == vs[start.index].departing[id] + [edgeLabel];
      }
    }
  }

  /** A build appends non-terminal vertices and keeps every label and edge already there. */
  lemma {:induction false} BuildGrows<V, E>(vs: Vertices<V, E>, r: RegularExpression<E>, entry: VertexId)
    requires entry.index < |vs|
    ensures Grows(vs, Build(vs, r, entry).0)
    decreases r, 1
  {
    match r
    case Epsilon =>
      AddVertexGrows(vs);
      AddEdgeGrows(AddVertex(vs), entry, VertexId(|vs|), EdgeLabel.Epsilon);
      GrowsTransitive(vs, AddVertex(vs), Build(vs, r, entry).0);
    case Literal(c) =>
      AddVertexGrows(vs);
      AddEdgeGrows(AddVertex(vs), entry, VertexId(|vs|), Char(c));
      GrowsTransitive(vs, AddVertex(vs), Build(vs, r, entry).0);
    case Sequence(children) =>
      BuildSequenceGrows(vs, children, entry);
    case Alternatives(children) =>
      AddVertexGrows(vs);
      BuildAlternativesGrows(AddVertex(vs), children, entry, VertexId(|vs|));
      GrowsTransitive(vs, AddVertex(vs), Build(vs, r, entry).0);
    case Kleene(child) =>
      var finish := VertexId(|vs|);
      var w0 := AddVertex(vs);
      AddVertexGrows(vs);
      var inner := Build(w0, child, entry);
      BuildGrows(w0, child, entry);
      GrowsTransitive(vs, w0, inner.0);
      var w1 := AddEdge(inner.0, entry, finish, EdgeLabel.Epsilon);
      AddEdgeGrows(inner.0, entry, finish, EdgeLabel.Epsilon);
      GrowsTransitive(vs, inner.0, w1);
      var w2 := AddEdge(w1, inner.1, finish, EdgeLabel.Epsilon);
      AddEdgeGrows(w1, inner.1, finish, EdgeLabel.Epsilon);
      GrowsTransitive(vs, w1, w2);
      AddEdgeGrows(w2, inner.1, entry, EdgeLabel.Epsilon);
      GrowsTransitive(vs, w2, Build(vs, r, entry).0);
  }

  lemma {:induction false} BuildSequenceGrows<V, E>(vs: Vertices<V, E>, children: seq<RegularExpression<E>>, entry: VertexId)
    requires entry.index < |vs|
    ensures Grows(vs, BuildSequence(vs, children, entry).0)
    decreases children, 0
  {
    if children != [] {
      var first := Build(vs, children[0], entry);
      BuildGrows(vs, children[0], entry);
      BuildSequenceGrows(first.0, children[1..], first.1);
      GrowsTransitive(vs, first.0, BuildSequence(vs, children, entry).0);
    }
  }

  lemma {:induction false} BuildAlternativesGrows<V, E>(vs: Vertices<V, E>, children: seq<RegularExpression<E>>,
                                                       entry: VertexId, finish: VertexId)
    requires entry.index < |vs| && finish.index < |vs|
    ensures Grows(vs, BuildAlternatives(vs, children, entry, finish))
    decreases children, 0
  {
    if children != [] {
      var first := Build(vs, children[0], entry);
      BuildGrows(vs, children[0], entry);
      var w := AddEdge(first.0, first.1, finish, EdgeLabel.Epsilon);
      AddEdgeGrows(first.0, first.1, finish, EdgeLabel.Epsilon);
      GrowsTransitive(vs, first.0, w);
      BuildAlternativesGrows(w, children[1..], entry, finish);
      GrowsTransitive(vs, w, BuildAlternatives(vs, children, entry, finish));
    }
  }

  /** An edge between vertices of a closed graph keeps it closed. */
  lemma AddEdgeClosed<V, E>(vs: Vertices<V, E>, start: VertexId, end: VertexId, edgeLabel: EdgeLabel<E>)
    requires ClosedGraph(vs) && start.index < |vs| && end.index < |vs|
    ensures ClosedGraph(AddEdge(vs, start, end, edgeLabel))
  {
    AddEdgeKeepsClosed(vs, start, end, edgeLabel);
  }

  /** A build on a closed graph leaves it closed: every edge it adds leads to a vertex. */
  lemma {:induction false} BuildClosed<V, E>(vs: Vertices<V, E>, r: RegularExpression<E>, entry: VertexId)
    requires ClosedGraph(vs) && entry.index < |vs|
    ensures ClosedGraph(Build(vs, r, entry).0)
    decreases r, 1
  {
    match r
    case Epsilon =>
      AddEdgeClosed(AddVertex(vs), entry, VertexId(|vs|), EdgeLabel.Epsilon);
    case Literal(c) =>
      AddEdgeClosed(AddVertex(vs), entry, VertexId(|vs|), Char(c));
    case Sequence(children) =>
      BuildSequenceClosed(vs, children, entry);
    case Alternatives(children) =>
      BuildAlternativesClosed(AddVertex(vs), children, entry, VertexId(|vs|));
    case Kleene(child) =>
      var finish := VertexId(|vs|);
      var inner := Build(AddVertex(vs), child, entry);
      BuildClosed(AddVertex(vs), child, entry);
      var w1 := AddEdge(inner.0, entry, finish, EdgeLabel.Epsilon);
      AddEdgeClosed(inner.0, entry, finish, EdgeLabel.Epsilon);
      var w2 := AddEdge(w1, inner.1, finish, EdgeLabel.Epsilon);
      AddEdgeClosed(w1, inner.1, finish, EdgeLabel.Epsilon);
      AddEdgeClosed(w2, inner.1, entry, EdgeLabel.Epsilon);
  }

  lemma {:induction false} BuildSequenceClosed<V, E>(vs: Vertices<V, E>, children: seq<RegularExpression<E>>, entry: VertexId)
    requires ClosedGraph(vs) && entry.index < |vs|
    ensures ClosedGraph(BuildSequence(vs, children, entry).0)
    decreases children, 0
  {
    if children != [] {
      var first := Build(vs, children[0], entry);
      BuildClosed(vs, children[0], entry);
      BuildSequenceClosed(first.0, children[1..], first.1);
    }
  }

  lemma {:induction false} BuildAlternativesClosed<V, E>(vs: Vertices<V, E>, children: seq<RegularExpression<E>>,
                                                        entry: VertexId, finish: VertexId)
    requires ClosedGraph(vs) && entry.index < |vs| && finish.index < |vs|
    ensures ClosedGraph(BuildAlternatives(vs, children, entry, finish))
    decreases children, 0
  {
    if children != [] {
      var first := Build(vs, children[0], entry);
      BuildClosed(vs, children[0], entry);
      AddEdgeClosed(first.0, first.1, finish, EdgeLabel.Epsilon);
      BuildAlternativesClosed(AddEdge(first.0, first.1, finish, EdgeLabel.Epsilon), children[1..], entry, finish);
    }
  }

  // ---------------------------------------------------------------------
  // Priorities

  /**
   * The builder's invariant on labels: terminal vertices carry priorities
   * from 0 up to, not including, `next`, and no two carry the same one.
   */
  ghost predicate PrioritiesBelow<V, E>(vs: Vertices<V, E>, next: int)
  {
    0 <= next
    && (forall i :: 0 <= i < |vs| && vs[i].vertexLabel.Terminal? ==> 0 <= vs[i].vertexLabel.priority < next)
    && (forall i, j ::
          0 <= i < |vs| && 0 <= j < |vs| && vs[i].vertexLabel.Terminal? && vs[j].vertexLabel.Terminal?
          && vs[i].vertexLabel.priority == vs[j].vertexLabel.priority
          ==> i == j)
  }

  /** Labelling the exit of a build with the next priority keeps the invariant, for the next priority after it. */
  lemma LabelExitKeepsPriorities<V, E>(vs: Vertices<V, E>, ws: Vertices<V, E>, exit: VertexId, value: V, next: int)
    requires PrioritiesBelow(vs, next) && Grows(vs, ws) && exit.index < |ws|
    ensures PrioritiesBelow(ws[exit.index := Vertex(Terminal(value, next), ws[exit.index].departing)], next + 1)
  {
    var us := ws[exit.index := Vertex(Terminal(value, next), ws[exit.index].departing)];
    forall i | 0 <= i < |us| && us[i].vertexLabel.Terminal?
      ensures 0 <= us[i].vertexLabel.priority < next + 1
    {
      if i != exit.index {
        assert us[i] == ws[i];
        if i < |vs| {
          assert us[i].vertexLabel == vs[i].vertexLabel;
        }
      }
    }
    forall i, j | 0 <= i < |us| && 0 <= j < |us| && us[i].vertexLabel.Terminal? && us[j].vertexLabel.Terminal?
                  && us[i].vertexLabel.priority == us[j].vertexLabel.priority
      ensures i == j
    {
      if i != exit.index {
        assert us[i] == ws[i];
      }
      if j != exit.index {
        assert us[j] == ws[j];
      }
    }
  }

  class NFABuilder<V, E(==)> {
    const graph: Graph<VertexLabel<V>, EdgeLabel<E>>
    const start: VertexId
    var nextPriority: int

    ghost predicate Valid()
      reads this, graph
    {
      start.index < |graph.vertices| && ClosedGraph(graph.vertices) && PrioritiesBelow(graph.vertices, nextPriority)
    }

    /** `new`: a graph holding only the non-terminal start vertex. */
    constructor()
      ensures Valid() && fresh(graph)
      ensures graph.vertices == [Vertex(NonTerminal, map[])] && start == VertexId(0) && nextPriority == 0
    {
      var g := new Graph<VertexLabel<V>, EdgeLabel<E>>();
      var s := g.CreateVertex(NonTerminal);
      graph := g;
      start := s;
      nextPriority := 0;
    }

    /**
     * `add`: compile `regex` from the start vertex and label its exit as a
     * terminal carrying `terminalValue` and the next priority.
     */
    method Add(regex: RegularExpression<E>, terminalValue: V)
      requires Valid()
      modifies this, graph
      ensures Valid()
      ensures var built := Build(old(graph.vertices), regex, start);
        graph.vertices == built.0[built.1.index := Vertex(Terminal(terminalValue, old(nextPriority)), built.0[built.1.index].departing)]
      ensures nextPriority == old(nextPriority) + 1
    {
      ghost var vs := graph.vertices;
      BuildGrows(vs, regex, start);
      BuildClosed(vs, regex, start);
      var terminalVertex := AddHelper(regex, start);
      LabelExitKeepsPriorities(vs, graph.vertices, terminalVertex, terminalValue, nextPriority);
      var _ := graph.SetVertexLabel(terminalVertex, Terminal(terminalValue, nextPriority));
      nextPriority := nextPriority + 1;
    }

    /** `add_helper`: compile `regex` starting at `startVertex` and return its exit. */
    method AddHelper(regex: RegularExpression<E>, startVertex: VertexId) returns (exit: VertexId)
      requires graph.IsValid(startVertex)
      modifies graph
      ensures (graph.vertices, exit) == Build(old(graph.vertices), regex, startVertex)
      decreases regex
    {
      match regex
      case Epsilon =>
        var vertex := graph.CreateVertex(NonTerminal);
        var _ := graph.CreateEdge(startVertex, vertex, EdgeLabel.Epsilon);
        exit := vertex;
      case Literal(c) =>
        var vertex := graph.CreateVertex(NonTerminal);
        var _ := graph.CreateEdge(startVertex, vertex, Char(c));
        exit := vertex;
      case Sequence(children) =>
        var finish := startVertex;
        for i := 0 to |children|
          invariant graph.IsValid(finish)
          invariant BuildSequence(graph.vertices, children[i..], finish) == BuildSequence(old(graph.vertices), children, startVertex)
        {
          assert children[i..][1..] == children[i + 1..];
          finish := AddHelper(children[i], finish);
        }
        exit := finish;
      case Alternatives(children) =>
        var finish := graph.CreateVertex(NonTerminal);
        for i := 0 to |children|
          invariant graph.IsValid(startVertex) && graph.IsValid(finish) && finish == VertexId(|old(graph.vertices)|)
          invariant BuildAlternatives(graph.vertices, children[i..], startVertex, finish)
                 == BuildAlternatives(AddVertex(old(graph.vertices)), children, startVertex, finish)
        {
          assert children[i..][1..] == children[i + 1..];
          var vertex := AddHelper(children[i], startVertex);
          var _ := graph.CreateEdge(vertex, finish, EdgeLabel.Epsilon);
        }
        exit := finish;
      case Kleene(child) =>
        var finish := graph.CreateVertex(NonTerminal);
        var childExit := AddHelper(child, startVertex);
        var _ := graph.CreateEdge(startVertex, finish, EdgeLabel.Epsilon);
        var _ := graph.CreateEdge(childExit, finish, EdgeLabel.Epsilon);
        var _ := graph.CreateEdge(childExit, startVertex, EdgeLabel.Epsilon);
        exit := finish;
    }

    /** `eject`: the graph built so far and its start vertex. */
    method Eject() returns (nfa: Graph<VertexLabel<V>, EdgeLabel<E>>, startVertex: VertexId)
      requires Valid()
      ensures nfa == graph && startVertex == start
      ensures ClosedGraph(nfa.vertices) && nfa.IsValid(startVertex) && PrioritiesBelow(nfa.vertices, nextPriority)
    {
      nfa := graph;
      startVertex := start;
    }
  }

  // ---------------------------------------------------------------------
  // The walker

  /**
   * `id` is an active terminal vertex whose priority is not above that of
   * any other active terminal vertex.
   */
  ghost predicate LeastTerminal<V, E>(vs: Vertices<V, E>, active: set<VertexId>, id: VertexId)
  {
    id in active && id.index < |vs| && vs[id.index].vertexLabel.Terminal?
    && forall other :: other in active && other.index < |vs| && vs[other.index].vertexLabel.Terminal? ==>
         vs[id.index].vertexLabel.priority <= vs[other.index].vertexLabel.priority
  }

  /** Where priorities are distinct, at most one active vertex is the least terminal. */
  lemma LeastTerminalUnique<V, E>(vs: Vertices<V, E>, next: int, active: set<VertexId>, a: VertexId, b: VertexId)
    requires PrioritiesBelow(vs, next)
    requires LeastTerminal(vs, active, a) && LeastTerminal(vs, active, b)
    ensures a == b
  {
    assert vs[a.index].vertexLabel.priority == vs[b.index].vertexLabel.priority;
  }

  class NFAWalker<V, E(==)> {
    const walker: GraphWalker<V, E>

    ghost predicate Valid()
      reads this, walker, walker.graph
    {
      walker.Valid()
    }

    /** `new`: the start vertex and everything it reaches through epsilon edges. */
    constructor(graph: Graph<VertexLabel<V>, EdgeLabel<E>>, startVertex: VertexId)
      requires ClosedGraph(graph.vertices) && graph.IsValid(startVertex)
      ensures Valid() && fresh(walker) && walker.graph == graph
      ensures walker.active == Closure(graph.vertices, {startVertex})
    {
      walker := new GraphWalker(graph, startVertex);
      new;
      WalkEpsilon();
      ClosureIdempotent(graph.vertices, {startVertex});
    }

    /**
     * `walk`: move along the edges labelled `ch`.  When there are none,
     * nothing moves and the answer is false; otherwise the active set
     * becomes the epsilon closure of their targets.
     */
    method Walk(ch: E) returns (moved: bool)
      requires Valid()
      modifies walker
      ensures Valid()
      ensures SymbolStep(walker.graph.vertices, old(walker.active), IsSymbol(ch)) == {} ==>
        !moved && walker.active == old(walker.active)
      ensures SymbolStep(walker.graph.vertices, old(walker.active), IsSymbol(ch)) != {} ==>
        moved && walker.active == Closure(walker.graph.vertices, SymbolStep(walker.graph.vertices, old(walker.active), IsSymbol(ch)))
    {
      moved := WalkChar(ch);
      if moved {
        WalkEpsilon();
        SymbolStepValid(walker.graph.vertices, old(walker.active), IsSymbol(ch));
        ClosureIdempotent(walker.graph.vertices, SymbolStep(walker.graph.vertices, old(walker.active), IsSymbol(ch)));
      }
    }

    /** `walk_char`: one move along the edges labelled `ch`, `is_char` being the predicate. */
    method WalkChar(ch: E) returns (moved: bool)
      requires Valid()
      modifies walker
      ensures Valid()
      ensures SymbolStep(walker.graph.vertices, old(walker.active), IsSymbol(ch)) == {} ==>
        !moved && walker.active == old(walker.active)
      ensures SymbolStep(walker.graph.vertices, old(walker.active), IsSymbol(ch)) != {} ==>
        moved && walker.active == Closure(walker.graph.vertices, SymbolStep(walker.graph.vertices, old(walker.active), IsSymbol(ch)))
    {
      moved := walker.Walk(IsSymbol(ch));
    }

    /** `walk_epsilon`: close the active set under epsilon edges. */
    method WalkEpsilon()
      requires Valid()
      modifies walker
      ensures Valid()
      ensures walker.active == Closure(walker.graph.vertices, old(walker.active))
    {
      walker.WalkEpsilons();
    }

    /**
     * `priority_terminal_label`: the value of the active terminal vertex
     * with the least priority, and None when no active vertex is terminal.
     */
    method PriorityTerminalLabel() returns (r: Option<V>)
      requires Valid()
      ensures r.None? <==>
        forall id :: id in walker.active ==> walker.graph.vertices[id.index].vertexLabel.NonTerminal?
      ensures r.Some? ==>
        exists id :: LeastTerminal(walker.graph.vertices, walker.active, id)
                     && walker.graph.vertices[id.index].vertexLabel.value == r.value
    {
      ghost var vs := walker.graph.vertices;
      var best: Option<(V, int)> := None;
      ghost var bestId := VertexId(0);
      var rest := walker.active;
      while rest != {}
        invariant rest <= walker.active
        invariant best.None? <==> forall id :: id in walker.active - rest ==> vs[id.index].vertexLabel.NonTerminal?
        invariant best.Some? ==>
          LeastTerminal(vs, walker.active - rest, bestId)
          && vs[bestId.index].vertexLabel == Terminal(best.value.0, best.value.1)
        decreases rest
      {
        var id :| id in rest;
        rest := rest - {id};
        var vertexLabel := walker.graph.vertices[id.index].vertexLabel;
        if vertexLabel.Terminal? && (best.None? || vertexLabel.priority < best.value.1) {
          best := Some((vertexLabel.value, vertexLabel.priority));
          bestId := id;
        }
      }
      assert walker.active - rest == walker.active;
      r := if best.None? then None else Some(best.value.0);
    }

    /** `set_active_positions`: the closure of the given positions. */
    method SetActivePositions(positions: set<VertexId>)
      requires Valid() && positions <= ValidIds(walker.graph.vertices)
      modifies walker
      ensures Valid()
      ensures walker.active == Closure(walker.graph.vertices, positions)
    {
      walker.SetActivePositions(positions);
    }

    /** `active_positions`. */
    function ActivePositions(): (r: set<VertexId>)
      reads this, walker, walker.graph
      requires Valid()
      ensures r <= ValidIds(walker.graph.vertices)
    {
      walker.active
    }

    /** `departing_arcs`: every label on an edge leaving an active vertex. */
    method DepartingArcs() returns (result: set<EdgeLabel<E>>)
      requires Valid()
      ensures forall l :: l in result <==> exists v :: v in walker.active && l in LabelsLeaving(walker.graph.vertices, v)
    {
      result := walker.DepartingArcs();
    }
  }

  // ---------------------------------------------------------------------
  // Walks in graphs without epsilon edges, for the unit tests

  /** No vertex of `s` has an epsilon edge. */
  ghost predicate EpsilonFree<V, E>(vs: Vertices<V, E>, s: set<VertexId>)
  {
    forall v :: v in s ==> EpsilonTargets(vs, v) == {}
  }

  /** A walker started at a vertex without epsilon edges is at that vertex only. */
  method StartAt<V, E(==)>(nfa: Graph<VertexLabel<V>, EdgeLabel<E>>, start: VertexId) returns (walker: NFAWalker<V, E>)
    requires ClosedGraph(nfa.vertices) && nfa.IsValid(start) && EpsilonFree(nfa.vertices, {start})
    ensures fresh(walker.walker) && walker.Valid() && walker.walker.graph == nfa && walker.walker.active == {start}
  {
    ClosureOfSinks(nfa.vertices, {start});
    walker := new NFAWalker(nfa, start);
  }

  /** Walking `ch` to vertices without epsilon edges activates exactly those vertices. */
  method WalkTo<V, E(==)>(walker: NFAWalker<V, E>, ch: E, ghost to: set<VertexId>)
    requires walker.Valid() && to != {} && EpsilonFree(walker.walker.graph.vertices, to)
    requires SymbolStep(walker.walker.graph.vertices, walker.walker.active, IsSymbol(ch)) == to
    modifies walker.walker
    ensures walker.Valid() && walker.walker.active == to
  {
    SymbolStepValid(walker.walker.graph.vertices, walker.walker.active, IsSymbol(ch));
    ClosureOfSinks(walker.walker.graph.vertices, to);
    var _ := walker.Walk(ch);
  }

  /** Resetting to vertices without epsilon edges activates exactly those vertices. */
  method ResetTo<V, E(==)>(walker: NFAWalker<V, E>, positions: set<VertexId>)
    requires walker.Valid() && positions <= ValidIds(walker.walker.graph.vertices)
    requires EpsilonFree(walker.walker.graph.vertices, positions)
    modifies walker.walker
    ensures walker.Valid() && walker.walker.active == positions
  {
    ClosureOfSinks(walker.walker.graph.vertices, positions);
    walker.SetActivePositions(positions);
  }

  /** `v` is active and terminal, with a priority below that of every other active terminal vertex. */
  ghost predicate StrictlyLeast<V, E>(vs: Vertices<V, E>, active: set<VertexId>, v: VertexId)
  {
    v in active && v.index < |vs| && vs[v.index].vertexLabel.Terminal?
    && forall other ::
         other in active && other != v && other.index < |vs| && vs[other.index].vertexLabel.Terminal?
         ==> vs[v.index].vertexLabel.priority < vs[other.index].vertexLabel.priority
  }

  // ---------------------------------------------------------------------
  // The unit test `literal`

  /** The start vertex and the vertices `add` labels, in the order of the adds. */
  function Labelled<V, E>(vs: Vertices<V, E>, r: RegularExpression<E>, value: V, priority: int): Vertices<V, E>
    requires 0 < |vs|
  {
    var built := Build(vs, r, VertexId(0));
    built.0[built.1.index := Vertex(Terminal(value, priority), built.0[built.1.index].departing)]
  }

  /** The graph of `literal`: 'a' leads to the terminal of 1, 'b' to that of 2. */
  function LiteralTestVertices(): Vertices<int, char>
  {
    [ Vertex(NonTerminal, map[VertexId(1) := [Char('a')], VertexId(2) := [Char('b')]]),
      Vertex(Terminal(1, 0), map[]),
      Vertex(Terminal(2, 1), map[]) ]
  }

  lemma LiteralTestBuilt()
    ensures Labelled(Labelled([Vertex(NonTerminal, map[])], Literal('a'), 1, 0), Literal('b'), 2, 1)
         == LiteralTestVertices()
  {
    var v0: Vertices<int, char> := [Vertex(NonTerminal, map[])];
    var w0 := AddVertex(v0);
    assert w0 == [Vertex(NonTerminal, map[]), Vertex(NonTerminal, map[])];
    var e0 := AddEdge(w0, VertexId(0), VertexId(1), Char('a'));
    var none: seq<EdgeLabel<char>> := [];
    assert none + [Char('a')] == [Char('a')] && none + [Char('b')] == [Char('b')];
    assert w0[0].ArcsOrNone(VertexId(1)) == none;
    assert e0[0].departing == map[VertexId(1) := [Char('a')]];
    var v1 := Labelled(v0, Literal('a'), 1, 0);
    assert v1 == [Vertex(NonTerminal, map[VertexId(1) := [Char('a')]]), Vertex(Terminal(1, 0), map[])];
    var w1 := AddVertex(v1);
    var e1 := AddEdge(w1, VertexId(0), VertexId(2), Char('b'));
    assert w1[0].ArcsOrNone(VertexId(2)) == none;
    assert e1[0].departing == map[VertexId(1) := [Char('a')], VertexId(2) := [Char('b')]];
  }

  /** A set of vertices without epsilon edges is its own closure. */
  lemma ClosureOfSinks<V, E>(vs: Vertices<V, E>, s: set<VertexId>)
    requires ClosedGraph(vs) && s <= ValidIds(vs)
    requires forall v :: v in s ==> EpsilonTargets(vs, v) == {}
    ensures Closure(vs, s) == s
  {
    ClosureUnique(vs, s, s);
  }

  lemma LiteralTestClosed()
    ensures ClosedGraph(LiteralTestVertices())
  {
    var vs := LiteralTestVertices();
    forall i, id | 0 <= i < |vs| && id in vs[i].departing
      ensures id.index < |vs|
    {
    }
  }

  lemma LiteralTestTargets()
    ensures var vs := LiteralTestVertices();
      EpsilonTargets(vs, VertexId(0)) == {} && EpsilonTargets(vs, VertexId(1)) == {} && EpsilonTargets(vs, VertexId(2)) == {}
      && SymbolStep(vs, {VertexId(0)}, IsSymbol('a')) == {VertexId(1)}
      && SymbolStep(vs, {VertexId(0)}, IsSymbol('b')) == {VertexId(2)}
  {
    var vs := LiteralTestVertices();
    assert VertexId(1) !in EpsilonTargets(vs, VertexId(0));
    assert VertexId(2) !in EpsilonTargets(vs, VertexId(0));
    assert OfInterest(IsSymbol('a'))(vs[0].departing[VertexId(1)][0]);
    assert VertexId(1) in SymbolTargets(vs, VertexId(0), IsSymbol('a'));
    assert VertexId(2) !in SymbolTargets(vs, VertexId(0), IsSymbol('a'));
    assert OfInterest(IsSymbol('b'))(vs[0].departing[VertexId(2)][0]);
    assert VertexId(2) in SymbolTargets(vs, VertexId(0), IsSymbol('b'));
    assert VertexId(1) !in SymbolTargets(vs, VertexId(0), IsSymbol('b'));
  }

  /** What the walks of `literal` meet in its graph. */
  lemma LiteralTestMoves(vs: Vertices<int, char>)
    requires vs == LiteralTestVertices()
    ensures ClosedGraph(vs) && |vs| == 3
    ensures vs[1].vertexLabel == Terminal(1, 0) && vs[2].vertexLabel == Terminal(2, 1)
    ensures EpsilonFree(vs, {VertexId(0), VertexId(1), VertexId(2)})
    ensures SymbolStep(vs, {VertexId(0)}, IsSymbol('a')) == {VertexId(1)}
    ensures SymbolStep(vs, {VertexId(0)}, IsSymbol('b')) == {VertexId(2)}
  {
    LiteralTestClosed();
    LiteralTestTargets();
  }

  /**
   * `literal`: with 'a' added as 1 and 'b' as 2, walking 'a' from the start
   * finds 1, and walking 'b' from the start again finds 2.
   */
  method LiteralTest() returns (first: Option<int>, second: Option<int>)
    ensures first == Some(1) && second == Some(2)
  {
    var builder := new NFABuilder<int, char>();
    builder.Add(Literal('a'), 1);
    builder.Add(Literal('b'), 2);
    var nfa, start := builder.Eject();
    LiteralTestBuilt();
    LiteralTestMoves(nfa.vertices);
    first, second := LiteralTestWalk(nfa, start);
  }

  method LiteralTestWalk(nfa: Graph<VertexLabel<int>, EdgeLabel<char>>, start: VertexId) returns (first: Option<int>, second: Option<int>)
    requires ClosedGraph(nfa.vertices) && |nfa.vertices| == 3 && start == VertexId(0)
    requires nfa.vertices[1].vertexLabel == Terminal(1, 0) && nfa.vertices[2].vertexLabel == Terminal(2, 1)
    requires EpsilonFree(nfa.vertices, {VertexId(0), VertexId(1), VertexId(2)})
    requires SymbolStep(nfa.vertices, {VertexId(0)}, IsSymbol('a')) == {VertexId(1)}
    requires SymbolStep(nfa.vertices, {VertexId(0)}, IsSymbol('b')) == {VertexId(2)}
    ensures first == Some(1) && second == Some(2)
  {
    var walker := StartAt(nfa, start);
    WalkTo(walker, 'a', {VertexId(1)});
    first := ActiveTerminal(walker, VertexId(1));
    ResetTo(walker, {start});
    WalkTo(walker, 'b', {VertexId(2)});
    second := ActiveTerminal(walker, VertexId(2));
  }

  /**
   * When an active terminal vertex has a priority below that of every other
   * active terminal vertex, the walker finds its value.
   */
  method ActiveTerminal<V, E(==)>(walker: NFAWalker<V, E>, v: VertexId) returns (r: Option<V>)
    requires walker.Valid() && v in walker.walker.active
    requires walker.walker.graph.vertices[v.index].vertexLabel.Terminal?
    requires StrictlyLeast(walker.walker.graph.vertices, walker.walker.active, v)
    ensures r == Some(walker.walker.graph.vertices[v.index].vertexLabel.value)
  {
    r := walker.PriorityTerminalLabel();
    assert r.Some?;
    ghost var id :| LeastTerminal(walker.walker.graph.vertices, walker.walker.active, id)
                    && walker.walker.graph.vertices[id.index].vertexLabel.value == r.value;
    assert id == v;
  }

  // ---------------------------------------------------------------------
  // The unit test `priority`

  /** The three literals of `priority`, in sequence. */
  function Abc(): RegularExpression<char>
  {
    Sequence([Literal('a'), Literal('b'), Literal('c')])
  }

  /** The graph of `priority`: two chains a, b, c from the start, ending in the terminals of 1 and 2. */
  function PriorityTestVertices(): Vertices<int, char>
  {
    [ Vertex(NonTerminal, map[VertexId(1) := [Char('a')], VertexId(4) := [Char('a')]]),
      Vertex(NonTerminal, map[VertexId(2) := [Char('b')]]),
      Vertex(NonTerminal, map[VertexId(3) := [Char('c')]]),
      Vertex(Terminal(1, 0), map[]),
      Vertex(NonTerminal, map[VertexId(5) := [Char('b')]]),
      Vertex(NonTerminal, map[VertexId(6) := [Char('c')]]),
      Vertex(Terminal(2, 1), map[]) ]
  }

  /** A literal appended to a vertex without edges towards the new vertex. */
  lemma BuildLiteral<V>(vs: Vertices<V, char>, c: char, entry: VertexId)
    requires entry.index < |vs| && VertexId(|vs|) !in vs[entry.index].departing
    ensures Build(vs, Literal(c), entry).1 == VertexId(|vs|)
    ensures Build(vs, Literal(c), entry).0
         == vs[entry.index := Vertex(vs[entry.index].vertexLabel, vs[entry.index].departing[VertexId(|vs|) := [Char(c)]])]
              + [Vertex(NonTerminal, map[])]
  {
    var w := AddVertex(vs);
    var e := AddEdge(w, entry, VertexId(|vs|), Char(c));
    assert Build(vs, Literal(c), entry) == (e, VertexId(|vs|));
    var none: seq<EdgeLabel<char>> := [];
    assert w[entry.index].ArcsOrNone(VertexId(|vs|)) == none;
    assert none + [Char(c)] == [Char(c)];
    var x := Vertex(vs[entry.index].vertexLabel, vs[entry.index].departing[VertexId(|vs|) := [Char(c)]]);
    assert e[entry.index] == x;
    assert e == vs[entry.index := x] + [Vertex(NonTerminal, map[])];
  }

  lemma PriorityTestBuilt()
    ensures Labelled(Labelled([Vertex(NonTerminal, map[])], Abc(), 1, 0), Abc(), 2, 1) == PriorityTestVertices()
  {
    var v0: Vertices<int, char> := [Vertex(NonTerminal, map[])];
    var children := [Literal('a'), Literal('b'), Literal('c')];
    assert children[1..] == [Literal('b'), Literal('c')] && children[1..][1..] == [Literal('c')];
    assert children[1..][1..][1..] == [];
    BuildLiteral(v0, 'a', VertexId(0));
    var a1 := Build(v0, Literal('a'), VertexId(0));
    BuildLiteral(a1.0, 'b', VertexId(1));
    var b1 := Build(a1.0, Literal('b'), VertexId(1));
    BuildLiteral(b1.0, 'c', VertexId(2));
    var c1 := Build(b1.0, Literal('c'), VertexId(2));
    assert Build(v0, Abc(), VertexId(0)) == c1;
    var v1 := Labelled(v0, Abc(), 1, 0);
    assert v1 == [ Vertex(NonTerminal, map[VertexId(1) := [Char('a')]]),
                   Vertex(NonTerminal, map[VertexId(2) := [Char('b')]]),
                   Vertex(NonTerminal, map[VertexId(3) := [Char('c')]]),
                   Vertex(Terminal(1, 0), map[]) ];
    BuildLiteral(v1, 'a', VertexId(0));
    var a2 := Build(v1, Literal('a'), VertexId(0));
    BuildLiteral(a2.0, 'b', VertexId(4));
    var b2 := Build(a2.0, Literal('b'), VertexId(4));
    BuildLiteral(b2.0, 'c', VertexId(5));
    var c2 := Build(b2.0, Literal('c'), VertexId(5));
    assert Build(v1, Abc(), VertexId(0)) == c2;
  }

  lemma PriorityTestClosed()
    ensures ClosedGraph(PriorityTestVertices())
  {
    var vs := PriorityTestVertices();
    forall i, id | 0 <= i < |vs| && id in vs[i].departing
      ensures id.index < |vs|
    {
    }
  }

  lemma PriorityTestNoEpsilon()
    ensures var vs := PriorityTestVertices();
      EpsilonFree(vs, {VertexId(0)}) && EpsilonFree(vs, {VertexId(1), VertexId(4)})
      && EpsilonFree(vs, {VertexId(2), VertexId(5)}) && EpsilonFree(vs, {VertexId(3), VertexId(6)})
  {
    var vs := PriorityTestVertices();
    forall i, n | 0 <= i < 7 && n in EpsilonTargets(vs, VertexId(i))
      ensures false
    {
      var k :| 0 <= k < |vs[i].departing[n]| && IsEpsilon(vs[i].departing[n][k]);
    }
    assert forall i :: 0 <= i < 7 ==> EpsilonTargets(vs, VertexId(i)) == {};
  }

  lemma PriorityTestSteps()
    ensures var vs := PriorityTestVertices();
      SymbolStep(vs, {VertexId(0)}, IsSymbol('a')) == {VertexId(1), VertexId(4)}
      && SymbolStep(vs, {VertexId(1), VertexId(4)}, IsSymbol('b')) == {VertexId(2), VertexId(5)}
      && SymbolStep(vs, {VertexId(2), VertexId(5)}, IsSymbol('c')) == {VertexId(3), VertexId(6)}
  {
    var vs := PriorityTestVertices();
    assert OfInterest(IsSymbol('a'))(vs[0].departing[VertexId(1)][0]);
    assert OfInterest(IsSymbol('a'))(vs[0].departing[VertexId(4)][0]);
    assert SymbolTargets(vs, VertexId(0), IsSymbol('a')) == {VertexId(1), VertexId(4)};
    assert OfInterest(IsSymbol('b'))(vs[1].departing[VertexId(2)][0]);
    assert OfInterest(IsSymbol('b'))(vs[4].departing[VertexId(5)][0]);
    assert SymbolTargets(vs, VertexId(1), IsSymbol('b')) == {VertexId(2)};
    assert SymbolTargets(vs, VertexId(4), IsSymbol('b')) == {VertexId(5)};
    assert OfInterest(IsSymbol('c'))(vs[2].departing[VertexId(3)][0]);
    assert OfInterest(IsSymbol('c'))(vs[5].departing[VertexId(6)][0]);
    assert SymbolTargets(vs, VertexId(2), IsSymbol('c')) == {VertexId(3)};
    assert SymbolTargets(vs, VertexId(5), IsSymbol('c')) == {VertexId(6)};
  }

  /** What the walks of `priority` meet in its graph. */
  lemma PriorityTestMoves(vs: Vertices<int, char>)
    requires vs == PriorityTestVertices()
    ensures ClosedGraph(vs) && |vs| == 7
    ensures vs[3].vertexLabel == Terminal(1, 0) && vs[6].vertexLabel == Terminal(2, 1)
    ensures EpsilonFree(vs, {VertexId(0)}) && EpsilonFree(vs, {VertexId(1), VertexId(4)})
    ensures EpsilonFree(vs, {VertexId(2), VertexId(5)}) && EpsilonFree(vs, {VertexId(3), VertexId(6)})
    ensures SymbolStep(vs, {VertexId(0)}, IsSymbol('a')) == {VertexId(1), VertexId(4)}
    ensures SymbolStep(vs, {VertexId(1), VertexId(4)}, IsSymbol('b')) == {VertexId(2), VertexId(5)}
    ensures SymbolStep(vs, {VertexId(2), VertexId(5)}, IsSymbol('c')) == {VertexId(3), VertexId(6)}
    ensures StrictlyLeast(vs, {VertexId(3), VertexId(6)}, VertexId(3))
  {
    PriorityTestClosed();
    PriorityTestNoEpsilon();
    PriorityTestSteps();
  }

  /**
   * `priority`: with a, b, c added as 1 and again as 2, walking a, b, c
   * finds 1, the value added first.
   */
  method PriorityTest() returns (found: Option<int>)
    ensures found == Some(1)
  {
    var nfa, start := BuildTwice(Abc(), 1, 2);
    PriorityTestBuilt();
    PriorityTestMoves(nfa.vertices);
    found := PriorityTestWalk(nfa, start);
  }

  /** A new builder given `r` twice, as `first` and then as `second`. */
  method BuildTwice<V, E(==)>(r: RegularExpression<E>, first: V, second: V)
    returns (nfa: Graph<VertexLabel<V>, EdgeLabel<E>>, start: VertexId)
    ensures start == VertexId(0)
    ensures nfa.vertices == Labelled(Labelled([Vertex(NonTerminal, map[])], r, first, 0), r, second, 1)
  {
    var builder := new NFABuilder<V, E>();
    ghost var initial := builder.graph.vertices;
    builder.Add(r, first);
    ghost var once := builder.graph.vertices;
    assert once == Labelled(initial, r, first, 0);
    builder.Add(r, second);
    assert builder.graph.vertices == Labelled(once, r, second, 1);
    nfa, start := builder.Eject();
  }

  method PriorityTestWalk(nfa: Graph<VertexLabel<int>, EdgeLabel<char>>, start: VertexId) returns (found: Option<int>)
    requires ClosedGraph(nfa.vertices) && |nfa.vertices| == 7 && start == VertexId(0)
    requires nfa.vertices[3].vertexLabel == Terminal(1, 0)
    requires EpsilonFree(nfa.vertices, {VertexId(0)}) && EpsilonFree(nfa.vertices, {VertexId(1), VertexId(4)})
    requires EpsilonFree(nfa.vertices, {VertexId(2), VertexId(5)}) && EpsilonFree(nfa.vertices, {VertexId(3), VertexId(6)})
    requires SymbolStep(nfa.vertices, {VertexId(0)}, IsSymbol('a')) == {VertexId(1), VertexId(4)}
    requires SymbolStep(nfa.vertices, {VertexId(1), VertexId(4)}, IsSymbol('b')) == {VertexId(2), VertexId(5)}
    requires SymbolStep(nfa.vertices, {VertexId(2), VertexId(5)}, IsSymbol('c')) == {VertexId(3), VertexId(6)}
    requires StrictlyLeast(nfa.vertices, {VertexId(3), VertexId(6)}, VertexId(3))
    ensures found == Some(1)
  {
    var walker := StartAt(nfa, start);
    WalkTo(walker, 'a', {VertexId(1), VertexId(4)});
    WalkTo(walker, 'b', {VertexId(2), VertexId(5)});
    found := PriorityTestLastWalk(walker);
  }

  method PriorityTestLastWalk(walker: NFAWalker<int, char>) returns (found: Option<int>)
    requires walker.Valid() && walker.walker.active == {VertexId(2), VertexId(5)}
    requires EpsilonFree(walker.walker.graph.vertices, {VertexId(3), VertexId(6)})
    requires SymbolStep(walker.walker.graph.vertices, {VertexId(2), VertexId(5)}, IsSymbol('c')) == {VertexId(3), VertexId(6)}
    requires StrictlyLeast(walker.walker.graph.vertices, {VertexId(3), VertexId(6)}, VertexId(3))
    requires walker.walker.graph.vertices[3].vertexLabel == Terminal(1, 0)
    modifies walker.walker
    ensures found == Some(1)
  {
    WalkTo(walker, 'c', {VertexId(3), VertexId(6)});
    found := ActiveTerminal(walker, VertexId(3));
  }
}
