/**
 * A directed graph with labelled vertices and labelled, possibly parallel,
 * edges (src/data/graph.rs).  Vertices live in a growing sequence and are
 * named by their index; each vertex maps every target it has edges to onto
 * the labels of those edges, in the order they were added.
 */
module Graphs {
  import opened Wrappers

  datatype VertexId = VertexId(index: nat)

  datatype Error = InvalidVertexId(id: VertexId) | NoArcsTo(to: VertexId)

  datatype Vertex<VL, EL> = Vertex(vertexLabel: VL, departing: map<VertexId, seq<EL>>)
  {
    /** `add_edge_to`: append `edgeLabel` to the edges towards `end`. */
    function AddEdgeTo(end: VertexId, edgeLabel: EL): (v: Vertex<VL, EL>)
      ensures v.vertexLabel == vertexLabel && v.departing.Keys == departing.Keys + {end}
    {
      Vertex(vertexLabel, departing[end := ArcsOrNone(end) + [edgeLabel]])
    }

    /** The labels of the edges towards `to`, none when there are none. */
    function ArcsOrNone(to: VertexId): seq<EL>
    {
      if to in departing then departing[to] else []
    }

    /** `reachable_from`: every target of some edge. */
    function ReachableFrom(): set<VertexId>
    {
      departing.Keys
    }

    /** `arcs_to`. */
    function ArcsTo(to: VertexId): (r: Result<seq<EL>, Error>)
      ensures r.Err? <==> to !in departing
      ensures r.Err? ==> r.error == NoArcsTo(to)
      ensures r.Ok? ==> r.value == departing[to]
    {
      if to in departing then Ok(departing[to]) else Err(NoArcsTo(to))
    }

    /** The targets of the edges whose label satisfies `p`. */
    function ReachableMatching(p: EL -> bool): set<VertexId>
    {
      set id | id in departing && exists k :: 0 <= k < |departing[id]| && p(departing[id][k])
    }
  }

  /** `reachable_through` on a vertex: the targets of the edges labelled `edgeLabel`. */
  function VertexReachableThrough<VL, EL(==)>(v: Vertex<VL, EL>, edgeLabel: EL): set<VertexId>
  {
    set id | id in v.departing && edgeLabel in v.departing[id]
  }

  class Graph<VL, EL(==)> {
    var vertices: seq<Vertex<VL, EL>>

    /** `new`: no vertices. */
    constructor()
      ensures vertices == []
    {
      vertices := [];
    }

    predicate IsValid(id: VertexId)
      reads this
    {
      id.index < |vertices|
    }

    /** Every edge leads to a vertex of the graph. */
    ghost predicate Closed()
      reads this
    {
      forall i, id :: 0 <= i < |vertices| && id in vertices[i].departing ==> IsValid(id)
    }

    /** `vertex_count`. */
    function VertexCount(): (n: nat)
      reads this
      ensures forall id :: IsValid(id) <==> id.index < n
    {
      |vertices|
    }

    /** `create_vertex`: a new vertex without edges, named by the old count. */
    method CreateVertex(vertexLabel: VL) returns (id: VertexId)
      modifies this
      ensures id == VertexId(old(VertexCount()))
      ensures vertices == old(vertices) + [Vertex(vertexLabel, map[])]
    {
      id := VertexId(|vertices|);
      vertices := vertices + [Vertex(vertexLabel, map[])];
    }

    /** `get_vertex`. */
    function GetVertex(id: VertexId): (r: Result<Vertex<VL, EL>, Error>)
      reads this
      ensures r.Ok? <==> IsValid(id)
      ensures r.Ok? ==> r.value == vertices[id.index]
      ensures r.Err? ==> r.error == InvalidVertexId(id)
    {
      if id.index < |vertices| then Ok(vertices[id.index]) else Err(InvalidVertexId(id))
    }

    /** `vertex_label`. */
    function VertexLabel(id: VertexId): (r: Result<VL, Error>)
      reads this
      ensures r.Ok? <==> IsValid(id)
      ensures r.Ok? ==> r.value == vertices[id.index].vertexLabel
      ensures r.Err? ==> r.error == InvalidVertexId(id)
    {
      match GetVertex(id)
      case Ok(v) => Ok(v.vertexLabel)
      case Err(e) => Err(e)
    }

    /** Assigning through `vertex_label_mut`. */
    method SetVertexLabel(id: VertexId, vertexLabel: VL) returns (r: Result<(), Error>)
      modifies this
      ensures r.Ok? <==> old(IsValid(id))
      ensures r.Err? ==> r.error == InvalidVertexId(id) && vertices == old(vertices)
      ensures r.Ok? ==> vertices == old(vertices)[id.index := Vertex(vertexLabel, old(vertices)[id.index].departing)]
    {
      if id.index >= |vertices| {
        return Err(InvalidVertexId(id));
      }
      vertices := vertices[id.index := Vertex(vertexLabel, vertices[id.index].departing)];
      r := Ok(());
    }

    /** `create_edge`: only `start` is checked; `end` may name no vertex. */
    method CreateEdge(start: VertexId, end: VertexId, edgeLabel: EL) returns (r: Result<(), Error>)
      modifies this
      ensures r.Ok? <==> old(IsValid(start))
      ensures r.Err? ==> r.error == InvalidVertexId(start) && vertices == old(vertices)
      ensures r.Ok? ==> vertices == old(vertices)[start.index := old(vertices)[start.index].AddEdgeTo(end, edgeLabel)]
    {
      if start.index >= |vertices| {
        return Err(InvalidVertexId(start));
      }
      vertices := vertices[start.index := vertices[start.index].AddEdgeTo(end, edgeLabel)];
      r := Ok(());
    }

    /** `reachable_from`. */
    function ReachableFrom(id: VertexId): (r: Result<set<VertexId>, Error>)
      reads this
      ensures r.Ok? <==> IsValid(id)
      ensures r.Err? ==> r.error == InvalidVertexId(id)
      ensures r.Ok? ==> forall to :: to in r.value <==> vertices[id.index].ArcsTo(to).Ok?
    {
      match GetVertex(id)
      case Ok(v) => Ok(v.ReachableFrom())
      case Err(e) => Err(e)
    }

    /** `reachable_through`. */
    function ReachableThrough(id: VertexId, edgeLabel: EL): (r: Result<set<VertexId>, Error>)
      reads this
      ensures r.Ok? <==> IsValid(id)
      ensures r.Err? ==> r.error == InvalidVertexId(id)
      ensures r.Ok? ==> forall to :: to in r.value <==> vertices[id.index].ArcsTo(to).Ok? && edgeLabel in vertices[id.index].departing[to]
    {
      match GetVertex(id)
      case Ok(v) => Ok(VertexReachableThrough(v, edgeLabel))
      case Err(e) => Err(e)
    }

    /**
     * `reachable_through` as src/data/graphwalker.rs calls it: with a
     * predicate on edge labels instead of a label.
     */
    function ReachableWhere(id: VertexId, p: EL -> bool): (r: Result<set<VertexId>, Error>)
      reads this
      ensures r.Ok? <==> IsValid(id)
      ensures r.Err? ==> r.error == InvalidVertexId(id)
      ensures r.Ok? ==> r.value == vertices[id.index].ReachableMatching(p)
    {
      match GetVertex(id)
      case Ok(v) => Ok(v.ReachableMatching(p))
      case Err(e) => Err(e)
    }

    /** `arcs_between`. */
    function ArcsBetween(from: VertexId, to: VertexId): (r: Result<seq<EL>, Error>)
      reads this
      ensures r.Err? <==> !IsValid(from) || to !in vertices[from.index].departing
      ensures !IsValid(from) ==> r == Err(InvalidVertexId(from))
      ensures IsValid(from) && r.Err? ==> r.error == NoArcsTo(to)
    {
      match GetVertex(from)
      case Ok(v) => v.ArcsTo(to)
      case Err(e) => Err(e)
    }
  }

  // ---------------------------------------------------------------------
  // Properties

  /**
   * Adding an edge appends its label to the edges towards its end and
   * leaves the edges towards every other target as they were.
   */
  lemma AddEdgeToArcs<VL, EL>(v: Vertex<VL, EL>, end: VertexId, edgeLabel: EL, to: VertexId)
    ensures v.AddEdgeTo(end, edgeLabel).ArcsTo(to)
      == if to == end then Ok(v.ArcsOrNone(end) + [edgeLabel]) else v.ArcsTo(to)
  {
  }

  /**
   * `reachable_through` answers exactly the targets of an edge with that
   * label: it is `ReachableMatching` for equality with the label.
   */
  lemma ReachableThroughIsMatching<VL, EL>(v: Vertex<VL, EL>, edgeLabel: EL)
    ensures VertexReachableThrough(v, edgeLabel) == v.ReachableMatching(l => l == edgeLabel)
  {
    forall id | id in v.departing
      ensures edgeLabel in v.departing[id] <==> exists k :: 0 <= k < |v.departing[id]| && v.departing[id][k] == edgeLabel
    {
      if edgeLabel in v.departing[id] {
        var k :| 0 <= k < |v.departing[id]| && v.departing[id][k] == edgeLabel;
      }
    }
  }

  /**
   * After adding an edge, the targets reachable through a label are the
   * old ones, plus the edge's end when the label is the edge's label.
   */
  lemma ReachableThroughAddEdge<VL, EL>(v: Vertex<VL, EL>, end: VertexId, edgeLabel: EL, m: EL)
    ensures VertexReachableThrough(v.AddEdgeTo(end, edgeLabel), m)
      == VertexReachableThrough(v, m) + (if m == edgeLabel then {end} else {})
  {
    var w := v.AddEdgeTo(end, edgeLabel);
    forall id
      ensures id in VertexReachableThrough(w, m) <==> id in VertexReachableThrough(v, m) + (if m == edgeLabel then {end} else {})
    {
      if id == end {
        assert w.departing[end] == v.ArcsOrNone(end) + [edgeLabel];
        assert m in v.ArcsOrNone(end) + [edgeLabel] <==> m in v.ArcsOrNone(end) || m == edgeLabel;
      }
    }
  }

  /** Adding a vertex or an edge between vertices of a closed graph keeps it closed. */
  lemma AddEdgeKeepsClosed<VL, EL>(vs: seq<Vertex<VL, EL>>, start: VertexId, end: VertexId, edgeLabel: EL)
    requires start.index < |vs| && end.index < |vs|
    requires forall i, id :: 0 <= i < |vs| && id in vs[i].departing ==> id.index < |vs|
    ensures var ws := vs[start.index := vs[start.index].AddEdgeTo(end, edgeLabel)];
      forall i, id :: 0 <= i < |ws| && id in ws[i].departing ==> id.index < |ws|
  {
  }

  /** The unit test `vertex_count`: three vertices, counted one by one. */
  method VertexCountExample() returns (counts: seq<nat>)
    ensures counts == [0, 1, 2, 3]
  {
    var graph := new Graph<int, ()>();
    counts := [graph.VertexCount()];
    var _ := graph.CreateVertex(1);
    counts := counts + [graph.VertexCount()];
    var _ := graph.CreateVertex(21);
    counts := counts + [graph.VertexCount()];
    var _ := graph.CreateVertex(1);
    counts := counts + [graph.VertexCount()];
  }

  /** The unit test `reachable_by`: parallel edges with different labels. */
  method ReachableByExample() returns (a: set<VertexId>, b: set<VertexId>, c: set<VertexId>)
    ensures a == {VertexId(0), VertexId(1)}
    ensures b == {VertexId(1), VertexId(2)}
    ensures c == {VertexId(1), VertexId(2), VertexId(3)}
  {
    var graph := new Graph<int, char>();
    var v1 := graph.CreateVertex(1);
    var v2 := graph.CreateVertex(2);
    var v3 := graph.CreateVertex(3);
    var v4 := graph.CreateVertex(4);
    assert graph.vertices[0] == Vertex(1, map[]);
    var _ := graph.CreateEdge(v1, v1, 'a');
    var _ := graph.CreateEdge(v1, v2, 'a');
    var _ := graph.CreateEdge(v1, v2, 'b');
    var _ := graph.CreateEdge(v1, v3, 'b');
    var _ := graph.CreateEdge(v1, v2, 'c');
    var _ := graph.CreateEdge(v1, v3, 'c');
    var _ := graph.CreateEdge(v1, v4, 'c');
    assert graph.vertices[0] == Vertex(1, map[]).AddEdgeTo(v1, 'a').AddEdgeTo(v2, 'a').AddEdgeTo(v2, 'b')
      .AddEdgeTo(v3, 'b').AddEdgeTo(v2, 'c').AddEdgeTo(v3, 'c').AddEdgeTo(v4, 'c');
    ReachableByEdges();
    ReachableByTargets(graph.vertices[0]);
    var ra := graph.ReachableThrough(v1, 'a');
    var rb := graph.ReachableThrough(v1, 'b');
    var rc := graph.ReachableThrough(v1, 'c');
    a, b, c := ra.value, rb.value, rc.value;
  }

  lemma ReachableByEdges()
    ensures Vertex(1, map[]).AddEdgeTo(VertexId(0), 'a').AddEdgeTo(VertexId(1), 'a').AddEdgeTo(VertexId(1), 'b')
      .AddEdgeTo(VertexId(2), 'b').AddEdgeTo(VertexId(1), 'c').AddEdgeTo(VertexId(2), 'c').AddEdgeTo(VertexId(3), 'c').departing
      == map[VertexId(0) := ['a'], VertexId(1) := ['a', 'b', 'c'], VertexId(2) := ['b', 'c'], VertexId(3) := ['c']]
  {
    var v: Vertex<int, char> := Vertex(1, map[]);
    var v4 := v.AddEdgeTo(VertexId(0), 'a').AddEdgeTo(VertexId(1), 'a').AddEdgeTo(VertexId(1), 'b').AddEdgeTo(VertexId(2), 'b');
    ReachableByEdgesAB(v);
    ReachableByEdgesC(v4);
  }

  lemma ReachableByEdgesAB(v: Vertex<int, char>)
    requires v.departing == map[]
    ensures v.AddEdgeTo(VertexId(0), 'a').AddEdgeTo(VertexId(1), 'a').AddEdgeTo(VertexId(1), 'b').AddEdgeTo(VertexId(2), 'b').departing
      == map[VertexId(0) := ['a'], VertexId(1) := ['a', 'b'], VertexId(2) := ['b']]
  {
    var v1 := v.AddEdgeTo(VertexId(0), 'a');
    assert v1.departing == map[VertexId(0) := ['a']] by { AddEdgeStep(v, VertexId(0), 'a', [], ['a']); }
    var v2 := v1.AddEdgeTo(VertexId(1), 'a');
    assert v2.departing == map[VertexId(0) := ['a'], VertexId(1) := ['a']] by { AddEdgeStep(v1, VertexId(1), 'a', [], ['a']); }
    var v3 := v2.AddEdgeTo(VertexId(1), 'b');
    assert v3.departing == map[VertexId(0) := ['a'], VertexId(1) := ['a', 'b']] by { AddEdgeStep(v2, VertexId(1), 'b', ['a'], ['a', 'b']); }
    AddEdgeStep(v3, VertexId(2), 'b', [], ['b']);
  }

  lemma ReachableByEdgesC(v: Vertex<int, char>)
    requires v.departing == map[VertexId(0) := ['a'], VertexId(1) := ['a', 'b'], VertexId(2) := ['b']]
    ensures v.AddEdgeTo(VertexId(1), 'c').AddEdgeTo(VertexId(2), 'c').AddEdgeTo(VertexId(3), 'c').departing
      == map[VertexId(0) := ['a'], VertexId(1) := ['a', 'b', 'c'], VertexId(2) := ['b', 'c'], VertexId(3) := ['c']]
  {
    var v5 := v.AddEdgeTo(VertexId(1), 'c');
    assert v5.departing == map[VertexId(0) := ['a'], VertexId(1) := ['a', 'b', 'c'], VertexId(2) := ['b']] by {
      AddEdgeStep(v, VertexId(1), 'c', ['a', 'b'], ['a', 'b', 'c']);
    }
    var v6 := v5.AddEdgeTo(VertexId(2), 'c');
    assert v6.departing == map[VertexId(0) := ['a'], VertexId(1) := ['a', 'b', 'c'], VertexId(2) := ['b', 'c']] by {
      AddEdgeStep(v5, VertexId(2), 'c', ['b'], ['b', 'c']);
    }
    AddEdgeStep(v6, VertexId(3), 'c', [], ['c']);
  }

  /** One edge added: the labels towards `end` so far, `before`, gain `edgeLabel`. */
  lemma AddEdgeStep<VL, EL>(v: Vertex<VL, EL>, end: VertexId, edgeLabel: EL, before: seq<EL>, after: seq<EL>)
    requires before == v.ArcsOrNone(end) && after == before + [edgeLabel]
    ensures v.AddEdgeTo(end, edgeLabel).departing == v.departing[end := after]
  {
  }

  lemma ReachableByTargets(v: Vertex<int, char>)
    requires v.departing == map[VertexId(0) := ['a'], VertexId(1) := ['a', 'b', 'c'],
                                VertexId(2) := ['b', 'c'], VertexId(3) := ['c']]
    ensures VertexReachableThrough(v, 'a') == {VertexId(0), VertexId(1)}
    ensures VertexReachableThrough(v, 'b') == {VertexId(1), VertexId(2)}
    ensures VertexReachableThrough(v, 'c') == {VertexId(1), VertexId(2), VertexId(3)}
  {
    forall id | id in v.departing
      ensures id.index < 4
      ensures ('a' in v.departing[id]) <==> id.index < 2
      ensures ('b' in v.departing[id]) <==> 1 <= id.index < 3
      ensures ('c' in v.departing[id]) <==> 1 <= id.index
    {
    }
  }
}
