/**
 * The unit tests of src/scripting/regex/nfa.rs that go through epsilon
 * edges: `kleene_of_sequence` and `alternatives2`, and a walk showing that
 * the Kleene construction, which loops back to the vertex it was entered
 * from, lets the automaton of `a* | b` accept "ab".
 *
 * Each test is split as in the `literal` and `priority` tests of `Nfa`:
 * a lemma computes the graph `NFABuilder` builds, lemmas compute the epsilon
 * targets, closures and symbol moves of that graph, and a method walks it
 * with `NFAWalker` given those facts.
 */
module NfaTests {
  import opened Wrappers
  import opened Graphs
  import opened RegexDefs
  import opened GraphWalkers
  import opened Nfa

  /** An edge towards a vertex the start has no edge to yet is a new entry of its map. */
  lemma AddFreshEdge<V, E>(vs: Vertices<V, E>, start: VertexId, end: VertexId, l: EdgeLabel<E>)
    requires start.index < |vs| && end !in vs[start.index].departing
    ensures AddEdge(vs, start, end, l)
         == vs[start.index := Vertex(vs[start.index].vertexLabel, vs[start.index].departing[end := [l]])]
  {
    var none: seq<EdgeLabel<E>> := [];
    assert vs[start.index].ArcsOrNone(end) == none;
    assert none + [l] == [l];
  }

  /** A new builder given `r` once, as `value`. */
  method BuildOnce<V, E(==)>(r: RegularExpression<E>, value: V)
    returns (nfa: Graph<VertexLabel<V>, EdgeLabel<E>>, start: VertexId)
    ensures start == VertexId(0)
    ensures nfa.vertices == Labelled([Vertex(NonTerminal, map[])], r, value, 0)
  {
    var builder := new NFABuilder<V, E>();
    builder.Add(r, value);
    nfa, start := builder.Eject();
  }

  /** Walking `ch` when its moves and their closure are known activates that closure. */
  method WalkClosed<V, E(==)>(walker: NFAWalker<V, E>, ch: E, ghost from: set<VertexId>, ghost to: set<VertexId>,
                              ghost c: set<VertexId>)
    requires walker.Valid() && walker.walker.active == from && to != {} && to <= ValidIds(walker.walker.graph.vertices)
    requires SymbolStep(walker.walker.graph.vertices, from, IsSymbol(ch)) == to
    requires Closure(walker.walker.graph.vertices, to) == c
    modifies walker.walker
    ensures walker.Valid() && walker.walker.active == c
  {
    var _ := walker.Walk(ch);
  }

  /** Every vertex of `s` is a non-terminal vertex of `vs`. */
  ghost predicate AllNonTerminal<V, E>(vs: Vertices<V, E>, s: set<VertexId>)
  {
    forall id :: id in s ==> id.index < |vs| && vs[id.index].vertexLabel.NonTerminal?
  }

  /** With no active terminal vertex the walker finds nothing. */
  method NoTerminal<V, E(==)>(walker: NFAWalker<V, E>) returns (r: Option<V>)
    requires walker.Valid() && AllNonTerminal(walker.walker.graph.vertices, walker.walker.active)
    ensures r == None
  {
    r := walker.PriorityTerminalLabel();
  }

  // ---------------------------------------------------------------------
  // The unit test `kleene_of_sequence`

  /** `(ab)*`. */
  function AbStar(): RegularExpression<char>
  {
    Kleene(Sequence([Literal('a'), Literal('b')]))
  }

  /**
   * The graph of `kleene_of_sequence`: the star's exit is vertex 1, the
   * terminal; 'a' then 'b' lead from the start to vertex 3, which has
   * epsilon edges back to the start and on to the terminal.
   */
  function AbStarVertices(): Vertices<int, char>
  {
    [ Vertex(NonTerminal, map[VertexId(2) := [Char('a')], VertexId(1) := [EdgeLabel.Epsilon]]),
      Vertex(Terminal(1, 0), map[]),
      Vertex(NonTerminal, map[VertexId(3) := [Char('b')]]),
      Vertex(NonTerminal, map[VertexId(1) := [EdgeLabel.Epsilon], VertexId(0) := [EdgeLabel.Epsilon]]) ]
  }

  lemma AbStarSequenceBuilt()
    ensures var w0: Vertices<int, char> := [Vertex(NonTerminal, map[]), Vertex(NonTerminal, map[])];
      Build(w0, Sequence([Literal('a'), Literal('b')]), VertexId(0))
      == ([ Vertex(NonTerminal, map[VertexId(2) := [Char('a')]]),
            Vertex(NonTerminal, map[]),
            Vertex(NonTerminal, map[VertexId(3) := [Char('b')]]),
            Vertex(NonTerminal, map[]) ],
          VertexId(3))
  {
    var w0: Vertices<int, char> := [Vertex(NonTerminal, map[]), Vertex(NonTerminal, map[])];
    var children := [Literal('a'), Literal('b')];
    assert children[1..] == [Literal('b')] && children[1..][1..] == [];
    BuildLiteral(w0, 'a', VertexId(0));
    var a := Build(w0, Literal('a'), VertexId(0));
    assert a.1 == VertexId(2);
    assert a.0 == [ Vertex(NonTerminal, map[VertexId(2) := [Char('a')]]),
                    Vertex(NonTerminal, map[]),
                    Vertex(NonTerminal, map[]) ];
    BuildLiteral(a.0, 'b', VertexId(2));
    var b := Build(a.0, Literal('b'), VertexId(2));
    assert b.1 == VertexId(3);
    assert b.0 == [ Vertex(NonTerminal, map[VertexId(2) := [Char('a')]]),
                    Vertex(NonTerminal, map[]),
                    Vertex(NonTerminal, map[VertexId(3) := [Char('b')]]),
                    Vertex(NonTerminal, map[]) ];
    assert BuildSequence(b.0, children[1..][1..], b.1) == b;
    assert BuildSequence(a.0, children[1..], a.1) == b;
    assert Build(w0, Sequence(children), VertexId(0)) == b;
  }

  lemma AbStarBuilt()
    ensures Labelled([Vertex(NonTerminal, map[])], AbStar(), 1, 0) == AbStarVertices()
  {
    var v0: Vertices<int, char> := [Vertex(NonTerminal, map[])];
    var w0 := AddVertex(v0);
    assert w0 == [Vertex(NonTerminal, map[]), Vertex(NonTerminal, map[])];
    AbStarSequenceBuilt();
    var inner := Build(w0, Sequence([Literal('a'), Literal('b')]), VertexId(0));
    AddFreshEdge(inner.0, VertexId(0), VertexId(1), EdgeLabel.Epsilon);
    var e1 := AddEdge(inner.0, VertexId(0), VertexId(1), EdgeLabel.Epsilon);
    AddFreshEdge(e1, VertexId(3), VertexId(1), EdgeLabel.Epsilon);
    var e2 := AddEdge(e1, VertexId(3), VertexId(1), EdgeLabel.Epsilon);
    AddFreshEdge(e2, VertexId(3), VertexId(0), EdgeLabel.Epsilon);
    var e3 := AddEdge(e2, VertexId(3), VertexId(0), EdgeLabel.Epsilon);
    assert Build(v0, AbStar(), VertexId(0)) == (e3, VertexId(1));
  }

  lemma AbStarTargets()
    ensures var vs := AbStarVertices();
      ClosedGraph(vs)
      && EpsilonTargets(vs, VertexId(0)) == {VertexId(1)} && EpsilonTargets(vs, VertexId(1)) == {}
      && EpsilonTargets(vs, VertexId(2)) == {} && EpsilonTargets(vs, VertexId(3)) == {VertexId(0), VertexId(1)}
  {
    var vs := AbStarVertices();
    forall i, id | 0 <= i < |vs| && id in vs[i].departing
      ensures id.index < |vs|
    {
    }
    assert IsEpsilon(vs[0].departing[VertexId(1)][0]);
    assert VertexId(2) !in EpsilonTargets(vs, VertexId(0));
    assert VertexId(3) !in EpsilonTargets(vs, VertexId(2));
    assert IsEpsilon(vs[3].departing[VertexId(0)][0]) && IsEpsilon(vs[3].departing[VertexId(1)][0]);
  }

  /** The symbol steps of `(ab)*` that the walk takes. */
  lemma AbStarSymbolTargets()
    ensures var vs := AbStarVertices();
      SymbolStep(vs, {VertexId(0), VertexId(1)}, IsSymbol('a')) == {VertexId(2)}
      && SymbolStep(vs, {VertexId(0), VertexId(1), VertexId(3)}, IsSymbol('a')) == {VertexId(2)}
      && SymbolStep(vs, {VertexId(2)}, IsSymbol('b')) == {VertexId(3)}
  {
    var vs := AbStarVertices();
    var pa := IsSymbol('a');
    assert OfInterest(pa)(vs[0].departing[VertexId(2)][0]);
    assert VertexId(2) in SymbolTargets(vs, VertexId(0), pa);
    assert VertexId(1) !in SymbolTargets(vs, VertexId(0), pa);
    assert SymbolTargets(vs, VertexId(3), pa) == {};
    var pb := IsSymbol('b');
    assert OfInterest(pb)(vs[2].departing[VertexId(3)][0]);
    assert VertexId(3) in SymbolTargets(vs, VertexId(2), pb);
  }

  /** The closures of `(ab)*`, from the epsilon targets alone. */
  lemma AbStarClosures(vs: Vertices<int, char>)
    requires ClosedGraph(vs) && |vs| == 4
    requires EpsilonTargets(vs, VertexId(0)) == {VertexId(1)} && EpsilonTargets(vs, VertexId(1)) == {}
    requires EpsilonTargets(vs, VertexId(2)) == {} && EpsilonTargets(vs, VertexId(3)) == {VertexId(0), VertexId(1)}
    ensures Closure(vs, {VertexId(0)}) == {VertexId(0), VertexId(1)}
    ensures Closure(vs, {VertexId(2)}) == {VertexId(2)}
    ensures Closure(vs, {VertexId(3)}) == {VertexId(0), VertexId(1), VertexId(3)}
  {
    assert VertexId(1) in Closure(vs, {VertexId(0)});
    ClosureUnique(vs, {VertexId(0)}, {VertexId(0), VertexId(1)});
    ClosureUnique(vs, {VertexId(2)}, {VertexId(2)});
    assert VertexId(0) in Closure(vs, {VertexId(3)}) && VertexId(1) in Closure(vs, {VertexId(3)});
    ClosureUnique(vs, {VertexId(3)}, {VertexId(0), VertexId(1), VertexId(3)});
  }

  /** The terminal the walks of `kleene_of_sequence` meet. */
  lemma AbStarLabels(vs: Vertices<int, char>)
    requires |vs| == 4 && vs[1].vertexLabel == Terminal(1, 0)
    requires vs[0].vertexLabel == NonTerminal && vs[2].vertexLabel == NonTerminal && vs[3].vertexLabel == NonTerminal
    ensures StrictlyLeast(vs, {VertexId(0), VertexId(1)}, VertexId(1))
    ensures StrictlyLeast(vs, {VertexId(0), VertexId(1), VertexId(3)}, VertexId(1))
    ensures AllNonTerminal(vs, {VertexId(2)})
  {
  }

  /** What the walks of `kleene_of_sequence` meet in its graph. */
  lemma AbStarMoves(vs: Vertices<int, char>)
    requires vs == AbStarVertices()
    ensures ClosedGraph(vs) && |vs| == 4 && vs[1].vertexLabel == Terminal(1, 0)
    ensures StrictlyLeast(vs, {VertexId(0), VertexId(1)}, VertexId(1))
    ensures StrictlyLeast(vs, {VertexId(0), VertexId(1), VertexId(3)}, VertexId(1))
    ensures AllNonTerminal(vs, {VertexId(2)})
    ensures Closure(vs, {VertexId(0)}) == {VertexId(0), VertexId(1)}
    ensures Closure(vs, {VertexId(2)}) == {VertexId(2)}
    ensures Closure(vs, {VertexId(3)}) == {VertexId(0), VertexId(1), VertexId(3)}
    ensures SymbolStep(vs, {VertexId(0), VertexId(1)}, IsSymbol('a')) == {VertexId(2)}
    ensures SymbolStep(vs, {VertexId(0), VertexId(1), VertexId(3)}, IsSymbol('a')) == {VertexId(2)}
    ensures SymbolStep(vs, {VertexId(2)}, IsSymbol('b')) == {VertexId(3)}
  {
    AbStarTargets();
    AbStarSymbolTargets();
    AbStarClosures(vs);
    AbStarLabels(vs);
  }

  /**
   * `kleene_of_sequence`: with `(ab)*` added as 1, the walker finds 1 at
   * the start, nothing after "a", 1 after "ab", nothing after "aba" and 1
   * after "abab".
   */
  method KleeneOfSequenceTest() returns (found: seq<Option<int>>)
    ensures found == [Some(1), None, Some(1), None, Some(1)]
  {
    var nfa, start := BuildOnce(AbStar(), 1);
    AbStarBuilt();
    AbStarMoves(nfa.vertices);
    found := KleeneOfSequenceWalk(nfa, start);
  }

  method KleeneOfSequenceWalk(nfa: Graph<VertexLabel<int>, EdgeLabel<char>>, start: VertexId)
    returns (found: seq<Option<int>>)
    requires ClosedGraph(nfa.vertices) && |nfa.vertices| == 4 && start == VertexId(0)
    requires nfa.vertices[1].vertexLabel == Terminal(1, 0)
    requires StrictlyLeast(nfa.vertices, {VertexId(0), VertexId(1)}, VertexId(1))
    requires StrictlyLeast(nfa.vertices, {VertexId(0), VertexId(1), VertexId(3)}, VertexId(1))
    requires AllNonTerminal(nfa.vertices, {VertexId(2)})
    requires Closure(nfa.vertices, {VertexId(0)}) == {VertexId(0), VertexId(1)}
    requires Closure(nfa.vertices, {VertexId(2)}) == {VertexId(2)}
    requires Closure(nfa.vertices, {VertexId(3)}) == {VertexId(0), VertexId(1), VertexId(3)}
    requires SymbolStep(nfa.vertices, {VertexId(0), VertexId(1)}, IsSymbol('a')) == {VertexId(2)}
    requires SymbolStep(nfa.vertices, {VertexId(0), VertexId(1), VertexId(3)}, IsSymbol('a')) == {VertexId(2)}
    requires SymbolStep(nfa.vertices, {VertexId(2)}, IsSymbol('b')) == {VertexId(3)}
    ensures found == [Some(1), None, Some(1), None, Some(1)]
  {
    ghost var vs := nfa.vertices;
    var walker := new NFAWalker(nfa, start);
    var r0 := ActiveTerminal(walker, VertexId(1));
    var r1 := AbStarStepA(walker, vs, {VertexId(0), VertexId(1)});
    var r2 := AbStarStepB(walker, vs);
    var r3 := AbStarStepA(walker, vs, {VertexId(0), VertexId(1), VertexId(3)});
    var r4 := AbStarStepB(walker, vs);
    found := [r0, r1, r2, r3, r4];
  }

  /** Walking 'a' in `kleene_of_sequence` reaches vertex 2 alone, and no terminal. */
  method AbStarStepA(walker: NFAWalker<int, char>, ghost vs: Vertices<int, char>, ghost from: set<VertexId>)
    returns (r: Option<int>)
    requires walker.Valid() && walker.walker.graph.vertices == vs && walker.walker.active == from
    requires |vs| == 4 && SymbolStep(vs, from, IsSymbol('a')) == {VertexId(2)}
    requires Closure(vs, {VertexId(2)}) == {VertexId(2)} && AllNonTerminal(vs, {VertexId(2)})
    modifies walker.walker
    ensures walker.Valid() && walker.walker.graph.vertices == vs
    ensures walker.walker.active == {VertexId(2)} && r == None
  {
    WalkClosed(walker, 'a', from, {VertexId(2)}, {VertexId(2)});
    r := NoTerminal(walker);
  }

  /** Walking 'b' from vertex 2 in `kleene_of_sequence` loops back to the start and finds 1. */
  method AbStarStepB(walker: NFAWalker<int, char>, ghost vs: Vertices<int, char>) returns (r: Option<int>)
    requires walker.Valid() && walker.walker.graph.vertices == vs && walker.walker.active == {VertexId(2)}
    requires |vs| == 4 && SymbolStep(vs, {VertexId(2)}, IsSymbol('b')) == {VertexId(3)}
    requires Closure(vs, {VertexId(3)}) == {VertexId(0), VertexId(1), VertexId(3)}
    requires vs[1].vertexLabel == Terminal(1, 0)
    requires StrictlyLeast(vs, {VertexId(0), VertexId(1), VertexId(3)}, VertexId(1))
    modifies walker.walker
    ensures walker.Valid() && walker.walker.graph.vertices == vs
    ensures walker.walker.active == {VertexId(0), VertexId(1), VertexId(3)} && r == Some(1)
  {
    WalkClosed(walker, 'b', {VertexId(2)}, {VertexId(3)}, {VertexId(0), VertexId(1), VertexId(3)});
    r := ActiveTerminal(walker, VertexId(1));
  }

  // ---------------------------------------------------------------------
  // The unit test `alternatives2`

  /** `[abc][xyz]`. */
  function Alt2(): RegularExpression<char>
  {
    Sequence([Alternatives([Literal('a'), Literal('b'), Literal('c')]),
              Alternatives([Literal('x'), Literal('y'), Literal('z')])])
  }

  /** The vertices after one literal arm: the symbol leads from `entry` to a new vertex with an epsilon edge to `finish`. */
  lemma LiteralArmVertices<V>(vs: Vertices<V, char>, c: char, entry: VertexId, finish: VertexId)
    requires entry.index < |vs| && finish.index < |vs| && VertexId(|vs|) !in vs[entry.index].departing
    ensures var arm := Build(vs, Literal(c), entry);
      AddEdge(arm.0, arm.1, finish, EdgeLabel.Epsilon)
      == vs[entry.index := Vertex(vs[entry.index].vertexLabel, vs[entry.index].departing[VertexId(|vs|) := [Char(c)]])]
           + [Vertex(NonTerminal, map[finish := [EdgeLabel.Epsilon]])]
  {
    BuildLiteral(vs, c, entry);
    var arm := Build(vs, Literal(c), entry);
    AddFreshEdge(arm.0, arm.1, finish, EdgeLabel.Epsilon);
  }

  /**
   * A literal arm of an alternative, and the remaining arms built on its
   * result; `entry` is the vertex `Vertex(lbl, d)` and `added` the vertex
   * the arm adds.
   */
  lemma BuildLiteralArm<V>(vs: Vertices<V, char>, c: char, rest: seq<RegularExpression<char>>, entry: VertexId,
                           finish: VertexId, lbl: VertexLabel<V>, d: map<VertexId, seq<EdgeLabel<char>>>, added: VertexId)
    requires entry.index < |vs| && finish.index < |vs| && added == VertexId(|vs|)
    requires vs[entry.index] == Vertex(lbl, d) && added !in d
    ensures BuildAlternatives(vs, [Literal(c)] + rest, entry, finish)
         == BuildAlternatives(vs[entry.index := Vertex(lbl, d[added := [Char(c)]])]
                                + [Vertex(NonTerminal, map[finish := [EdgeLabel.Epsilon]])],
                              rest, entry, finish)
  {
    var children := [Literal(c)] + rest;
    assert children[0] == Literal(c) && children[1..] == rest;
    LiteralArmVertices(vs, c, entry, finish);
  }

  /** Three updates of one entry, each followed by an append, leave only the last update. */
  lemma UpdatedThrice<T>(vs: seq<T>, e: nat, first: T, x: T, y: T, z: T, tail: T)
    requires e < |vs|
    ensures ((((vs + [first])[e := x] + [tail])[e := y] + [tail])[e := z] + [tail])
         == vs[e := z] + [first, tail, tail, tail]
  {
  }

  /**
   * Three literal alternatives built at `entry` of a graph of `n` vertices:
   * `n` is the common exit, `n + 1` to `n + 3` the targets of the three
   * symbols, each with an epsilon edge to `n`.
   */
  lemma {:induction false} BuildThreeLiterals<V>(vs: Vertices<V, char>, a: char, b: char, c: char, entry: VertexId)
    requires entry.index < |vs|
    requires VertexId(|vs| + 1) !in vs[entry.index].departing && VertexId(|vs| + 2) !in vs[entry.index].departing
    requires VertexId(|vs| + 3) !in vs[entry.index].departing
    ensures var n := |vs|;
      Build(vs, Alternatives([Literal(a), Literal(b), Literal(c)]), entry)
      == (vs[entry.index := Vertex(vs[entry.index].vertexLabel,
                                   vs[entry.index].departing[VertexId(n + 1) := [Char(a)]]
                                                             [VertexId(n + 2) := [Char(b)]]
                                                             [VertexId(n + 3) := [Char(c)]])]
            + [ Vertex(NonTerminal, map[]),
                Vertex(NonTerminal, map[VertexId(n) := [EdgeLabel.Epsilon]]),
                Vertex(NonTerminal, map[VertexId(n) := [EdgeLabel.Epsilon]]),
                Vertex(NonTerminal, map[VertexId(n) := [EdgeLabel.Epsilon]]) ],
          VertexId(n))
  {
    var n := |vs|;
    var finish := VertexId(n);
    var e := entry.index;
    var lbl := vs[e].vertexLabel;
    var d := vs[e].departing;
    var arm := Vertex(NonTerminal, map[finish := [EdgeLabel.Epsilon]]);
    var w := AddVertex(vs);
    var da := d[VertexId(n + 1) := [Char(a)]];
    var db := da[VertexId(n + 2) := [Char(b)]];
    var dc := db[VertexId(n + 3) := [Char(c)]];
    var ea := w[e := Vertex(lbl, da)] + [arm];
    var eb := ea[e := Vertex(lbl, db)] + [arm];
    var ec := eb[e := Vertex(lbl, dc)] + [arm];
    assert [Literal(a), Literal(b), Literal(c)] == [Literal(a)] + [Literal(b), Literal(c)];
    assert [Literal(b), Literal(c)] == [Literal(b)] + [Literal(c)];
    assert [Literal(c)] == [Literal(c)] + [];
    assert |w| == n + 1 && w[e] == Vertex(lbl, d);
    BuildLiteralArm(w, a, [Literal(b), Literal(c)], entry, finish, lbl, d, VertexId(n + 1));
    assert |ea| == n + 2 && ea[e] == Vertex(lbl, da);
    BuildLiteralArm(ea, b, [Literal(c)], entry, finish, lbl, da, VertexId(n + 2));
    assert |eb| == n + 3 && eb[e] == Vertex(lbl, db);
    BuildLiteralArm(eb, c, [], entry, finish, lbl, db, VertexId(n + 3));
    assert BuildAlternatives(w, [Literal(a), Literal(b), Literal(c)], entry, finish) == ec;
    assert Build(vs, Alternatives([Literal(a), Literal(b), Literal(c)]), entry)
        == (BuildAlternatives(w, [Literal(a), Literal(b), Literal(c)], entry, finish), finish);
    UpdatedThrice(vs, e, Vertex(NonTerminal, map[]), Vertex(lbl, da), Vertex(lbl, db), Vertex(lbl, dc), arm);
  }

  /**
   * The graph of `alternatives2`: 'a', 'b', 'c' lead from the start to
   * vertices 2 to 4, which have epsilon edges to vertex 1; 'x', 'y', 'z'
   * lead from there to vertices 6 to 8, which have epsilon edges to the
   * terminal, vertex 5.
   */
  function Alt2Vertices(): Vertices<int, char>
  {
    [ Vertex(NonTerminal, map[VertexId(2) := [Char('a')], VertexId(3) := [Char('b')], VertexId(4) := [Char('c')]]),
      Vertex(NonTerminal, map[VertexId(6) := [Char('x')], VertexId(7) := [Char('y')], VertexId(8) := [Char('z')]]),
      Vertex(NonTerminal, map[VertexId(1) := [EdgeLabel.Epsilon]]),
      Vertex(NonTerminal, map[VertexId(1) := [EdgeLabel.Epsilon]]),
      Vertex(NonTerminal, map[VertexId(1) := [EdgeLabel.Epsilon]]),
      Vertex(Terminal(1, 0), map[]),
      Vertex(NonTerminal, map[VertexId(5) := [EdgeLabel.Epsilon]]),
      Vertex(NonTerminal, map[VertexId(5) := [EdgeLabel.Epsilon]]),
      Vertex(NonTerminal, map[VertexId(5) := [EdgeLabel.Epsilon]]) ]
  }

  /** The graph after the first alternative of `alternatives2`, whose exit is vertex 1. */
  function Alt2FirstVertices(): Vertices<int, char>
  {
    [ Vertex(NonTerminal, map[VertexId(2) := [Char('a')], VertexId(3) := [Char('b')], VertexId(4) := [Char('c')]]),
      Vertex(NonTerminal, map[]),
      Vertex(NonTerminal, map[VertexId(1) := [EdgeLabel.Epsilon]]),
      Vertex(NonTerminal, map[VertexId(1) := [EdgeLabel.Epsilon]]),
      Vertex(NonTerminal, map[VertexId(1) := [EdgeLabel.Epsilon]]) ]
  }

  lemma Alt2FirstBuilt()
    ensures Build([Vertex(NonTerminal, map[])], Alternatives([Literal('a'), Literal('b'), Literal('c')]), VertexId(0))
         == (Alt2FirstVertices(), VertexId(1))
  {
    var v0: Vertices<int, char> := [Vertex(NonTerminal, map[])];
    BuildThreeLiterals(v0, 'a', 'b', 'c', VertexId(0));
    var d: map<VertexId, seq<EdgeLabel<char>>> := map[];
    assert d[VertexId(2) := [Char('a')]][VertexId(3) := [Char('b')]][VertexId(4) := [Char('c')]]
        == Alt2FirstVertices()[0].departing;
    var x := Vertex(NonTerminal, d[VertexId(2) := [Char('a')]][VertexId(3) := [Char('b')]][VertexId(4) := [Char('c')]]);
    var arm := Vertex(NonTerminal, map[VertexId(1) := [EdgeLabel.Epsilon]]);
    assert v0[0 := x] == [x];
    assert [x] + [Vertex(NonTerminal, map[]), arm, arm, arm] == Alt2FirstVertices();
  }

  lemma Alt2SecondBuilt()
    ensures var b := Build(Alt2FirstVertices(), Alternatives([Literal('x'), Literal('y'), Literal('z')]), VertexId(1));
      b.1 == VertexId(5) && b.0[5 := Vertex(Terminal(1, 0), b.0[5].departing)] == Alt2Vertices()
  {
    BuildThreeLiterals(Alt2FirstVertices(), 'x', 'y', 'z', VertexId(1));
  }

  lemma Alt2Built()
    ensures Labelled([Vertex(NonTerminal, map[])], Alt2(), 1, 0) == Alt2Vertices()
  {
    var v0: Vertices<int, char> := [Vertex(NonTerminal, map[])];
    var first := Alternatives([Literal('a'), Literal('b'), Literal('c')]);
    var second := Alternatives([Literal('x'), Literal('y'), Literal('z')]);
    Alt2FirstBuilt();
    Alt2SecondBuilt();
    var b1 := Build(v0, first, VertexId(0));
    var b2 := Build(b1.0, second, VertexId(1));
    var children := [first, second];
    assert children[1..] == [second] && children[1..][1..] == [];
    assert BuildSequence(b2.0, children[1..][1..], b2.1) == b2;
    assert BuildSequence(b1.0, children[1..], b1.1) == b2;
    assert Build(v0, Alt2(), VertexId(0)) == b2;
  }

  /** The vertex a symbol of `alternatives2` leads to: 2 to 4 for 'a' to 'c', 6 to 8 for 'x' to 'z'. */
  function Alt2Arm(c: char): (i: nat)
    requires c in "abc" || c in "xyz"
    ensures (c in "abc" ==> 2 <= i <= 4) && (c in "xyz" ==> 6 <= i <= 8)
  {
    if c == 'a' then 2 else if c == 'b' then 3 else if c == 'c' then 4
    else if c == 'x' then 6 else if c == 'y' then 7 else 8
  }

  lemma Alt2Closed()
    ensures ClosedGraph(Alt2Vertices())
  {
    var vs := Alt2Vertices();
    forall i, id | 0 <= i < |vs| && id in vs[i].departing
      ensures id.index < |vs|
    {
    }
  }

  /** Only the arms of `alternatives2` have epsilon edges, each to the exit of its alternative. */
  lemma Alt2Epsilon(i: nat)
    requires i < 9
    ensures EpsilonTargets(Alt2Vertices(), VertexId(i))
         == if 2 <= i <= 4 then {VertexId(1)} else if 6 <= i <= 8 then {VertexId(5)} else {}
  {
    var vs := Alt2Vertices();
    if 2 <= i <= 4 {
      assert IsEpsilon(vs[i].departing[VertexId(1)][0]);
    } else if 6 <= i <= 8 {
      assert IsEpsilon(vs[i].departing[VertexId(5)][0]);
    } else {
      forall n | n in EpsilonTargets(vs, VertexId(i))
        ensures false
      {
        var k :| 0 <= k < |vs[i].departing[n]| && IsEpsilon(vs[i].departing[n][k]);
      }
    }
  }

  /** The closure of an arm `k` whose only epsilon edge leads to `exit`, which has none. */
  lemma {:induction false} ArmClosure<V, E>(vs: Vertices<V, E>, k: VertexId, exit: VertexId)
    requires ClosedGraph(vs) && k.index < |vs| && exit.index < |vs|
    requires EpsilonTargets(vs, k) == {exit} && EpsilonTargets(vs, exit) == {}
    ensures Closure(vs, {k}) == {k, exit}
  {
    assert exit in EpsilonStep(vs, {k});
    ClosureUnique(vs, {k}, {k, exit});
  }

  /** From the start of `alternatives2`, one of 'a', 'b', 'c' leads to its arm alone. */
  lemma Alt2FirstStep(first: char)
    requires first in "abc"
    ensures SymbolStep(Alt2Vertices(), {VertexId(0)}, IsSymbol(first)) == {VertexId(Alt2Arm(first))}
  {
    var vs := Alt2Vertices();
    var p := IsSymbol(first);
    var k := Alt2Arm(first);
    assert OfInterest(p)(vs[0].departing[VertexId(k)][0]);
    assert SymbolTargets(vs, VertexId(0), p) == {VertexId(k)};
  }

  /** From an arm of the first alternative and its exit, one of 'x', 'y', 'z' leads to its arm alone. */
  lemma Alt2SecondStep(k: nat, second: char)
    requires 2 <= k <= 4 && second in "xyz"
    ensures SymbolStep(Alt2Vertices(), {VertexId(k), VertexId(1)}, IsSymbol(second)) == {VertexId(Alt2Arm(second))}
  {
    var vs := Alt2Vertices();
    var p := IsSymbol(second);
    var j := Alt2Arm(second);
    assert OfInterest(p)(vs[1].departing[VertexId(j)][0]);
    assert SymbolTargets(vs, VertexId(1), p) == {VertexId(j)};
    assert SymbolTargets(vs, VertexId(k), p) == {};
  }

  /** An arm of the first alternative of `alternatives2` and its exit are non-terminal. */
  lemma Alt2FirstNonTerminal(k: nat)
    requires 2 <= k <= 4
    ensures AllNonTerminal(Alt2Vertices(), {VertexId(k), VertexId(1)})
  {
    Alt2Label(1);
    Alt2Label(k);
  }

  /** An arm of the second alternative of `alternatives2` and the terminal: the terminal is least. */
  lemma Alt2Terminal(j: nat)
    requires 6 <= j <= 8
    ensures StrictlyLeast(Alt2Vertices(), {VertexId(j), VertexId(5)}, VertexId(5))
  {
    Alt2Label(j);
  }

  /** Vertex 5 is the only terminal vertex of `alternatives2`. */
  lemma Alt2Label(i: nat)
    requires i < 9
    ensures Alt2Vertices()[i].vertexLabel == if i == 5 then Terminal(1, 0) else NonTerminal
  {
  }

  /** The graph of `alternatives2` is closed, and its start is a non-terminal vertex without epsilon edges. */
  lemma Alt2StartMoves(vs: Vertices<int, char>)
    requires vs == Alt2Vertices()
    ensures ClosedGraph(vs) && |vs| == 9 && vs[5].vertexLabel == Terminal(1, 0)
    ensures EpsilonFree(vs, {VertexId(0)}) && AllNonTerminal(vs, {VertexId(0)})
  {
    Alt2Closed();
    Alt2Epsilon(0);
  }

  /** What walking `first` from the start of `alternatives2` meets. */
  lemma Alt2FirstMoves(vs: Vertices<int, char>, first: char)
    requires vs == Alt2Vertices() && ClosedGraph(vs) && first in "abc"
    ensures SymbolStep(vs, {VertexId(0)}, IsSymbol(first)) == {VertexId(Alt2Arm(first))}
    ensures Closure(vs, {VertexId(Alt2Arm(first))}) == {VertexId(Alt2Arm(first)), VertexId(1)}
    ensures AllNonTerminal(vs, {VertexId(Alt2Arm(first)), VertexId(1)})
  {
    var k := Alt2Arm(first);
    Alt2Epsilon(1);
    Alt2Epsilon(k);
    ArmClosure(vs, VertexId(k), VertexId(1));
    Alt2FirstStep(first);
    Alt2FirstNonTerminal(k);
  }

  /** What walking `second` from arm `k` of the first alternative of `alternatives2` meets. */
  lemma Alt2SecondMoves(vs: Vertices<int, char>, k: nat, second: char)
    requires vs == Alt2Vertices() && ClosedGraph(vs) && 2 <= k <= 4 && second in "xyz"
    ensures SymbolStep(vs, {VertexId(k), VertexId(1)}, IsSymbol(second)) == {VertexId(Alt2Arm(second))}
    ensures Closure(vs, {VertexId(Alt2Arm(second))}) == {VertexId(Alt2Arm(second)), VertexId(5)}
    ensures StrictlyLeast(vs, {VertexId(Alt2Arm(second)), VertexId(5)}, VertexId(5))
  {
    var j := Alt2Arm(second);
    Alt2Epsilon(5);
    Alt2Epsilon(j);
    ArmClosure(vs, VertexId(j), VertexId(5));
    Alt2SecondStep(k, second);
    Alt2Terminal(j);
  }

  /**
   * `alternatives2`: with `[abc][xyz]` added as 1, the walker finds nothing
   * at the start, nothing after one of 'a', 'b', 'c', and 1 after one of
   * 'x', 'y', 'z' follows.
   */
  method Alternatives2Test(first: char, second: char) returns (found: seq<Option<int>>)
    requires first in "abc" && second in "xyz"
    ensures found == [None, None, Some(1)]
  {
    var nfa, start := BuildOnce(Alt2(), 1);
    Alt2Built();
    Alt2StartMoves(nfa.vertices);
    Alt2FirstMoves(nfa.vertices, first);
    Alt2SecondMoves(nfa.vertices, Alt2Arm(first), second);
    found := Alternatives2Walk(nfa, start, first, second);
  }

  method Alternatives2Walk(nfa: Graph<VertexLabel<int>, EdgeLabel<char>>, start: VertexId, first: char, second: char)
    returns (found: seq<Option<int>>)
    requires first in "abc" && second in "xyz"
    requires ClosedGraph(nfa.vertices) && |nfa.vertices| == 9 && start == VertexId(0)
    requires nfa.vertices[5].vertexLabel == Terminal(1, 0)
    requires EpsilonFree(nfa.vertices, {VertexId(0)}) && AllNonTerminal(nfa.vertices, {VertexId(0)})
    requires SymbolStep(nfa.vertices, {VertexId(0)}, IsSymbol(first)) == {VertexId(Alt2Arm(first))}
    requires Closure(nfa.vertices, {VertexId(Alt2Arm(first))}) == {VertexId(Alt2Arm(first)), VertexId(1)}
    requires AllNonTerminal(nfa.vertices, {VertexId(Alt2Arm(first)), VertexId(1)})
    requires SymbolStep(nfa.vertices, {VertexId(Alt2Arm(first)), VertexId(1)}, IsSymbol(second))
          == {VertexId(Alt2Arm(second))}
    requires Closure(nfa.vertices, {VertexId(Alt2Arm(second))}) == {VertexId(Alt2Arm(second)), VertexId(5)}
    requires StrictlyLeast(nfa.vertices, {VertexId(Alt2Arm(second)), VertexId(5)}, VertexId(5))
    ensures found == [None, None, Some(1)]
  {
    ghost var vs := nfa.vertices;
    var walker := StartAt(nfa, start);
    var r0 := NoTerminal(walker);
    var r1 := Alt2StepFirst(walker, vs, first);
    var r2 := Alt2StepSecond(walker, vs, Alt2Arm(first), second);
    found := [r0, r1, r2];
  }

  /** Walking the first symbol of `alternatives2` reaches its arm and the exit of the first alternative. */
  method Alt2StepFirst(walker: NFAWalker<int, char>, ghost vs: Vertices<int, char>, first: char) returns (r: Option<int>)
    requires first in "abc"
    requires walker.Valid() && walker.walker.graph.vertices == vs && walker.walker.active == {VertexId(0)}
    requires |vs| == 9 && SymbolStep(vs, {VertexId(0)}, IsSymbol(first)) == {VertexId(Alt2Arm(first))}
    requires Closure(vs, {VertexId(Alt2Arm(first))}) == {VertexId(Alt2Arm(first)), VertexId(1)}
    requires AllNonTerminal(vs, {VertexId(Alt2Arm(first)), VertexId(1)})
    modifies walker.walker
    ensures walker.Valid() && walker.walker.graph.vertices == vs
    ensures walker.walker.active == {VertexId(Alt2Arm(first)), VertexId(1)} && r == None
  {
    var k := VertexId(Alt2Arm(first));
    WalkClosed(walker, first, {VertexId(0)}, {k}, {k, VertexId(1)});
    r := NoTerminal(walker);
  }

  /** Walking the second symbol of `alternatives2` reaches its arm and the terminal, and finds 1. */
  method Alt2StepSecond(walker: NFAWalker<int, char>, ghost vs: Vertices<int, char>, k: nat, second: char)
    returns (r: Option<int>)
    requires second in "xyz" && 2 <= k <= 4
    requires walker.Valid() && walker.walker.graph.vertices == vs && walker.walker.active == {VertexId(k), VertexId(1)}
    requires |vs| == 9 && vs[5].vertexLabel == Terminal(1, 0)
    requires SymbolStep(vs, {VertexId(k), VertexId(1)}, IsSymbol(second)) == {VertexId(Alt2Arm(second))}
    requires Closure(vs, {VertexId(Alt2Arm(second))}) == {VertexId(Alt2Arm(second)), VertexId(5)}
    requires StrictlyLeast(vs, {VertexId(Alt2Arm(second)), VertexId(5)}, VertexId(5))
    modifies walker.walker
    ensures r == Some(1)
  {
    var j := VertexId(Alt2Arm(second));
    WalkClosed(walker, second, {VertexId(k), VertexId(1)}, {j}, {j, VertexId(5)});
    r := ActiveTerminal(walker, VertexId(5));
  }

  // ---------------------------------------------------------------------
  // The Kleene construction next to a sibling alternative

  /** `a* | b`. */
  function StarOrB(): RegularExpression<char>
  {
    Alternatives([Kleene(Literal('a')), Literal('b')])
  }

  /** Every letter of a word `c*` matches is `c`. */
  lemma {:induction false} StarOfLiteral<E>(c: E, w: seq<E>)
    requires Matches(Kleene(Literal(c)), w)
    ensures forall i :: 0 <= i < |w| ==> w[i] == c
    decreases |w|
  {
    if w != [] {
      var k :| 0 < k <= |w| && Matches(Literal(c), w[..k]) && Matches(Kleene(Literal(c)), w[k..]);
      assert w[..k] == [c];
      StarOfLiteral(c, w[k..]);
      forall i | 0 <= i < |w|
        ensures w[i] == c
      {
        if i < k {
          assert w[i] == w[..k][i];
        } else {
          assert w[i] == w[k..][i - k];
        }
      }
    }
  }

  /** `a* | b` does not match "ab": the star gives only a's, the literal only "b". */
  lemma StarOrBRejectsAb()
    ensures !Matches(StarOrB(), "ab")
  {
    var w := "ab";
    var star := Kleene(Literal('a'));
    assert w[1] != 'a';
    if Matches(star, w) {
      StarOfLiteral('a', w);
      assert false;
    }
    assert w != ['b'] by { assert w[0] == 'a'; }
    var children := [star, Literal('b')];
    assert !Matches(children[0], w) && !Matches(children[1], w);
  }

  /**
   * The graph `add` builds for `a* | b`: the star's loop back leads from
   * vertex 3 to the start, vertex 0, which is also where the 'b' arm leaves.
   */
  function StarOrBVertices(): Vertices<int, char>
  {
    [ Vertex(NonTerminal, map[VertexId(3) := [Char('a')], VertexId(2) := [EdgeLabel.Epsilon], VertexId(4) := [Char('b')]]),
      Vertex(Terminal(1, 0), map[]),
      Vertex(NonTerminal, map[VertexId(1) := [EdgeLabel.Epsilon]]),
      Vertex(NonTerminal, map[VertexId(2) := [EdgeLabel.Epsilon], VertexId(0) := [EdgeLabel.Epsilon]]),
      Vertex(NonTerminal, map[VertexId(1) := [EdgeLabel.Epsilon]]) ]
  }

  /** The star `a*` built at the start, whose exit is vertex 2: it re-enters the start from vertex 3. */
  lemma StarOrBKleeneBuilt()
    ensures var w: Vertices<int, char> := [Vertex(NonTerminal, map[]), Vertex(NonTerminal, map[])];
      Build(w, Kleene(Literal('a')), VertexId(0))
      == ([ Vertex(NonTerminal, map[VertexId(3) := [Char('a')], VertexId(2) := [EdgeLabel.Epsilon]]),
            Vertex(NonTerminal, map[]),
            Vertex(NonTerminal, map[]),
            Vertex(NonTerminal, map[VertexId(2) := [EdgeLabel.Epsilon], VertexId(0) := [EdgeLabel.Epsilon]]) ],
          VertexId(2))
  {
    var w: Vertices<int, char> := [Vertex(NonTerminal, map[]), Vertex(NonTerminal, map[])];
    var w3 := AddVertex(w);
    BuildLiteral(w3, 'a', VertexId(0));
    var inner := Build(w3, Literal('a'), VertexId(0));
    assert inner.1 == VertexId(3);
    assert inner.0 == [ Vertex(NonTerminal, map[VertexId(3) := [Char('a')]]),
                        Vertex(NonTerminal, map[]), Vertex(NonTerminal, map[]), Vertex(NonTerminal, map[]) ];
    AddFreshEdge(inner.0, VertexId(0), VertexId(2), EdgeLabel.Epsilon);
    var e1 := AddEdge(inner.0, VertexId(0), VertexId(2), EdgeLabel.Epsilon);
    AddFreshEdge(e1, VertexId(3), VertexId(2), EdgeLabel.Epsilon);
    var e2 := AddEdge(e1, VertexId(3), VertexId(2), EdgeLabel.Epsilon);
    AddFreshEdge(e2, VertexId(3), VertexId(0), EdgeLabel.Epsilon);
    var e3 := AddEdge(e2, VertexId(3), VertexId(0), EdgeLabel.Epsilon);
    assert e1[0] == Vertex(NonTerminal, map[VertexId(3) := [Char('a')], VertexId(2) := [EdgeLabel.Epsilon]]);
    assert e2[3] == Vertex(NonTerminal, map[VertexId(2) := [EdgeLabel.Epsilon]]);
    assert e3 == [ e1[0], inner.0[1], inner.0[2],
                   Vertex(NonTerminal, map[VertexId(2) := [EdgeLabel.Epsilon], VertexId(0) := [EdgeLabel.Epsilon]]) ];
    assert Build(w, Kleene(Literal('a')), VertexId(0)) == (e3, VertexId(2));
  }

  /** The graph of `a* | b` once its star arm is built and joined to the exit, vertex 1. */
  function StarOrBAfterStar(): Vertices<int, char>
  {
    [ Vertex(NonTerminal, map[VertexId(3) := [Char('a')], VertexId(2) := [EdgeLabel.Epsilon]]),
      Vertex(NonTerminal, map[]),
      Vertex(NonTerminal, map[VertexId(1) := [EdgeLabel.Epsilon]]),
      Vertex(NonTerminal, map[VertexId(2) := [EdgeLabel.Epsilon], VertexId(0) := [EdgeLabel.Epsilon]]) ]
  }

  /** The star arm of `a* | b`. */
  lemma StarOrBStarArm()
    ensures var w: Vertices<int, char> := [Vertex(NonTerminal, map[]), Vertex(NonTerminal, map[])];
      BuildAlternatives(w, [Kleene(Literal('a')), Literal('b')], VertexId(0), VertexId(1))
      == BuildAlternatives(StarOrBAfterStar(), [Literal('b')], VertexId(0), VertexId(1))
  {
    var w: Vertices<int, char> := [Vertex(NonTerminal, map[]), Vertex(NonTerminal, map[])];
    var star := Kleene(Literal('a'));
    StarOrBKleeneBuilt();
    var k := Build(w, star, VertexId(0));
    AddFreshEdge(k.0, VertexId(2), VertexId(1), EdgeLabel.Epsilon);
    var children := [star, Literal('b')];
    assert children[0] == star && children[1..] == [Literal('b')];
  }

  /** The 'b' arm of `a* | b`, which leaves from the start, vertex 0. */
  lemma StarOrBOtherArm()
    ensures BuildAlternatives(StarOrBAfterStar(), [Literal('b')], VertexId(0), VertexId(1))
         == StarOrBVertices()[1 := Vertex(NonTerminal, map[])]
  {
    var e := StarOrBAfterStar();
    var d := map[VertexId(3) := [Char('a')], VertexId(2) := [EdgeLabel.Epsilon]];
    assert [Literal('b')] == [Literal('b')] + [];
    BuildLiteralArm(e, 'b', [], VertexId(0), VertexId(1), NonTerminal, d, VertexId(4));
    var f := e[0 := Vertex(NonTerminal, d[VertexId(4) := [Char('b')]])]
               + [Vertex(NonTerminal, map[VertexId(1) := [EdgeLabel.Epsilon]])];
    assert BuildAlternatives(f, [], VertexId(0), VertexId(1)) == f;
    assert f == StarOrBVertices()[1 := Vertex(NonTerminal, map[])];
  }

  /** What `add` builds for `a* | b` from the start alone, before the exit is labelled. */
  lemma StarOrBBuild()
    ensures Build([Vertex(NonTerminal, map[])], StarOrB(), VertexId(0))
         == (StarOrBVertices()[1 := Vertex(NonTerminal, map[])], VertexId(1))
  {
    var v0: Vertices<int, char> := [Vertex(NonTerminal, map[])];
    assert AddVertex(v0) == [Vertex(NonTerminal, map[]), Vertex(NonTerminal, map[])];
    StarOrBStarArm();
    StarOrBOtherArm();
  }

  lemma StarOrBBuilt()
    ensures Labelled([Vertex(NonTerminal, map[])], StarOrB(), 1, 0) == StarOrBVertices()
  {
    StarOrBBuild();
  }

  /** The epsilon edges of `a* | b`, and its closure under the departing edges. */
  lemma StarOrBTargets()
    ensures var vs := StarOrBVertices();
      ClosedGraph(vs)
      && EpsilonTargets(vs, VertexId(0)) == {VertexId(2)} && EpsilonTargets(vs, VertexId(1)) == {}
      && EpsilonTargets(vs, VertexId(2)) == {VertexId(1)} && EpsilonTargets(vs, VertexId(3)) == {VertexId(0), VertexId(2)}
      && EpsilonTargets(vs, VertexId(4)) == {VertexId(1)}
  {
    var vs := StarOrBVertices();
    forall i, id | 0 <= i < |vs| && id in vs[i].departing
      ensures id.index < |vs|
    {
    }
    assert IsEpsilon(vs[0].departing[VertexId(2)][0]);
    assert VertexId(3) !in EpsilonTargets(vs, VertexId(0)) && VertexId(4) !in EpsilonTargets(vs, VertexId(0));
    assert IsEpsilon(vs[2].departing[VertexId(1)][0]) && IsEpsilon(vs[4].departing[VertexId(1)][0]);
    assert IsEpsilon(vs[3].departing[VertexId(0)][0]) && IsEpsilon(vs[3].departing[VertexId(2)][0]);
  }

  /** From the start's closure in `a* | b`, 'a' leads to the star's arm alone. */
  lemma StarOrBSymbolA()
    ensures SymbolStep(StarOrBVertices(), {VertexId(0), VertexId(1), VertexId(2)}, IsSymbol('a')) == {VertexId(3)}
  {
    var vs := StarOrBVertices();
    var pa := IsSymbol('a');
    assert OfInterest(pa)(vs[0].departing[VertexId(3)][0]);
    assert VertexId(3) in SymbolTargets(vs, VertexId(0), pa);
    assert VertexId(2) !in SymbolTargets(vs, VertexId(0), pa) && VertexId(4) !in SymbolTargets(vs, VertexId(0), pa);
    assert SymbolTargets(vs, VertexId(2), pa) == {};
  }

  /** After "a" in `a* | b`, 'b' leads from the re-activated start to the other alternative's arm alone. */
  lemma StarOrBSymbolB()
    ensures SymbolStep(StarOrBVertices(), {VertexId(0), VertexId(1), VertexId(2), VertexId(3)}, IsSymbol('b'))
         == {VertexId(4)}
  {
    var vs := StarOrBVertices();
    var pb := IsSymbol('b');
    assert OfInterest(pb)(vs[0].departing[VertexId(4)][0]);
    assert VertexId(4) in SymbolTargets(vs, VertexId(0), pb);
    assert VertexId(2) !in SymbolTargets(vs, VertexId(0), pb) && VertexId(3) !in SymbolTargets(vs, VertexId(0), pb);
    assert SymbolTargets(vs, VertexId(2), pb) == {} && SymbolTargets(vs, VertexId(3), pb) == {};
  }

  /** The closure of the start of `a* | b`: the star's exit and the terminal. */
  lemma StarOrBStartClosure(vs: Vertices<int, char>)
    requires ClosedGraph(vs) && |vs| == 5
    requires EpsilonTargets(vs, VertexId(0)) == {VertexId(2)} && EpsilonTargets(vs, VertexId(1)) == {}
    requires EpsilonTargets(vs, VertexId(2)) == {VertexId(1)}
    ensures Closure(vs, {VertexId(0)}) == {VertexId(0), VertexId(1), VertexId(2)}
  {
    assert VertexId(2) in Closure(vs, {VertexId(0)});
    assert VertexId(1) in Closure(vs, {VertexId(0)});
    ClosureUnique(vs, {VertexId(0)}, {VertexId(0), VertexId(1), VertexId(2)});
  }

  /** The closure of the star's arm in `a* | b`: its loop back brings in the start and all it reaches. */
  lemma StarOrBLoopClosure(vs: Vertices<int, char>)
    requires ClosedGraph(vs) && |vs| == 5
    requires EpsilonTargets(vs, VertexId(0)) == {VertexId(2)} && EpsilonTargets(vs, VertexId(1)) == {}
    requires EpsilonTargets(vs, VertexId(2)) == {VertexId(1)} && EpsilonTargets(vs, VertexId(3)) == {VertexId(0), VertexId(2)}
    ensures Closure(vs, {VertexId(3)}) == {VertexId(0), VertexId(1), VertexId(2), VertexId(3)}
  {
    var c := Closure(vs, {VertexId(3)});
    assert EpsilonTargets(vs, VertexId(3)) <= c;
    assert EpsilonTargets(vs, VertexId(2)) <= c;
    var all := {VertexId(0), VertexId(1), VertexId(2), VertexId(3)};
    assert all <= c;
    ClosureUnique(vs, {VertexId(3)}, all);
  }

  /** The closures of `a* | b` the walk of "ab" meets, from the epsilon targets alone. */
  lemma StarOrBClosures(vs: Vertices<int, char>)
    requires ClosedGraph(vs) && |vs| == 5
    requires EpsilonTargets(vs, VertexId(0)) == {VertexId(2)} && EpsilonTargets(vs, VertexId(1)) == {}
    requires EpsilonTargets(vs, VertexId(2)) == {VertexId(1)} && EpsilonTargets(vs, VertexId(3)) == {VertexId(0), VertexId(2)}
    requires EpsilonTargets(vs, VertexId(4)) == {VertexId(1)}
    ensures Closure(vs, {VertexId(0)}) == {VertexId(0), VertexId(1), VertexId(2)}
    ensures Closure(vs, {VertexId(3)}) == {VertexId(0), VertexId(1), VertexId(2), VertexId(3)}
    ensures Closure(vs, {VertexId(4)}) == {VertexId(1), VertexId(4)}
  {
    StarOrBStartClosure(vs);
    StarOrBLoopClosure(vs);
    ArmClosure(vs, VertexId(4), VertexId(1));
  }

  /** Vertex 1 is the only terminal of `a* | b`, least in every set the walk meets. */
  lemma StarOrBLabels(vs: Vertices<int, char>)
    requires |vs| == 5 && vs[1].vertexLabel == Terminal(1, 0)
    requires vs[0].vertexLabel == NonTerminal && vs[2].vertexLabel == NonTerminal
    requires vs[3].vertexLabel == NonTerminal && vs[4].vertexLabel == NonTerminal
    ensures StrictlyLeast(vs, {VertexId(0), VertexId(1), VertexId(2)}, VertexId(1))
    ensures StrictlyLeast(vs, {VertexId(0), VertexId(1), VertexId(2), VertexId(3)}, VertexId(1))
    ensures StrictlyLeast(vs, {VertexId(1), VertexId(4)}, VertexId(1))
  {
  }

  /** What the walk of "ab" meets in the graph of `a* | b`. */
  lemma StarOrBMoves(vs: Vertices<int, char>)
    requires vs == StarOrBVertices()
    ensures ClosedGraph(vs) && |vs| == 5 && vs[1].vertexLabel == Terminal(1, 0)
    ensures Closure(vs, {VertexId(0)}) == {VertexId(0), VertexId(1), VertexId(2)}
    ensures Closure(vs, {VertexId(3)}) == {VertexId(0), VertexId(1), VertexId(2), VertexId(3)}
    ensures Closure(vs, {VertexId(4)}) == {VertexId(1), VertexId(4)}
    ensures SymbolStep(vs, {VertexId(0), VertexId(1), VertexId(2)}, IsSymbol('a')) == {VertexId(3)}
    ensures SymbolStep(vs, {VertexId(0), VertexId(1), VertexId(2), VertexId(3)}, IsSymbol('b')) == {VertexId(4)}
    ensures StrictlyLeast(vs, {VertexId(0), VertexId(1), VertexId(2)}, VertexId(1))
    ensures StrictlyLeast(vs, {VertexId(0), VertexId(1), VertexId(2), VertexId(3)}, VertexId(1))
    ensures StrictlyLeast(vs, {VertexId(1), VertexId(4)}, VertexId(1))
  {
    StarOrBTargets();
    StarOrBSymbolA();
    StarOrBSymbolB();
    StarOrBClosures(vs);
    StarOrBLabels(vs);
  }

  /**
   * With `a* | b` added as 1, the walker finds 1 at the start, after "a"
   * and after "ab", although `a* | b` does not match "ab": after 'a' the
   * star's loop back re-activates the start, whose 'b' edge belongs to the
   * other alternative.
   */
  method StarOrBTest() returns (found: seq<Option<int>>)
    ensures found == [Some(1), Some(1), Some(1)] && !Matches(StarOrB(), "ab")
  {
    var nfa, start := BuildOnce(StarOrB(), 1);
    StarOrBBuilt();
    StarOrBMoves(nfa.vertices);
    StarOrBRejectsAb();
    found := StarOrBWalk(nfa, start);
  }

  method StarOrBWalk(nfa: Graph<VertexLabel<int>, EdgeLabel<char>>, start: VertexId) returns (found: seq<Option<int>>)
    requires ClosedGraph(nfa.vertices) && |nfa.vertices| == 5 && start == VertexId(0)
    requires nfa.vertices[1].vertexLabel == Terminal(1, 0)
    requires Closure(nfa.vertices, {VertexId(0)}) == {VertexId(0), VertexId(1), VertexId(2)}
    requires Closure(nfa.vertices, {VertexId(3)}) == {VertexId(0), VertexId(1), VertexId(2), VertexId(3)}
    requires Closure(nfa.vertices, {VertexId(4)}) == {VertexId(1), VertexId(4)}
    requires SymbolStep(nfa.vertices, {VertexId(0), VertexId(1), VertexId(2)}, IsSymbol('a')) == {VertexId(3)}
    requires SymbolStep(nfa.vertices, {VertexId(0), VertexId(1), VertexId(2), VertexId(3)}, IsSymbol('b'))
          == {VertexId(4)}
    requires StrictlyLeast(nfa.vertices, {VertexId(0), VertexId(1), VertexId(2)}, VertexId(1))
    requires StrictlyLeast(nfa.vertices, {VertexId(0), VertexId(1), VertexId(2), VertexId(3)}, VertexId(1))
    requires StrictlyLeast(nfa.vertices, {VertexId(1), VertexId(4)}, VertexId(1))
    ensures found == [Some(1), Some(1), Some(1)]
  {
    ghost var vs := nfa.vertices;
    var walker := new NFAWalker(nfa, start);
    var r0 := ActiveTerminal(walker, VertexId(1));
    var r1 := StarOrBStepA(walker, vs, {VertexId(0), VertexId(1), VertexId(2)},
                           {VertexId(0), VertexId(1), VertexId(2), VertexId(3)});
    var r2 := StarOrBStepB(walker, vs, {VertexId(0), VertexId(1), VertexId(2), VertexId(3)});
    found := [r0, r1, r2];
  }

  /**
   * Walking 'a' in `a* | b` from the start's closure `from` reaches vertex 3,
   * whose loop back re-activates the start and the terminal, giving `c`.
   */
  method StarOrBStepA(walker: NFAWalker<int, char>, ghost vs: Vertices<int, char>, ghost from: set<VertexId>,
                      ghost c: set<VertexId>) returns (r: Option<int>)
    requires walker.Valid() && walker.walker.graph.vertices == vs && walker.walker.active == from
    requires |vs| == 5 && vs[1].vertexLabel == Terminal(1, 0)
    requires SymbolStep(vs, from, IsSymbol('a')) == {VertexId(3)} && Closure(vs, {VertexId(3)}) == c
    requires VertexId(1) in c && StrictlyLeast(vs, c, VertexId(1))
    modifies walker.walker
    ensures walker.Valid() && walker.walker.graph.vertices == vs
    ensures walker.walker.active == c && r == Some(1)
  {
    WalkClosed(walker, 'a', from, {VertexId(3)}, c);
    r := ActiveTerminal(walker, VertexId(1));
  }

  /** Walking 'b' in `a* | b` from `from`, the closure after "a", takes the start's 'b' edge to the terminal. */
  method StarOrBStepB(walker: NFAWalker<int, char>, ghost vs: Vertices<int, char>, ghost from: set<VertexId>)
    returns (r: Option<int>)
    requires walker.Valid() && walker.walker.graph.vertices == vs && walker.walker.active == from
    requires |vs| == 5 && vs[1].vertexLabel == Terminal(1, 0)
    requires SymbolStep(vs, from, IsSymbol('b')) == {VertexId(4)}
    requires Closure(vs, {VertexId(4)}) == {VertexId(1), VertexId(4)}
    requires StrictlyLeast(vs, {VertexId(1), VertexId(4)}, VertexId(1))
    modifies walker.walker
    ensures r == Some(1)
  {
    WalkClosed(walker, 'b', from, {VertexId(4)}, {VertexId(1), VertexId(4)});
    r := ActiveTerminal(walker, VertexId(1));
  }
}
