/**
 * The regular expressions the NFA builder compiles, and the labels of the
 * vertices and edges of the automata it builds (src/scripting/regex/defs.rs).
 */
module RegexDefs {

  datatype RegularExpression<E> =
    | Epsilon
    | Literal(symbol: E)
    | Sequence(children: seq<RegularExpression<E>>)
    | Alternatives(children: seq<RegularExpression<E>>)
    | Kleene(child: RegularExpression<E>)

  /**
   * A vertex of an automaton is either internal or accepting; an accepting
   * vertex carries the label of the rule it accepts and that rule's
   * priority, as src/scripting/regex/nfa.rs builds it.
   */
  datatype VertexLabel<V> = NonTerminal | Terminal(value: V, priority: int)

  /** An edge is taken either without input or on one symbol. */
  datatype EdgeLabel<E> = Epsilon | Char(symbol: E)

  /**
   * The language of a regular expression: the words it matches.  A Kleene
   * star matches the empty word or a non-empty word of its child followed
   * by a word of the star again.
   */
  ghost predicate Matches<E>(r: RegularExpression<E>, w: seq<E>)
    decreases r, |w|
  {
    match r
    case Epsilon => w == []
    case Literal(c) => w == [c]
    case Sequence(children) => MatchesSequence(children, w)
    case Alternatives(children) => exists i :: 0 <= i < |children| && Matches(children[i], w)
    case Kleene(child) =>
      w == [] || exists k :: 0 < k <= |w| && Matches(child, w[..k]) && Matches(Kleene(child), w[k..])
  }

  /** `w` splits into words of the children, in order. */
  ghost predicate MatchesSequence<E>(children: seq<RegularExpression<E>>, w: seq<E>)
    decreases children, |w|
  {
    if children == [] then w == []
    else exists k :: 0 <= k <= |w| && Matches(children[0], w[..k]) && MatchesSequence(children[1..], w[k..])
  }
}
