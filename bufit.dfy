/**
 * A one-slot look-ahead buffer over an iterator (src/data/bufit.rs).  The
 * inner iterator is modelled by the sequence of items it has not produced
 * yet; once it is exhausted it keeps producing nothing.
 */
module Bufit {
  import opened Wrappers

  class BufferedIterator<T> {
    /** The item most recently pulled from the iterator (`last`). */
    var last: Option<T>
    /** What the inner iterator will still produce. */
    var rest: seq<T>

    ghost predicate Valid()
      reads this
    {
      last.None? ==> rest == []
    }

    /** Every item not consumed yet, the buffered one first. */
    function Remaining(): seq<T>
      reads this
    {
      if last.None? then [] else [last.value] + rest
    }

    /** `new`: pull the first item into the buffer. */
    constructor(source: seq<T>)
      ensures Valid()
      ensures Remaining() == source
      ensures last == if source == [] then None else Some(source[0])
    {
      if source == [] {
        last := None;
        rest := [];
      } else {
        last := Some(source[0]);
        rest := source[1..];
      }
    }

    /** `current`: the buffered item, without consuming it. */
    function Current(): (c: Option<T>)
      reads this
      requires Valid()
      ensures c.None? <==> Remaining() == []
      ensures c.Some? ==> c.value == Remaining()[0]
    {
      last
    }

    /** `next`: consume the buffered item and pull the following one. */
    method Next()
      requires Valid()
      modifies this
      ensures Valid()
      ensures Remaining() == if old(Remaining()) == [] then [] else old(Remaining())[1..]
    {
      if rest == [] {
        last := None;
      } else {
        last := Some(rest[0]);
        rest := rest[1..];
      }
    }
  }

  /** The unit test: walking "abcd" shows a, b, c, d and then nothing. */
  method WalkExample() returns (seen: seq<Option<char>>)
    ensures seen == [Some('a'), Some('b'), Some('c'), Some('d'), None]
  {
    var buffered := new BufferedIterator("abcd");
    seen := [buffered.Current()];
    buffered.Next();
    seen := seen + [buffered.Current()];
    buffered.Next();
    seen := seen + [buffered.Current()];
    buffered.Next();
    seen := seen + [buffered.Current()];
    buffered.Next();
    seen := seen + [buffered.Current()];
  }
}
