/**
 * The single-character consumer of src/scripting/regex/literal.rs.  A
 * `Literal` regex hands out consumers that wait for its character; feeding
 * that character is accepted once and leaves the consumer done, anything
 * else is refused and leaves it as it was.
 */
module LiteralConsumers {
  import opened Wrappers

  /** `Literal`: the regex that matches one given character. */
  datatype Literal = Literal(expected: char)

  /** `LiteralConsumer`: `expected` is the character still awaited, `None` once it was seen. */
  class LiteralConsumer {
    var expected: Option<char>

    constructor (expected: Option<char>)
      ensures this.expected == expected
    {
      this.expected := expected;
    }

    /** `done`: the awaited character has been consumed. */
    predicate Done()
      reads this
    {
      expected.None?
    }

    /**
     * `feed`: accepts exactly the awaited character, after which the
     * consumer is done; any other character, and every character once done,
     * is refused without changing the consumer.
     */
    method Feed(ch: char) returns (accepted: bool)
      modifies this
      ensures accepted <==> old(expected) == Some(ch)
      ensures accepted ==> Done()
      ensures !accepted ==> expected == old(expected)
      ensures old(Done()) ==> !accepted && Done()
    {
      match expected {
        case None =>
          accepted := false;
        case Some(e) =>
          if e == ch {
            expected := None;
            accepted := true;
          } else {
            accepted := false;
          }
      }
    }
  }

  /** `create_consumer`: a fresh consumer awaiting the literal's character, so not yet done. */
  method CreateConsumer(literal: Literal) returns (consumer: LiteralConsumer)
    ensures fresh(consumer)
    ensures consumer.expected == Some(literal.expected) && !consumer.Done()
  {
    consumer := new LiteralConsumer(Some(literal.expected));
  }

  /** literal_match: feeding 'a' to a consumer of `Literal('a')` is accepted and makes it done. */
  method LiteralMatch() returns (accepted: bool, done: bool)
    ensures accepted && done
  {
    var consumer := CreateConsumer(Literal('a'));
    accepted := consumer.Feed('a');
    done := consumer.Done();
  }

  /** literal_no_match: feeding 'b' to a consumer of `Literal('a')` is refused and it is not done. */
  method LiteralNoMatch() returns (accepted: bool, done: bool)
    ensures !accepted && !done
  {
    var consumer := CreateConsumer(Literal('a'));
    accepted := consumer.Feed('b');
    done := consumer.Done();
  }

  /** After the match, the consumer refuses even its own character again. */
  method LiteralMatchOnce() returns (first: bool, second: bool)
    ensures first && !second
  {
    var consumer := CreateConsumer(Literal('a'));
    first := consumer.Feed('a');
    second := consumer.Feed('a');
  }
}
