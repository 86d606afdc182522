/**
 * The stack-based parser that turns tokens into values
 * (src/scripting/parsing.rs).  The stack holds one frame per open list; the
 * bottom frame collects the top-level forms.
 */
module Parsing {
  import opened Wrappers
  import opened Values
  import opened Tokens

  datatype ParsingError = StackUnderflow | UnfinishedList

  type Stack = seq<seq<Value>>

  /** `push` on a stack: append to the top frame, or fail when there is none. */
  function PushOnto(stack: Stack, value: Value): (Result<(), ParsingError>, Stack)
  {
    if stack == [] then (Err(StackUnderflow), stack)
    else (Ok(()), stack[|stack| - 1 := stack[|stack| - 1] + [value]])
  }

  /** One `feed` on a stack: the outcome and the stack it leaves. */
  function FeedStack(stack: Stack, token: Token): (Result<(), ParsingError>, Stack)
  {
    match token
    case FloatingPointNumber(x) => PushOnto(stack, Value.FloatingPointNumber(x))
    case Identifier(id) => PushOnto(stack, Symbol(id))
    case Integer(n) => PushOnto(stack, Value.Integer(n))
    case LeftParenthesis => (Ok(()), stack + [[]])
    case RightParenthesis =>
      if stack == [] then (Err(StackUnderflow), stack)
      else PushOnto(stack[..|stack| - 1], List(stack[|stack| - 1]))
  }

  /** `eject` on a stack. */
  function EjectStack(stack: Stack): (r: Result<seq<Value>, ParsingError>)
  {
    if |stack| == 1 then Ok(stack[0]) else Err(UnfinishedList)
  }

  /** Feeding a sequence of tokens, stopping at the first failure. */
  function FeedAll(stack: Stack, tokens: seq<Token>): (Result<(), ParsingError>, Stack)
    decreases |tokens|
  {
    if tokens == [] then (Ok(()), stack)
    else
      var r := FeedStack(stack, tokens[0]);
      if r.0.Err? then r else FeedAll(r.1, tokens[1..])
  }

  class Parser {
    var stack: Stack

    /** `new`: one empty frame. */
    constructor()
      ensures stack == [[]]
    {
      stack := [[]];
    }

    /** `feed`. */
    method Feed(token: Token) returns (r: Result<(), ParsingError>)
      modifies this
      ensures (r, stack) == FeedStack(old(stack), token)
    {
      match token {
        case FloatingPointNumber(x) =>
          r := Push(Value.FloatingPointNumber(x));
        case Identifier(id) =>
          r := Push(Symbol(id));
        case Integer(n) =>
          r := Push(Value.Integer(n));
        case LeftParenthesis =>
          stack := stack + [[]];
          r := Ok(());
        case RightParenthesis =>
          var elts := Pop();
          if elts.Err? {
            return Err(elts.error);
          }
          r := Push(List(elts.value));
      }
    }

    /** `top`: the innermost frame. */
    function Top(): (r: Result<seq<Value>, ParsingError>)
      reads this
      ensures r.Err? <==> stack == []
      ensures r.Err? ==> r.error == StackUnderflow
      ensures r.Ok? ==> r.value == stack[|stack| - 1]
    {
      if stack == [] then Err(StackUnderflow) else Ok(stack[|stack| - 1])
    }

    /** `push`: append a value to the innermost frame. */
    method Push(value: Value) returns (r: Result<(), ParsingError>)
      modifies this
      ensures (r, stack) == PushOnto(old(stack), value)
    {
      var top := Top();
      if top.Err? {
        return Err(top.error);
      }
      stack := stack[|stack| - 1 := top.value + [value]];
      r := Ok(());
    }

    /** `pop`: remove the innermost frame and return it. */
    method Pop() returns (r: Result<seq<Value>, ParsingError>)
      modifies this
      ensures old(stack) == [] ==> r == Err(StackUnderflow) && stack == []
      ensures old(stack) != [] ==> r == Ok(old(stack)[|old(stack)| - 1]) && stack == old(stack)[..|old(stack)| - 1]
    {
      if stack == [] {
        return Err(StackUnderflow);
      }
      r := Ok(stack[|stack| - 1]);
      stack := stack[..|stack| - 1];
    }

    /** `eject`: the collected forms, when no list is left open. */
    method Eject() returns (r: Result<seq<Value>, ParsingError>)
      modifies this
      ensures r == EjectStack(old(stack))
      ensures r.Ok? <==> |old(stack)| == 1
    {
      if |stack| == 1 {
        r := Pop();
      } else {
        r := Err(UnfinishedList);
      }
    }
  }

  // ---------------------------------------------------------------------
  // What each token does to the depth of the stack

  /**
   * An atom lands at the end of the innermost frame, '(' opens a frame and
   * ')' closes the innermost frame into a list one level down; closing at
   * the top level empties the stack and fails.
   */
  lemma FeedDepth(stack: Stack, token: Token)
    requires stack != []
    ensures !token.LeftParenthesis? && !token.RightParenthesis? ==>
      var r := FeedStack(stack, token);
      r.0.Ok? && |r.1| == |stack| && r.1[..|stack| - 1] == stack[..|stack| - 1]
      && r.1[|stack| - 1] == stack[|stack| - 1] + [AtomValue(token)]
    ensures token.LeftParenthesis? ==> FeedStack(stack, token) == (Ok(()), stack + [[]])
    ensures token.RightParenthesis? && |stack| >= 2 ==>
      var r := FeedStack(stack, token);
      r.0.Ok? && |r.1| == |stack| - 1 && r.1[..|stack| - 2] == stack[..|stack| - 2]
      && r.1[|stack| - 2] == stack[|stack| - 2] + [List(stack[|stack| - 1])]
    ensures token.RightParenthesis? && |stack| == 1 ==> FeedStack(stack, token) == (Err(StackUnderflow), [])
  {
  }

  /** The value an atom token stands for. */
  function AtomValue(token: Token): Value
    requires !token.LeftParenthesis? && !token.RightParenthesis?
  {
    match token
    case FloatingPointNumber(x) => Value.FloatingPointNumber(x)
    case Identifier(id) => Symbol(id)
    case Integer(n) => Value.Integer(n)
  }

  // ---------------------------------------------------------------------
  // Round trip: parsing the tokens that spell a value yields that value

  /** The values the parser can build: numbers, symbols and lists of them. */
  predicate Parsable(v: Value)
  {
    match v
    case Integer(_) => true
    case FloatingPointNumber(_) => true
    case Symbol(_) => true
    case List(items) => forall i :: 0 <= i < |items| ==> Parsable(items[i])
    case _ => false
  }

  predicate AllParsable(vs: seq<Value>)
  {
    forall i :: 0 <= i < |vs| ==> Parsable(vs[i])
  }

  /** The tokens that spell a parsable value. */
  function Spell(v: Value): seq<Token>
    requires Parsable(v)
  {
    match v
    case Integer(n) => [Token.Integer(n)]
    case FloatingPointNumber(x) => [Token.FloatingPointNumber(x)]
    case Symbol(id) => [Token.Identifier(id)]
    case List(items) => [Token.LeftParenthesis] + SpellAll(items) + [Token.RightParenthesis]
  }

  function SpellAll(vs: seq<Value>): seq<Token>
    requires AllParsable(vs)
  {
    if vs == [] then [] else Spell(vs[0]) + SpellAll(vs[1..])
  }

  lemma {:induction false} FeedAllAppend(stack: Stack, a: seq<Token>, b: seq<Token>)
    ensures FeedAll(stack, a + b) == (var r := FeedAll(stack, a); if r.0.Err? then r else FeedAll(r.1, b))
    decreases |a|
  {
    if a != [] {
      assert (a + b)[0] == a[0];
      assert (a + b)[1..] == a[1..] + b;
      var r := FeedStack(stack, a[0]);
      if r.0.Ok? {
        FeedAllAppend(r.1, a[1..], b);
      }
    } else {
      assert a + b == b;
    }
  }

  lemma PushOntoSnoc(stack: Stack, frame: seq<Value>, v: Value)
    ensures PushOnto(stack + [frame], v) == (Ok(()), stack + [frame + [v]])
  {
    assert (stack + [frame])[|stack| := frame + [v]] == stack + [frame + [v]];
  }

  /** The tokens of one value add exactly that value to the innermost frame. */
  lemma {:induction false} FeedSpelled(stack: Stack, frame: seq<Value>, v: Value)
    requires Parsable(v)
    ensures FeedAll(stack + [frame], Spell(v)) == (Ok(()), stack + [frame + [v]])
    decreases v, 1
  {
    if v.List? {
      FeedSpelledList(stack, frame, v.items);
    } else {
      var s := stack + [frame];
      assert s[..|s| - 1] == stack && s[|s| - 1] == frame;
      PushOntoSnoc(stack, frame, v);
    }
  }

  /** A list's tokens open a frame, fill it with the items and close it into the list. */
  lemma {:induction false} FeedSpelledList(stack: Stack, frame: seq<Value>, items: seq<Value>)
    requires Parsable(Value.List(items))
    ensures FeedAll(stack + [frame], Spell(Value.List(items))) == (Ok(()), stack + [frame + [Value.List(items)]])
    decreases Value.List(items), 0
  {
    var s := stack + [frame];
    var inner := SpellAll(items);
    assert Spell(Value.List(items)) == [Token.LeftParenthesis] + (inner + [Token.RightParenthesis]);
    FeedAllAppend(s, [Token.LeftParenthesis], inner + [Token.RightParenthesis]);
    assert FeedAll(s, [Token.LeftParenthesis]) == (Ok(()), s + [[]]);
    FeedSpelledAll(s, [], items);
    assert [] + items == items;
    FeedAllAppend(s + [[]], inner, [Token.RightParenthesis]);
    var t := s + [items];
    assert t[..|t| - 1] == s && t[|t| - 1] == items;
    assert s[..|s| - 1] == stack && s[|s| - 1] == frame;
    PushOntoSnoc(stack, frame, Value.List(items));
  }

  lemma {:induction false} FeedSpelledAll(stack: Stack, frame: seq<Value>, vs: seq<Value>)
    requires AllParsable(vs)
    ensures FeedAll(stack + [frame], SpellAll(vs)) == (Ok(()), stack + [frame + vs])
    decreases vs, 2
  {
    if vs == [] {
      assert frame + vs == frame;
    } else {
      FeedAllAppend(stack + [frame], Spell(vs[0]), SpellAll(vs[1..]));
      FeedSpelled(stack, frame, vs[0]);
      FeedSpelledAll(stack, frame + [vs[0]], vs[1..]);
      assert frame + [vs[0]] + vs[1..] == frame + vs;
    }
  }

  /** A fresh parser fed the spelling of some forms ejects exactly those forms. */
  lemma ParseSpelledForms(vs: seq<Value>)
    requires AllParsable(vs)
    ensures FeedAll([[]], SpellAll(vs)).0.Ok?
    ensures EjectStack(FeedAll([[]], SpellAll(vs)).1) == Ok(vs)
  {
    FeedSpelledAll([], [], vs);
    var empty: Stack := [];
    assert empty + [[]] == [[]] && [] + vs == vs;
  }

  /** The unit test: `( 1 2 3 )` parses into the single list [1, 2, 3]. */
  method ParseListExample() returns (result: Result<seq<Value>, ParsingError>)
    ensures result == Ok([List([Value.Integer(1), Value.Integer(2), Value.Integer(3)])])
  {
    var parser := new Parser();
    var _ := parser.Feed(Token.LeftParenthesis);
    assert parser.stack == [[], []];
    var _ := parser.Feed(Token.Integer(1));
    assert [] + [Value.Integer(1)] == [Value.Integer(1)];
    assert parser.stack == [[], [Value.Integer(1)]];
    var _ := parser.Feed(Token.Integer(2));
    assert [Value.Integer(1)] + [Value.Integer(2)] == [Value.Integer(1), Value.Integer(2)];
    assert parser.stack == [[], [Value.Integer(1), Value.Integer(2)]];
    var _ := parser.Feed(Token.Integer(3));
    assert [Value.Integer(1), Value.Integer(2)] + [Value.Integer(3)] == [Value.Integer(1), Value.Integer(2), Value.Integer(3)];
    assert parser.stack == [[], [Value.Integer(1), Value.Integer(2), Value.Integer(3)]];
    var _ := parser.Feed(Token.RightParenthesis);
    assert [] + [List([Value.Integer(1), Value.Integer(2), Value.Integer(3)])]
      == [List([Value.Integer(1), Value.Integer(2), Value.Integer(3)])];
    result := parser.Eject();
  }

  /** The unit test: a lone identifier parses into one symbol. */
  method ParseSymbolExample(id: string) returns (result: Result<seq<Value>, ParsingError>)
    ensures result == Ok([Symbol(id)])
  {
    var parser := new Parser();
    var _ := parser.Feed(Token.Identifier(id));
    assert [] + [Symbol(id)] == [Symbol(id)];
    result := parser.Eject();
  }
}
