/**
 * `Interpreter::interpret_string` (src/scripting/interpreting.rs): the
 * pipeline from source text to the value of its last form.  The characters
 * are paired with their indices as locations, tokens are fed to the parser
 * until the input is exhausted, the parsed forms are ejected, and they are
 * evaluated in order in the evaluator's environment.
 *
 * `InterpretString` is proved against `InterpretSpec`, a function of the
 * input and the environment it starts in; the lemmas below say what that
 * function means.
 */
module Interpreting {
  import opened Wrappers
  import opened Values
  import opened Environments
  import opened Evaluating
  import Prelude
  import Tokens
  import Parsing
  import Tokenizer
  import Automaton

  datatype InterpretingError =
    | TokenizingError(tokenizing: Tokens.TokenizingError)
    | ParsingError(parsing: Parsing.ParsingError)
    | EvaluationError(evaluation: Evaluating.EvaluationError)

  /** `flip`: swap the two halves of a pair. */
  function Flip<A, B>(pair: (A, B)): (B, A)
  {
    (pair.1, pair.0)
  }

  /** Flipping twice gives the pair back. */
  lemma FlipInvolutive<A, B>(pair: (A, B))
    ensures Flip(Flip(pair)) == pair
  {
  }

  /** `input.chars().enumerate().map(flip)`: every character with its index. */
  function Located(input: string): (located: seq<(char, nat)>)
  {
    seq(|input|, i requires 0 <= i < |input| => Flip((i as nat, input[i])))
  }

  /**
   * The located characters spell the input, and each one's location is its
   * index.
   */
  lemma LocatedSpellsInput(input: string)
    ensures Tokenizer.Chars(Located(input)) == input
    ensures |Located(input)| == |input|
    ensures forall i :: 0 <= i < |input| ==> Located(input)[i].1 == i
  {
    assert Tokenizer.Chars(Located(input)) == input;
  }

  // ---------------------------------------------------------------------
  // The pipeline as functions

  /**
   * The `while let` loop: take tokens until `next_token` reports the end,
   * feeding each to the parser; stop at the first error of either.
   */
  function ParseInput(rules: seq<Automaton.Rule<Tokens.TokenType>>, input: seq<(char, nat)>,
                      stack: Parsing.Stack, parseFloat: string -> Option<real>)
    : Result<Parsing.Stack, InterpretingError>
    decreases |input|
  {
    var step := Tokenizer.NextTokenSpec(rules, input, parseFloat);
    match step.result
    case Err(e) => Err(TokenizingError(e))
    case Ok(None) => Ok(stack)
    case Ok(Some(found)) =>
      var fed := Parsing.FeedStack(stack, found.0);
      if fed.0.Err? then Err(ParsingError(fed.0.error))
      else ParseInput(rules, step.rest, fed.1, parseFloat)
  }

  /**
   * The `for` loop: evaluate the forms in order, each in the environment
   * the previous one left; the value is that of the last form, `last` when
   * there is none left, and the first error stops the loop.
   */
  function EvaluateForms(natives: Natives<Evaluating.EvaluationError>, env: Frame, forms: seq<Value>, last: Value)
    : Outcome<Value, InterpretingError>
    decreases |forms|
  {
    if forms == [] then Outcome(Ok(last), env)
    else
      var o := Evaluate(natives, env, forms[0]);
      if o.result.Err? then Outcome(Err(EvaluationError(o.result.error)), o.env)
      else EvaluateForms(natives, o.env, forms[1..], o.result.value)
  }

  /** `interpret_string` as a function of the input and the starting environment. */
  function InterpretSpec(rules: seq<Automaton.Rule<Tokens.TokenType>>, natives: Natives<Evaluating.EvaluationError>,
                         env: Frame, input: string, parseFloat: string -> Option<real>)
    : Outcome<Value, InterpretingError>
  {
    match ParseInput(rules, Located(input), [[]], parseFloat)
    case Err(e) => Outcome(Err(e), env)
    case Ok(stack) =>
      match Parsing.EjectStack(stack)
      case Err(e) => Outcome(Err(ParsingError(e)), env)
      case Ok(forms) => EvaluateForms(natives, env, forms, Nil)
  }

  class Interpreter {
    /** The evaluator's environment. */
    const environment: Environment
    /** What the native functions bound in the environment do. */
    const natives: Natives<Evaluating.EvaluationError>
    /** `char::is_alphanumeric`, used by the tokenizer's identifier rule. */
    const isAlphanumeric: char -> bool
    /** `str::parse::<f64>`, used by the tokenizer. */
    const parseFloat: string -> Option<real>

    /** `new`: an evaluator over the prelude. */
    constructor(natives: Natives<Evaluating.EvaluationError>, isAlphanumeric: char -> bool,
                parseFloat: string -> Option<real>)
      ensures fresh(environment)
      ensures forall id :: environment.Lookup(id) == Err(InterpreterError.Unbound(id))
      ensures this.natives == natives && this.isAlphanumeric == isAlphanumeric && this.parseFloat == parseFloat
    {
      var prelude := Prelude.CreatePrelude();
      environment := prelude;
      this.natives := natives;
      this.isAlphanumeric := isAlphanumeric;
      this.parseFloat := parseFloat;
    }

    /** `interpret_string`. */
    method InterpretString(input: string) returns (r: Result<Value, InterpretingError>)
      modifies environment
      ensures Outcome(r, environment.top)
        == InterpretSpec(Tokenizer.TokenRules(isAlphanumeric), natives, old(environment.top), input, parseFloat)
    {
      var located := Located(input);
      var tokenizer := new Tokenizer.Tokenizer(located, isAlphanumeric, parseFloat);
      var parser := new Parsing.Parser();
      ghost var rules := Tokenizer.TokenRules(isAlphanumeric);
      ghost var goal := ParseInput(rules, located, [[]], parseFloat);
      while true
        invariant tokenizer.Valid() && fresh(tokenizer.automaton) && fresh(tokenizer.input) && fresh(parser)
        invariant tokenizer.rules == rules && tokenizer.parseFloat == parseFloat
        invariant environment.top == old(environment.top)
        invariant ParseInput(rules, tokenizer.input.Remaining(), parser.stack, parseFloat) == goal
        decreases |tokenizer.input.Remaining()|
      {
        var next := tokenizer.NextToken();
        if next.Err? {
          return Err(TokenizingError(next.error));
        }
        if next.value.None? {
          break;
        }
        var fed := parser.Feed(next.value.value.0);
        if fed.Err? {
          return Err(ParsingError(fed.error));
        }
      }
      var forms := parser.Eject();
      if forms.Err? {
        return Err(ParsingError(forms.error));
      }
      var lastResult := Nil;
      for i := 0 to |forms.value|
        invariant EvaluateForms(natives, environment.top, forms.value[i..], lastResult)
          == EvaluateForms(natives, old(environment.top), forms.value, Nil)
      {
        var o := Evaluate(natives, environment.top, forms.value[i]);
        environment.top := o.env;
        if o.result.Err? {
          return Err(EvaluationError(o.result.error));
        }
        lastResult := o.result.value;
      }
      r := Ok(lastResult);
    }
  }

  // ---------------------------------------------------------------------
  // Properties

  /** Input that is only whitespace holds no forms and evaluates to Nil. */
  lemma BlankInputIsNil(rules: seq<Automaton.Rule<Tokens.TokenType>>, natives: Natives<Evaluating.EvaluationError>,
                        env: Frame, input: string, parseFloat: string -> Option<real>)
    requires forall i :: 0 <= i < |input| ==> Tokenizer.IsWhitespace(input[i])
    ensures InterpretSpec(rules, natives, env, input, parseFloat) == Outcome(Ok(Nil), env)
  {
    LocatedSpellsInput(input);
    var located := Located(input);
    assert forall i :: 0 <= i < |located| ==> Tokenizer.IsWhitespace(located[i].0);
    Tokenizer.NextTokenSpecEnd(rules, located, parseFloat);
  }

  /**
   * With natives that keep the environment, the forms are evaluated
   * independently: the outcome is the value of the last form when every
   * form evaluates, and otherwise the error of the first form that fails.
   */
  lemma {:induction false} EvaluateFormsLastOrFirstError(natives: Natives<Evaluating.EvaluationError>, env: Frame,
                                                         forms: seq<Value>, last: Value)
    requires KeepsEnvironment(natives)
    ensures var o := EvaluateForms(natives, env, forms, last);
      o.env == env
      && (o.result.Ok? <==> forall i :: 0 <= i < |forms| ==> Evaluate(natives, env, forms[i]).result.Ok?)
      && (o.result.Ok? ==> o.result.value == if forms == [] then last else Evaluate(natives, env, forms[|forms| - 1]).result.value)
      && (o.result.Err? ==>
            (exists k :: 0 <= k < |forms|
               && Evaluate(natives, env, forms[k]).result.Err?
               && o.result.error == EvaluationError(Evaluate(natives, env, forms[k]).result.error)
               && forall i :: 0 <= i < k ==> Evaluate(natives, env, forms[i]).result.Ok?))
    decreases |forms|
  {
    if forms != [] {
      var first := Evaluate(natives, env, forms[0]);
      EvalKeepsEnvironment(natives, id => Evaluating.EvaluationError.Unbound(id), Evaluating.EvaluationError.CallingNonFunction, env, forms[0]);
      assert first.env == env;
      if first.result.Ok? {
        EvaluateFormsLastOrFirstError(natives, env, forms[1..], first.result.value);
        assert forall i :: 1 <= i < |forms| ==> forms[i] == forms[1..][i - 1];
        var o := EvaluateForms(natives, env, forms, last);
        if o.result.Err? {
          var k :| 0 <= k < |forms[1..]|
            && Evaluate(natives, env, forms[1..][k]).result.Err?
            && o.result.error == EvaluationError(Evaluate(natives, env, forms[1..][k]).result.error)
            && forall i :: 0 <= i < k ==> Evaluate(natives, env, forms[1..][i]).result.Ok?;
          assert forms[k + 1] == forms[1..][k];
        }
      }
    }
  }
}
