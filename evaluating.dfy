/**
 * The recursive evaluator (src/scripting/evaluating.rs).  The same
 * recursion is `Interpreter::interpret` in src/scripting/interpreter.rs;
 * the two differ only in the error type they report, so `Eval` takes the
 * errors it reports as parameters and each file instantiates it.
 *
 * Native functions receive the evaluator itself (`&mut self`), so they may
 * change the environment: evaluation threads the environment through, and
 * the table of natives maps a handle, an environment and the arguments to a
 * result and the environment the call leaves behind.
 */
module Evaluating {
  import opened Wrappers
  import opened Values
  import opened Environments

  datatype EvaluationError =
    | Unbound(id: string)
    | CallingNonFunction
    | MalformedLet
    | NonNumberInArithmeticOperation
    | InvalidNumberOfArguments
    | InvalidArgumentTypes

  /** The result of running code, and the environment it leaves behind. */
  datatype Outcome<+T, +E> = Outcome(result: Result<T, E>, env: Frame)

  /** What the closure behind each native-function handle does. */
  type Natives<E> = (nat, Frame, seq<Value>) -> Outcome<Value, E>

  /**
   * The recursion of `evaluate`: atoms and native functions evaluate to
   * themselves, a symbol to its binding, the empty list to Nil, and a
   * non-empty list to the call of its evaluated head on its evaluated tail.
   * `unbound(id)` and `nonFunction` are the errors the caller reports.
   */
  function Eval<E>(natives: Natives<E>, unbound: string -> E, nonFunction: E, env: Frame, ast: Value)
    : Outcome<Value, E>
    decreases ast
  {
    match ast
    case Symbol(id) =>
      (match env.Lookup(id)
       case Ok(v) => Outcome(Ok(v), env)
       case Err(_) => Outcome(Err(unbound(id)), env))
    case List(children) =>
      if children == [] then Outcome(Ok(Nil), env)
      else
        var evaluated := EvalAll(natives, unbound, nonFunction, env, children);
        if evaluated.result.Err? then Outcome(Err(evaluated.result.error), evaluated.env)
        else
          var vs := evaluated.result.value;
          (match vs[0]
           case NativeFunction(_, handle) => natives(handle, evaluated.env, vs[1..])
           case _ => Outcome(Err(nonFunction), evaluated.env))
    case _ => Outcome(Ok(ast), env)
  }

  /** Evaluating the children of a list from left to right, stopping at the first error. */
  function EvalAll<E>(natives: Natives<E>, unbound: string -> E, nonFunction: E, env: Frame, children: seq<Value>)
    : (o: Outcome<seq<Value>, E>)
    ensures o.result.Ok? ==> |o.result.value| == |children|
    decreases children
  {
    if children == [] then Outcome(Ok([]), env)
    else
      var first := Eval(natives, unbound, nonFunction, env, children[0]);
      if first.result.Err? then Outcome(Err(first.result.error), first.env)
      else
        var rest := EvalAll(natives, unbound, nonFunction, first.env, children[1..]);
        if rest.result.Err? then Outcome(Err(rest.result.error), rest.env)
        else Outcome(Ok([first.result.value] + rest.result.value), rest.env)
  }

  /** `Evaluator::evaluate`, reporting `EvaluationError`. */
  function Evaluate(natives: Natives<EvaluationError>, env: Frame, ast: Value): Outcome<Value, EvaluationError>
  {
    Eval(natives, id => EvaluationError.Unbound(id), EvaluationError.CallingNonFunction, env, ast)
  }

  /** Native functions that leave the environment as they found it. */
  ghost predicate KeepsEnvironment<E>(natives: Natives<E>)
  {
    forall handle, env, args :: natives(handle, env, args).env == env
  }

  // ---------------------------------------------------------------------
  // Properties

  /**
   * The cases of `evaluate`: atoms and native functions are their own
   * value; a symbol yields what the environment shows for it, or the
   * unbound error; the empty list is Nil.  None of these touch the
   * environment.
   */
  lemma EvalLeaves<E>(natives: Natives<E>, unbound: string -> E, nonFunction: E, env: Frame, ast: Value)
    ensures !ast.Symbol? && !ast.List? ==> Eval(natives, unbound, nonFunction, env, ast) == Outcome(Ok(ast), env)
    ensures ast.Symbol? ==>
      Eval(natives, unbound, nonFunction, env, ast)
        == Outcome(if ast.id in env.Visible() then Ok(env.Visible()[ast.id]) else Err(unbound(ast.id)), env)
    ensures ast == List([]) ==> Eval(natives, unbound, nonFunction, env, ast) == Outcome(Ok(Nil), env)
  {
    if ast.Symbol? {
      LookupVisible(env, ast.id);
    }
  }

  /** With natives that keep the environment, so does evaluation. */
  lemma {:induction false} EvalKeepsEnvironment<E>(natives: Natives<E>, unbound: string -> E, nonFunction: E, env: Frame, ast: Value)
    requires KeepsEnvironment(natives)
    ensures Eval(natives, unbound, nonFunction, env, ast).env == env
    decreases ast
  {
    match ast
    case List(children) =>
      if children != [] {
        EvalAllKeepsEnvironment(natives, unbound, nonFunction, env, children);
      }
    case _ =>
  }

  lemma {:induction false} EvalAllKeepsEnvironment<E>(natives: Natives<E>, unbound: string -> E, nonFunction: E, env: Frame, children: seq<Value>)
    requires KeepsEnvironment(natives)
    ensures EvalAll(natives, unbound, nonFunction, env, children).env == env
    decreases children
  {
    if children != [] {
      EvalKeepsEnvironment(natives, unbound, nonFunction, env, children[0]);
      EvalAllKeepsEnvironment(natives, unbound, nonFunction, env, children[1..]);
    }
  }

  /**
   * With natives that keep the environment, the children of a list
   * evaluate independently: the list of results is Ok exactly when every
   * child is, and otherwise it is the error of the first child that fails.
   */
  lemma {:induction false} EvalAllFirstError<E>(natives: Natives<E>, unbound: string -> E, nonFunction: E, env: Frame, children: seq<Value>)
    requires KeepsEnvironment(natives)
    ensures var o := EvalAll(natives, unbound, nonFunction, env, children);
      o.result.Ok? <==> forall i :: 0 <= i < |children| ==> Eval(natives, unbound, nonFunction, env, children[i]).result.Ok?
    ensures var o := EvalAll(natives, unbound, nonFunction, env, children);
      o.result.Ok? ==> forall i :: 0 <= i < |children| ==>
        Eval(natives, unbound, nonFunction, env, children[i]).result == Ok(o.result.value[i])
    ensures var o := EvalAll(natives, unbound, nonFunction, env, children);
      o.result.Err? ==>
        exists k :: 0 <= k < |children|
          && Eval(natives, unbound, nonFunction, env, children[k]).result == Err(o.result.error)
          && forall i :: 0 <= i < k ==> Eval(natives, unbound, nonFunction, env, children[i]).result.Ok?
    decreases children
  {
    if children != [] {
      EvalKeepsEnvironment(natives, unbound, nonFunction, env, children[0]);
      EvalAllFirstError(natives, unbound, nonFunction, env, children[1..]);
      var o := EvalAll(natives, unbound, nonFunction, env, children);
      var first := Eval(natives, unbound, nonFunction, env, children[0]);
      var rest := EvalAll(natives, unbound, nonFunction, env, children[1..]);
      if first.result.Ok? {
        assert forall i :: 1 <= i < |children| ==> children[i] == children[1..][i - 1];
        if rest.result.Err? {
          var k :| 0 <= k < |children[1..]|
            && Eval(natives, unbound, nonFunction, env, children[1..][k]).result == Err(rest.result.error)
            && forall i :: 0 <= i < k ==> Eval(natives, unbound, nonFunction, env, children[1..][i]).result.Ok?;
          assert Eval(natives, unbound, nonFunction, env, children[k + 1]).result == Err(o.result.error);
        }
      } else {
        assert Eval(natives, unbound, nonFunction, env, children[0]).result == Err(o.result.error);
      }
    }
  }

  /**
   * With natives that keep the environment, a non-empty list whose children
   * all evaluate calls its head when that is a native function, and fails
   * with the non-function error otherwise.
   */
  lemma EvalCall<E>(natives: Natives<E>, unbound: string -> E, nonFunction: E, env: Frame, children: seq<Value>)
    requires KeepsEnvironment(natives)
    requires children != []
    requires forall i :: 0 <= i < |children| ==> Eval(natives, unbound, nonFunction, env, children[i]).result.Ok?
    ensures var vs := seq(|children|, i requires 0 <= i < |children| => Eval(natives, unbound, nonFunction, env, children[i]).result.value);
      Eval(natives, unbound, nonFunction, env, List(children))
        == if vs[0].NativeFunction? then natives(vs[0].handle, env, vs[1..]) else Outcome(Err(nonFunction), env)
  {
    EvalAllFirstError(natives, unbound, nonFunction, env, children);
    EvalAllKeepsEnvironment(natives, unbound, nonFunction, env, children);
    var vs := seq(|children|, i requires 0 <= i < |children| => Eval(natives, unbound, nonFunction, env, children[i]).result.value);
    assert EvalAll(natives, unbound, nonFunction, env, children).result.value == vs;
  }

  /** The unit test: 42 evaluates to 42. */
  lemma EvaluateIntegerExample(natives: Natives<EvaluationError>, env: Frame)
    ensures Evaluate(natives, env, Integer(42)).result == Ok(Integer(42))
  {
  }
}
