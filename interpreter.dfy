/**
 * `Interpreter::interpret` (src/scripting/interpreter.rs): the recursion of
 * the evaluator, reporting `InterpreterError`.  This file matches native
 * functions with a one-field pattern; they are the same variant as in
 * src/scripting/values.rs.
 */
module Interpreter {
  import opened Wrappers
  import opened Values
  import opened Environments
  import opened Evaluating

  /** `interpret`: a symbol yields exactly what `Environment::lookup` yields. */
  function Interpret(natives: Natives<InterpreterError>, env: Frame, ast: Value): (o: Outcome<Value, InterpreterError>)
    ensures ast.Symbol? ==> o == Outcome(env.Lookup(ast.id), env)
  {
    Eval(natives, id => InterpreterError.Unbound(id), InterpreterError.CallingNonFunction, env, ast)
  }

  /**
   * The cases of `interpret`: atoms and native functions are their own
   * value, the empty list is Nil, a symbol is looked up, and a non-empty
   * list whose head is not a native function fails with
   * `CallingNonFunction`.
   */
  lemma InterpretCases(natives: Natives<InterpreterError>, env: Frame, ast: Value)
    requires KeepsEnvironment(natives)
    ensures !ast.Symbol? && !ast.List? ==> Interpret(natives, env, ast) == Outcome(Ok(ast), env)
    ensures ast == List([]) ==> Interpret(natives, env, ast) == Outcome(Ok(Nil), env)
    ensures ast.Symbol? ==>
      Interpret(natives, env, ast).result
        == if ast.id in env.Visible() then Ok(env.Visible()[ast.id]) else Err(InterpreterError.Unbound(ast.id))
    ensures ast.List? && ast.items != [] && !ast.items[0].Symbol? && !ast.items[0].List?
      && !ast.items[0].NativeFunction?
      && (forall i :: 0 <= i < |ast.items| ==> Interpret(natives, env, ast.items[i]).result.Ok?)
      ==> Interpret(natives, env, ast).result == Err(InterpreterError.CallingNonFunction)
  {
    EvalLeaves(natives, id => InterpreterError.Unbound(id), InterpreterError.CallingNonFunction, env, ast);
    if ast.List? && ast.items != [] && !ast.items[0].Symbol? && !ast.items[0].List? && !ast.items[0].NativeFunction?
      && (forall i :: 0 <= i < |ast.items| ==> Interpret(natives, env, ast.items[i]).result.Ok?)
    {
      var unbound := id => InterpreterError.Unbound(id);
      var o := EvalAll(natives, unbound, InterpreterError.CallingNonFunction, env, ast.items);
      EvalAllFirstError(natives, unbound, InterpreterError.CallingNonFunction, env, ast.items);
      EvalLeaves(natives, unbound, InterpreterError.CallingNonFunction, env, ast.items[0]);
      assert Interpret(natives, env, ast.items[0]).result.Ok?;
      assert o.result.value[0] == ast.items[0];
    }
  }
}
