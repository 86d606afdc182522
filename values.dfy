/**
 * Values of the scripting language, their kind predicates and their
 * equality (src/scripting/values.rs), together with the error type of the
 * interpreter (src/scripting/interpreter.rs), which native functions and
 * environment lookups report.
 */
module Values {

  /**
   * A value.  The i64 and f64 payloads are `int` and `real`.  A native
   * function is its name and a handle that stands for the closure; the
   * evaluators are given the table that runs a handle.
   */
  datatype Value =
    | Integer(n: int)
    | FloatingPointNumber(x: real)
    | Boolean(b: bool)
    | List(items: seq<Value>)
    | Symbol(id: string)
    | Nil
    | NativeFunction(name: string, handle: nat)

  /** `InterpreterError`. */
  datatype InterpreterError =
    | Unbound(id: string)
    | CallingNonFunction
    | MalformedLet
    | NonNumberInArithmeticOperation

  predicate IsInteger(v: Value)
  {
    match v
    case Integer(_) => true
    case _ => false
  }

  predicate IsFloat(v: Value)
  {
    match v
    case FloatingPointNumber(_) => true
    case _ => false
  }

  predicate IsBool(v: Value)
  {
    match v
    case Boolean(_) => true
    case _ => false
  }

  predicate IsList(v: Value)
  {
    match v
    case List(_) => true
    case _ => false
  }

  predicate IsSymbol(v: Value)
  {
    match v
    case Symbol(_) => true
    case _ => false
  }

  predicate IsNil(v: Value)
  {
    match v
    case Nil => true
    case _ => false
  }

  predicate IsNativeFunction(v: Value)
  {
    match v
    case NativeFunction(_, _) => true
    case _ => false
  }

  /** How many of the seven kind predicates hold for `v`. */
  function KindCount(v: Value): nat
  {
    (if IsInteger(v) then 1 else 0) + (if IsFloat(v) then 1 else 0) + (if IsBool(v) then 1 else 0)
    + (if IsList(v) then 1 else 0) + (if IsSymbol(v) then 1 else 0) + (if IsNil(v) then 1 else 0)
    + (if IsNativeFunction(v) then 1 else 0)
  }

  /** Every value is of exactly one kind, and each predicate names its variant. */
  lemma ExactlyOneKind(v: Value)
    ensures KindCount(v) == 1
    ensures IsInteger(v) <==> v.Integer?
    ensures IsFloat(v) <==> v.FloatingPointNumber?
    ensures IsBool(v) <==> v.Boolean?
    ensures IsList(v) <==> v.List?
    ensures IsSymbol(v) <==> v.Symbol?
    ensures IsNil(v) <==> v.Nil?
    ensures IsNativeFunction(v) <==> v.NativeFunction?
  {
  }

  /**
   * `PartialEq::eq`: equal variants with equal payloads, lists element by
   * element; a native function equals nothing, not even itself.
   */
  predicate Equal(a: Value, b: Value)
  {
    match (a, b)
    case (Boolean(x), Boolean(y)) => x == y
    case (Integer(x), Integer(y)) => x == y
    case (FloatingPointNumber(x), FloatingPointNumber(y)) => x == y
    case (Symbol(x), Symbol(y)) => x == y
    case (List(xs), List(ys)) => |xs| == |ys| && forall i :: 0 <= i < |xs| ==> Equal(xs[i], ys[i])
    case (Nil, Nil) => true
    case _ => false
  }

  /** Whether a native function occurs anywhere inside `v`. */
  predicate HasNative(v: Value)
  {
    match v
    case NativeFunction(_, _) => true
    case List(items) => exists i :: 0 <= i < |items| && HasNative(items[i])
    case _ => false
  }

  /**
   * `Equal` is structural equality restricted to values without native
   * functions: it never relates different values, and it relates every
   * value to itself unless a native function hides inside.
   */
  lemma {:induction false} EqualIsStructural(a: Value, b: Value)
    ensures Equal(a, b) <==> a == b && !HasNative(a)
  {
    match (a, b)
    case (List(xs), List(ys)) =>
      if Equal(a, b) {
        forall i | 0 <= i < |xs|
          ensures xs[i] == ys[i] && !HasNative(xs[i])
        {
          EqualIsStructural(xs[i], ys[i]);
        }
        assert xs == ys;
      }
      if a == b && !HasNative(a) {
        forall i | 0 <= i < |xs|
          ensures Equal(xs[i], ys[i])
        {
          EqualIsStructural(xs[i], ys[i]);
        }
      }
    case _ =>
  }

  /** `Equal` is symmetric. */
  lemma EqualSymmetric(a: Value, b: Value)
    ensures Equal(a, b) <==> Equal(b, a)
  {
    EqualIsStructural(a, b);
    EqualIsStructural(b, a);
  }

  /** A list holding a native function does not equal itself. */
  lemma NativeListNotReflexive(name: string, handle: nat)
    ensures !Equal(List([NativeFunction(name, handle)]), List([NativeFunction(name, handle)]))
  {
    var a := List([NativeFunction(name, handle)]);
    assert HasNative(a.items[0]);
    EqualIsStructural(a, a);
  }
}
