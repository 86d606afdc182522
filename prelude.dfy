/**
 * The prelude environment and the numeric homogenisation of arguments
 * (src/scripting/prelude.rs).
 */
module Prelude {
  import opened Wrappers
  import opened Values
  import opened Environments

  /** `create_prelude`: an environment in which nothing is bound. */
  method CreatePrelude() returns (environment: Environment)
    ensures fresh(environment)
    ensures forall id :: environment.Lookup(id) == Err(Unbound(id))
  {
    environment := new Environment();
  }

  predicate IsNumber(v: Value)
  {
    v.Integer? || v.FloatingPointNumber?
  }

  /** A number as a float; the conversion of an integer (`as f64`) is exact here. */
  function AsFloat(v: Value): real
    requires IsNumber(v)
  {
    if v.Integer? then v.n as real else v.x
  }

  /**
   * What homogenising a list of values means, stated on the whole list:
   * an error when some value is not a number, the integers when all are
   * integers, and otherwise every value as a float.
   */
  function Homogenized(values: seq<Value>): Result<Either<seq<int>, seq<real>>, InterpreterError>
  {
    if exists i :: 0 <= i < |values| && !IsNumber(values[i]) then Err(NonNumberInArithmeticOperation)
    else if forall i :: 0 <= i < |values| ==> values[i].Integer? then
      Ok(Left(seq(|values|, i requires 0 <= i < |values| && values[i].Integer? => values[i].n)))
    else
      Ok(Right(seq(|values|, i requires 0 <= i < |values| && IsNumber(values[i]) => AsFloat(values[i]))))
  }

  /** How one more value extends the homogenisation of a list. */
  lemma HomogenizedSnoc(values: seq<Value>, v: Value)
    ensures Homogenized(values + [v]) ==
      match Homogenized(values)
      case Err(e) => Err(e)
      case Ok(Left(ns)) =>
        if v.Integer? then Ok(Left(ns + [v.n]))
        else if v.FloatingPointNumber? then Ok(Right(seq(|ns|, k requires 0 <= k < |ns| => ns[k] as real) + [v.x]))
        else Err(NonNumberInArithmeticOperation)
      case Ok(Right(xs)) =>
        if IsNumber(v) then Ok(Right(xs + [AsFloat(v)])) else Err(NonNumberInArithmeticOperation)
  {
    var ws := values + [v];
    assert forall i :: 0 <= i < |values| ==> ws[i] == values[i];
    assert ws[|values|] == v;
    if exists i :: 0 <= i < |values| && !IsNumber(values[i]) {
      var i :| 0 <= i < |values| && !IsNumber(values[i]);
      assert !IsNumber(ws[i]);
    } else if !IsNumber(v) {
      assert !IsNumber(ws[|values|]);
    } else if forall i :: 0 <= i < |values| ==> values[i].Integer? {
      var ns := seq(|values|, i requires 0 <= i < |values| && values[i].Integer? => values[i].n);
      assert Homogenized(values) == Ok(Left(ns));
      if v.Integer? {
        assert Homogenized(ws).value.left == ns + [v.n];
      } else {
        assert !ws[|values|].Integer?;
        assert Homogenized(ws).value.right == seq(|ns|, k requires 0 <= k < |ns| => ns[k] as real) + [v.x];
      }
    } else {
      var i :| 0 <= i < |values| && !values[i].Integer?;
      assert !ws[i].Integer?;
      var xs := seq(|values|, i requires 0 <= i < |values| && IsNumber(values[i]) => AsFloat(values[i]));
      assert Homogenized(values) == Ok(Right(xs));
      assert Homogenized(ws).value.right == xs + [AsFloat(v)];
    }
  }

  /**
   * `homogenize_numbers`: one pass that collects integers until the first
   * float, then converts what it has and continues with floats.
   */
  method HomogenizeNumbers(values: seq<Value>) returns (r: Result<Either<seq<int>, seq<real>>, InterpreterError>)
    ensures r == Homogenized(values)
  {
    var result: Either<seq<int>, seq<real>> := Left([]);
    assert values[..0] == [];
    assert Homogenized([]).value.left == [];
    for i := 0 to |values|
      invariant Homogenized(values[..i]) == Ok(result)
    {
      assert values[..i + 1] == values[..i] + [values[i]];
      HomogenizedSnoc(values[..i], values[i]);
      match (values[i], result) {
        case (Integer(n), Left(vec)) =>
          result := Left(vec + [n]);
        case (FloatingPointNumber(x), Left(vec)) =>
          var converted := seq(|vec|, k requires 0 <= k < |vec| => vec[k] as real);
          result := Right(converted + [x]);
        case (Integer(n), Right(vec)) =>
          result := Right(vec + [n as real]);
        case (FloatingPointNumber(x), Right(vec)) =>
          result := Right(vec + [x]);
        case _ =>
          assert !IsNumber(values[i]);
          return Err(NonNumberInArithmeticOperation);
      }
    }
    assert values[..|values|] == values;
    r := Ok(result);
  }

  /**
   * On success the output has one number per input value, in order: the
   * integers themselves when there is no float, and otherwise every value
   * converted to a float.
   */
  lemma HomogenizedShape(values: seq<Value>)
    ensures Homogenized(values).Err? <==> exists i :: 0 <= i < |values| && !IsNumber(values[i])
    ensures Homogenized(values).Ok? && Homogenized(values).value.Left? ==>
      var ns := Homogenized(values).value.left;
      |ns| == |values| && forall i :: 0 <= i < |values| ==> values[i] == Integer(ns[i])
    ensures Homogenized(values).Ok? && Homogenized(values).value.Right? ==>
      var xs := Homogenized(values).value.right;
      |xs| == |values| && (exists i :: 0 <= i < |values| && values[i].FloatingPointNumber?)
      && forall i :: 0 <= i < |values| ==> IsNumber(values[i]) && xs[i] == AsFloat(values[i])
  {
  }

  /** The unit test: [5, 7.8, 9.1] becomes the floats [5.0, 7.8, 9.1]. */
  method HomogenizeMixExample() returns (r: Result<Either<seq<int>, seq<real>>, InterpreterError>)
    ensures r == Ok(Right([5.0, 7.8, 9.1]))
  {
    var values := [Integer(5), FloatingPointNumber(7.8), FloatingPointNumber(9.1)];
    r := HomogenizeNumbers(values);
    assert !values[1].Integer?;
    HomogenizedShape(values);
    assert r.value.right == [5.0, 7.8, 9.1];
  }
}
