/**
 * Parameter validation of io_layer/validator.py: the bounds must be ordered
 * and the interval count a positive integer, checked in that order.
 */
module Validator {
  import opened Wrappers
  import opened Text

  /** The run-time kind of the `n` argument: only an int passes `isinstance(n, int)`. */
  datatype Number = Int(i: int) | Float(r: real)

  /** The ValueError raised, with the values its message reports. */
  datatype ParamError =
    | BoundsOrder(a: real, b: real)
    | NotInteger(typeName: string)
    | NotPositive(n: int)

  /** `type(n).__name__`. */
  function TypeName(n: Number): string
  {
    match n
    case Int(_) => "int"
    case Float(_) => "float"
  }

  /** The message text; the first one's rendering of a and b is not modelled. */
  function Message(e: ParamError): string
  {
    match e
    case BoundsOrder(_, _) => "Lower bound 'a' must be less than upper bound 'b'"
    case NotInteger(t) => "'n' must be an integer (got type " + t + ")"
    case NotPositive(n) => "'n' must be a positive integer (got n=" + IntToString(n) + ")"
  }

  /**
   * `validate_params(a, b, n)`: None when it returns, the error when it raises;
   * it returns exactly for ordered bounds and an integer n of at least 1.
   */
  function ValidateParams(a: real, b: real, n: Number): (r: Option<ParamError>)
    ensures r.None? <==> a < b && n.Int? && n.i >= 1
  {
    if a >= b then Some(BoundsOrder(a, b))
    else if !n.Int? then Some(NotInteger(TypeName(n)))
    else if n.i < 1 then Some(NotPositive(n.i))
    else None
  }

  /**
   * Which error is raised: the bounds are checked first, then the type of n,
   * then its sign; each error reports the offending values.
   */
  lemma ValidateParamsFirstFailure(a: real, b: real, n: Number)
    ensures a >= b ==> ValidateParams(a, b, n) == Some(BoundsOrder(a, b))
    ensures a < b && n.Float? ==> ValidateParams(a, b, n) == Some(NotInteger("float"))
    ensures a < b && n.Int? && n.i < 1 ==> ValidateParams(a, b, n) == Some(NotPositive(n.i))
  {
  }

  /** The accepted and rejected parameter sets of tests/test_parser.py. */
  lemma ParserTestCases()
    ensures ValidateParams(0.0, 1.0, Int(4)) == None
    ensures ValidateParams(1.0, 0.0, Int(5)).Some?
    ensures ValidateParams(0.0, 1.0, Int(0)).Some?
    ensures ValidateParams(0.0, 1.0, Int(-3)).Some?
    ensures ValidateParams(0.0, 1.0, Float(2.5)).Some?
    ensures Message(ValidateParams(0.0, 1.0, Int(-3)).value) == "'n' must be a positive integer (got n=-3)"
    ensures Message(ValidateParams(0.0, 1.0, Float(2.5)).value) == "'n' must be an integer (got type float)"
  {
    assert NatToString(3) == "3";
  }
}
