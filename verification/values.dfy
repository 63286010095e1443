/**
  Python-level values the proxy moves across the privilege boundary:
  method arguments, return values and exceptions, the invocation of a
  target method, and the per-argument coercions an allowed method declares.
 */
module Values {
  import opened Wrappers

  /** The Python objects the model distinguishes. */
  datatype Value =
    | Str(s: string)
    | Bool(b: bool)
    | NoneValue
    | Exception(kind: string, message: string)

  /** Python's `str(v)`: the text the unprivileged side writes for an argument. */
  function PyStr(v: Value): string {
    match v
    case Str(s) => s
    case Bool(b) => if b then "True" else "False"
    case NoneValue => "None"
    case Exception(_, m) => m
  }

  /** One call of a target method, with the already-coerced arguments. */
  datatype Invocation = Invocation(name: string, args: seq<Value>)

  /** What running a target method does: return a value or raise an exception. */
  datatype CallOutcome = Returned(value: Value) | Raised(exception: Value)

  /**
    The behaviour of a target's methods. It receives every earlier
    invocation on the same object, so stateful targets are expressible.
   */
  type Behaviour = (seq<Invocation>, Invocation) -> CallOutcome

  /**
    An argument type declared with `allow_from_sudo`: a callable applied to
    the raw string read from the pipe. It either produces the argument or
    raises an exception.
   */
  datatype ArgType = ArgType(name: string, coerce: string -> Result<Value, Value>)

  /** The `str` argument type: accepts every string unchanged. */
  const StrArg: ArgType := ArgType("str", (s: string) => Success(Str(s)))
}
