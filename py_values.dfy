/** Python values as the webhook handler sees them after Stripe's JSON is
    decoded: the truthiness rules `if not x` and `a or b` use,
    `isinstance(x, int)` (which `bool` passes), and `dict.get`. */
module PyValues {

  datatype Json =
    | Null
    | Bool(b: bool)
    | Int(i: int)
    | Float(f: real)
    | Str(s: string)
    | List(items: seq<Json>)
    | Object(fields: map<string, Json>)

  /** Python truthiness: None, False, zero, and empty strings, lists and
      dicts are false. */
  predicate IsTruthy(v: Json) {
    match v
    case Null => false
    case Bool(b) => b
    case Int(i) => i != 0
    case Float(f) => f != 0.0
    case Str(s) => s != ""
    case List(items) => items != []
    case Object(fields) => fields != map[]
  }

  /** `isinstance(v, int)`: `bool` is a subclass of `int`. */
  predicate IsInt(v: Json) { v.Int? || v.Bool? }

  /** The integer value of an `int` or `bool`. */
  function IntValue(v: Json): int
    requires IsInt(v)
  {
    if v.Bool? then (if v.b then 1 else 0) else v.i
  }

  /** `d.get(k)`: None for a missing key. */
  function Get(d: map<string, Json>, k: string): Json
  {
    if k in d then d[k] else Null
  }

  /** Python's `a or b`: the first operand when it is truthy, else the
      second, whatever its truthiness. */
  function Or(a: Json, b: Json): Json
  {
    if IsTruthy(a) then a else b
  }
}
