/**
 * Already-parsed JSON-like values, as the application stores step
 * configurations and routine step lists, with Python's truthiness.
 */
module Values {
  import opened Wrappers
  import Text

  datatype Value =
    | Null
    | Bool(b: bool)
    | Int(i: int)
    | Str(s: string)
    | List(items: seq<Value>)
    | Dict(fields: map<string, Value>)

  /** A step's key/value configuration. */
  type Config = map<string, Value>

  /** Python's `bool(v)`. */
  predicate Truthy(v: Value) {
    match v
    case Null => false
    case Bool(b) => b
    case Int(i) => i != 0
    case Str(s) => s != ""
    case List(items) => items != []
    case Dict(fields) => fields != map[]
  }

  /** `config.get(key)`. */
  function Get(c: Config, key: string): (r: Option<Value>)
    ensures r.Some? <==> key in c
    ensures r.Some? ==> r.value == c[key]
  {
    if key in c then Some(c[key]) else None
  }

  /** `config.get(key, default)`. */
  function GetOr(c: Config, key: string, default: Value): (r: Value)
    ensures key in c ==> r == c[key]
    ensures key !in c ==> r == default
  {
    if key in c then c[key] else default
  }

  /** `bool(config.get(key))`: the key is present with a truthy value. */
  predicate HasTruthy(c: Config, key: string) {
    key in c && Truthy(c[key])
  }

  /** Python's `str(n)` for an integer. */
  function IntToString(i: int): (s: string)
    ensures i >= 0 ==> s == Text.NatToString(i)
    ensures i < 0 ==> s == "-" + Text.NatToString(-i)
  {
    if i >= 0 then Text.NatToString(i) else "-" + Text.NatToString(-i)
  }

  /** Python's `f"{v}"` for the scalar values; containers are shown only by their brackets. */
  function Display(v: Value): string {
    match v
    case Null => "None"
    case Bool(b) => if b then "True" else "False"
    case Int(i) => IntToString(i)
    case Str(s) => s
    case List(_) => "[...]"
    case Dict(_) => "{...}"
  }
}
