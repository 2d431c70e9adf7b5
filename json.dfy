/** JSON-like values as the back end receives them from `json.loads`, together
    with the few pieces of Python semantics the animation pipeline relies on:
    truthiness, `isinstance(x, (int, float))` and `dict.get`. */
module Json {

  /** A decoded JSON value. Python's `int` and `float` are both `Num`; an object
      is a map from keys to values (key order never matters to the code modelled). */
  datatype Value =
    | Null
    | Bool(b: bool)
    | Num(n: real)
    | Str(s: string)
    | Arr(items: seq<Value>)
    | Obj(fields: map<string, Value>)

  datatype Option<+T> = None | Some(value: T)

  datatype Result<+T, +E> = Ok(value: T) | Err(error: E)

  /** Python truthiness: `None`, `False`, `0`, `""`, `[]` and `{}` are falsy. */
  predicate Truthy(v: Value) {
    match v
    case Null => false
    case Bool(b) => b
    case Num(n) => n != 0.0
    case Str(s) => s != ""
    case Arr(items) => items != []
    case Obj(fields) => fields != map[]
  }

  /** `isinstance(v, (int, float))`; `bool` is a subclass of `int` in Python. */
  predicate IsNumber(v: Value) {
    v.Bool? || v.Num?
  }

  /** The numeric value Python uses in comparisons and arithmetic. */
  function NumValue(v: Value): real
    requires IsNumber(v)
  {
    if v.Num? then v.n else if v.b then 1.0 else 0.0
  }

  /** Values Python can look up in a dict or set; lists and dicts raise TypeError. */
  predicate Hashable(v: Value) {
    !v.Arr? && !v.Obj?
  }

  /** `fields.get(key, default)`: a key holding JSON null yields `Null`, not the default. */
  function Get(fields: map<string, Value>, key: string, default: Value): (v: Value)
    ensures key in fields ==> v == fields[key]
    ensures key !in fields ==> v == default
  {
    if key in fields then fields[key] else default
  }

  /** `s in names` for a dict or set of string names: only a string can be a member. */
  predicate IsNameIn(v: Value, names: set<string>) {
    v.Str? && v.s in names
  }
}
