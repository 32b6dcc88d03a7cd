/** JavaScript values as the UI's Redux stores hold them, and the two
    operations the reducers need: truthiness and reading a property. */
module Json {
  import opened Results

  datatype Value =
    | Undefined
    | Null
    | Bool(b: bool)
    | Num(n: real)
    | Str(s: string)
    | Arr(items: seq<Value>)
    | Obj(fields: map<string, Value>)

  /** A store's state: an object from key to value. */
  type Store = map<string, Value>

  /** `false`, `0`, `""`, `null` and `undefined` are falsy; every other value
      is truthy. */
  predicate Truthy(v: Value) {
    match v
    case Undefined => false
    case Null => false
    case Bool(b) => b
    case Num(n) => n != 0.0
    case Str(s) => s != ""
    case Arr(_) => true
    case Obj(_) => true
  }

  /** `!v`. */
  function Not(v: Value): (r: Value)
    ensures r.Bool? && (Truthy(r) <==> !Truthy(v))
  {
    Bool(!Truthy(v))
  }

  /** `state[key]`, `undefined` when the key is absent. */
  function Get(state: Store, key: string): Value {
    if key in state then state[key] else Undefined
  }

  datatype TypeError = CannotReadProperty(key: string)

  /** `v[key]`: reading a property of `undefined` or `null` throws. Only
      reading `data` off a response is modelled, so any other value that is
      not an object answers `undefined` (the inherited properties of strings
      and arrays, such as `length`, are not modelled). */
  function Property(v: Value, key: string): (r: Result<Value, TypeError>)
    ensures r.Err? <==> v == Undefined || v == Null
    ensures v.Obj? ==> r == Ok(Get(v.fields, key))
  {
    match v
    case Undefined => Err(CannotReadProperty(key))
    case Null => Err(CannotReadProperty(key))
    case Obj(fields) => Ok(Get(fields, key))
    case _ => Ok(Undefined)
  }
}
