/**
  JavaScript values as the plugin loader sees them.

  A loaded plugin module is an object: a map from property names to values.
  A property that is not set reads as `undefined`. Numbers are integers
  (floating point, NaN and infinities are not modelled); functions and other
  objects are known only by their identity.
 */
module JsValues {

  datatype Option<T> = None | Some(value: T)

  datatype Value =
    | Undefined
    | Null
    | Bool(b: bool)
    | Num(n: int)
    | Str(s: string)
    | Fn(id: nat)      // a callable object
    | Obj(id: nat)     // any other object

  /** A loaded module: its own enumerable properties. */
  type Module = map<string, Value>

  /** `obj[key]`: the property's value, or `undefined` when it is not set. */
  function Get(obj: Module, key: string): Value
  {
    if key in obj then obj[key] else Undefined
  }

  /** JavaScript truthiness (the test behind `x || y`). */
  predicate Truthy(v: Value)
  {
    match v
    case Undefined => false
    case Null => false
    case Bool(b) => b
    case Num(n) => n != 0
    case Str(s) => s != ""
    case Fn(_) => true
    case Obj(_) => true
  }

  /** `a || b`: `a` when it is truthy, otherwise `b`. */
  function Or(a: Value, b: Value): Value
  {
    if Truthy(a) then a else b
  }
}
