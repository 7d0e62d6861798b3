/** The slice of JavaScript value semantics the feed handlers rely on: parsed
    JSON values, truthiness, the `||` operator, property access, strict
    equality and the IEEE "not a number" value that `parseFloat` can return.
 */
module Js {

  datatype Option<+T> = None | Some(value: T)

  /** A value produced by `JSON.parse`, plus `undefined` for a missing
      property or array slot. JSON numbers are read as exact reals. */
  datatype Value =
    | Undefined
    | Null
    | Bool(b: bool)
    | Num(n: real)
    | Str(s: string)
    | Arr(items: seq<Value>)
    | Obj(fields: map<string, Value>)

  /** ECMAScript ToBoolean. */
  predicate Truthy(v: Value) {
    match v
    case Undefined => false
    case Null => false
    case Bool(b) => b
    case Num(n) => n != 0.0
    case Str(s) => s != ""
    case Arr(_) => true
    case Obj(_) => true
  }

  /** `x || y`: the left operand when it is truthy, otherwise the right one. */
  function Or(x: Value, y: Value): Value {
    if Truthy(x) then x else y
  }

  /** `v.key` for a parsed value. On `null` and `undefined` JavaScript throws
      a TypeError; every handler catches it and drops the frame, which has
      the same effect as reading `undefined` on every path of the model. */
  function Get(v: Value, key: string): Value {
    match v
    case Obj(fields) => if key in fields then fields[key] else Undefined
    case _ => Undefined
  }

  /** `x === y` between a value of a fresh message and a stored value.
      Arrays and objects compare by identity, and every parsed message
      allocates new ones, so they never compare equal. */
  predicate StrictEquals(x: Value, y: Value) {
    match (x, y)
    case (Undefined, Undefined) => true
    case (Null, Null) => true
    case (Bool(a), Bool(b)) => a == b
    case (Num(a), Num(b)) => a == b
    case (Str(a), Str(b)) => a == b
    case _ => false
  }

  function Min(a: nat, b: nat): nat {
    if a <= b then a else b
  }

  /** A JavaScript number as the feed logic sees it: a finite value or NaN. */
  datatype Number = NaN | Finite(r: real)

  /** `x + y` on numbers: NaN absorbs. */
  function Add(x: Number, y: Number): Number {
    match (x, y)
    case (Finite(a), Finite(b)) => Finite(a + b)
    case _ => NaN
  }

  /** `x > 0`: false for NaN. */
  predicate IsPositive(x: Number) {
    x.Finite? && x.r > 0.0
  }

  lemma AddAssociative(x: Number, y: Number, z: Number)
    ensures Add(Add(x, y), z) == Add(x, Add(y, z))
  {
  }

  lemma ConcatAssociative<T>(a: seq<T>, b: seq<T>, c: seq<T>)
    ensures a + (b + c) == (a + b) + c
  {
  }
}
