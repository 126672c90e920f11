/**
 * The dynamic values that request bodies, database rows and LLM output hold,
 * with the JavaScript operators the routes apply to them: truthiness, `||`,
 * `??`, optional property reads and `String(v)`.
 */
module Js {

  import opened Wrappers
  import opened Text

  /** A JSON-like value. Numbers are integers (money in whole units). */
  datatype Value =
    | Undefined
    | Null
    | Bool(b: bool)
    | Num(n: int)
    | Str(s: string)
    | Arr(elems: seq<Value>)
    | Obj(fields: map<string, Value>)

  /**
   * What a `throw` carries: an `Error` instance with its message, or any other
   * value (Supabase throws its plain error objects, which have a `message` field).
   */
  datatype Thrown = ErrorInstance(message: string) | Raised(value: Value)

  /** A parsed request body or a table row: named columns. */
  type Row = map<string, Value>

  /** JavaScript truthiness (`NaN` does not arise: numbers are integers). */
  predicate Truthy(v: Value) {
    match v
    case Undefined => false
    case Null => false
    case Bool(b) => b
    case Num(n) => n != 0
    case Str(s) => s != ""
    case Arr(_) => true
    case Obj(_) => true
  }

  predicate IsNullish(v: Value) {
    v.Undefined? || v.Null?
  }

  /** `a || b` */
  function Or(a: Value, b: Value): (r: Value)
    ensures Truthy(a) ==> r == a
    ensures !Truthy(a) ==> r == b
  {
    if Truthy(a) then a else b
  }

  /** `a ?? b` */
  function Coalesce(a: Value, b: Value): (r: Value)
    ensures !IsNullish(a) ==> r == a
    ensures IsNullish(a) ==> r == b
  {
    if IsNullish(a) then b else a
  }

  /** A missing column of a row reads as `undefined`. */
  function Col(row: Row, key: string): (r: Value)
    ensures key !in row ==> r == Undefined
    ensures key in row ==> r == row[key]
  {
    if key in row then row[key] else Undefined
  }

  /** An object as `JSON.stringify` sends it: `undefined` properties are left out. */
  function DropUndefined(m: Row): (r: Row)
    ensures forall k :: Col(r, k) == Col(m, k)
    ensures forall k :: k in r ==> r[k] != Undefined
  {
    map k | k in m && m[k] != Undefined :: m[k]
  }

  /** `v?.key`: a property of an object, `undefined` for anything else. */
  function Get(v: Value, key: string): (r: Value)
    ensures !v.Obj? ==> r == Undefined
    ensures v.Obj? ==> r == Col(v.fields, key)
  {
    if v.Obj? then Col(v.fields, key) else Undefined
  }

  /** The `TypeError` that reading a property of `null` or `undefined` throws. */
  function NullReadError(base: Value, key: string): Thrown
    requires IsNullish(base)
  {
    ErrorInstance("Cannot read properties of " + (if base.Null? then "null" else "undefined") + " (reading '" + key + "')")
  }

  /** `v.key` without optional chaining: throws on `null` and `undefined`. */
  function Read(v: Value, key: string): (r: Result<Value, Thrown>)
    ensures IsNullish(v) <==> r.Failure?
    ensures !IsNullish(v) ==> r.value == Get(v, key)
  {
    if IsNullish(v) then Failure(NullReadError(v, key)) else Success(Get(v, key))
  }

  /** The elements of an array, or none for any other value. */
  function Elements(v: Value): (r: seq<Value>)
    ensures v.Arr? ==> r == v.elems
    ensures !v.Arr? ==> r == []
  {
    if v.Arr? then v.elems else []
  }

  /** `v.length` for a non-null `v`: arrays and strings have one, an object may carry one, anything else gives `undefined`. */
  function LengthOf(v: Value): (r: Value)
    ensures v.Arr? ==> r == Num(|v.elems|)
    ensures v.Str? ==> r == Num(|v.s|)
    ensures v.Obj? ==> r == Col(v.fields, "length")
    ensures !v.Arr? && !v.Str? && !v.Obj? ==> r == Undefined
  {
    match v
    case Arr(es) => Num(|es|)
    case Str(s) => Num(|s|)
    case Obj(f) => Col(f, "length")
    case _ => Undefined
  }

  /** `v && v.length > 0` */
  predicate NonEmpty(v: Value) {
    Truthy(v) && LengthOf(v).Num? && LengthOf(v).n > 0
  }

  /** `String(v)`, also what a template literal `${v}` produces. */
  function ToJsString(v: Value): string
    decreases v, 1
  {
    match v
    case Undefined => "undefined"
    case Null => "null"
    case Bool(b) => if b then "true" else "false"
    case Num(n) => IntToString(n)
    case Str(s) => s
    case Arr(es) => JoinElements(es, v)
    case Obj(_) => "[object Object]"
  }

  /** `Array.prototype.join(',')`: `null` and `undefined` elements render as empty. */
  function JoinElements(es: seq<Value>, ghost parent: Value): string
    requires forall i :: 0 <= i < |es| ==> es[i] < parent
    decreases parent, 0, |es|
  {
    if es == [] then ""
    else
      var first := if IsNullish(es[0]) then "" else ToJsString(es[0]);
      if |es| == 1 then first else first + "," + JoinElements(es[1..], parent)
  }
}

/** The response shape shared by the route handlers: an error status with a message, or a body. */
module Http {

  datatype Response<T> = Error(status: nat, message: string) | Ok(body: T)
}
