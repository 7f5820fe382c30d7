/** Loosely typed values as the front end sees them (parsed JSON, component
    props, API payloads) and the JavaScript coercions applied to them. Python's
    `json.loads` produces the same shapes without `Undefined`. */
module JsValues {
  import opened Text

  /** Numbers are modelled as integers: the values the models inspect are
      indexes, counts and flags. Objects keep their keys in insertion order. */
  datatype Value =
    | Undefined
    | Null
    | Bool(b: bool)
    | Num(n: int)
    | Str(s: string)
    | Arr(items: seq<Value>)
    | Obj(props: seq<(string, Value)>)

  /** The failure of reading a property of `null` or `undefined`, or of
      calling a method a value does not have. */
  const TypeError: string := "TypeError"

  /** Reading a property of these values throws. */
  predicate Nullish(v: Value) { v.Null? || v.Undefined? }

  /** JavaScript truthiness (and, for the JSON shapes, Python's `bool()`
      except that Python treats empty containers as false). */
  predicate Truthy(v: Value) {
    match v
    case Undefined => false
    case Null => false
    case Bool(b) => b
    case Num(n) => n != 0
    case Str(s) => s != ""
    case Arr(_) => true
    case Obj(_) => true
  }

  /** `a || b`: the first operand when it is truthy, else the second. */
  function Or(a: Value, b: Value): (r: Value)
    ensures Truthy(a) ==> r == a
    ensures !Truthy(a) ==> r == b
  {
    if Truthy(a) then a else b
  }

  /** Property lookup: the value of the first property with that key, or `Undefined`. */
  function Get(v: Value, key: string): Value {
    match v
    case Obj(props) => Lookup(props, key)
    case _ => Undefined
  }

  function Lookup(props: seq<(string, Value)>, key: string): (r: Value)
    ensures (forall i :: 0 <= i < |props| ==> props[i].0 != key) ==> r == Undefined
    ensures r != Undefined ==> exists i :: 0 <= i < |props| && props[i] == (key, r)
  {
    if props == [] then Undefined
    else if props[0].0 == key then props[0].1
    else Lookup(props[1..], key)
  }

  /** `key in obj` (Python `in` on a dict, JavaScript own-property test). */
  predicate HasKey(v: Value, key: string) {
    v.Obj? && exists i :: 0 <= i < |v.props| && v.props[i].0 == key
  }

  /** `Object.keys(obj)` for an object. */
  function Keys(props: seq<(string, Value)>): (ks: seq<string>)
    ensures |ks| == |props|
    ensures forall i :: 0 <= i < |props| ==> ks[i] == props[i].0
  {
    if props == [] then [] else [props[0].0] + Keys(props[1..])
  }

  /** JavaScript `String(v)` for the shapes above. */
  function ToJsString(v: Value): string
    decreases v, 1
  {
    match v
    case Undefined => "undefined"
    case Null => "null"
    case Bool(b) => if b then "true" else "false"
    case Num(n) => IntToString(n)
    case Str(s) => s
    case Arr(items) => JoinElements(v, items)
    case Obj(_) => "[object Object]"
  }

  /** `Array.prototype.join(',')`: null and undefined elements print as "". */
  function JoinElements(whole: Value, items: seq<Value>): string
    requires whole.Arr? && forall i :: 0 <= i < |items| ==> items[i] < whole
    decreases whole, 0, |items|
  {
    if items == [] then ""
    else
      var head := if items[0].Null? || items[0].Undefined? then "" else ToJsString(items[0]);
      if |items| == 1 then head else head + "," + JoinElements(whole, items[1..])
  }
}
