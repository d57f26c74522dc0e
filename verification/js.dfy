/**
 * The handful of JavaScript dynamic-value rules lib/Parser.js and tsn.js rely
 * on when they inspect configuration values: `typeof`, truthiness and `String(v)`.
 * Numbers are modelled as integers plus NaN; fractional numbers and the
 * infinities are not part of this model.
 */
module Js {

  datatype Value =
    | Undefined
    | Null
    | Bool(b: bool)
    | Num(n: int)
    | NaN
    | Str(s: string)
    | Arr(items: seq<Value>)   // an array
    | Object                  // a plain object: no `toString` of its own, prototype `Object.prototype`

  /** Assigning to a property named `__proto__` on an ordinary object never
      creates an own property: a primitive value is ignored and an object
      value becomes the object's prototype. */
  const ProtoKey: string := "__proto__"

  /** JavaScript truthiness (`if (v)`). */
  predicate Truthy(v: Value) {
    match v
    case Undefined => false
    case Null => false
    case Bool(b) => b
    case Num(n) => n != 0
    case NaN => false
    case Str(s) => |s| > 0
    case Arr(_) => true
    case Object => true
  }

  /** `typeof v === 'number'`. */
  predicate IsNumber(v: Value) {
    v.Num? || v.NaN?
  }

  /** The decimal digits of a natural number, most significant first. */
  function Digits(n: nat): (r: string)
    ensures |r| > 0
    ensures forall i :: 0 <= i < |r| ==> '0' <= r[i] <= '9'
    decreases n
  {
    var d := [(('0' as int) + n % 10) as char];
    if n < 10 then d else Digits(n / 10) + d
  }

  /** `String(v)`, the conversion a regular expression applies to its argument. */
  function ToStr(v: Value): string {
    match v
    case Undefined => "undefined"
    case Null => "null"
    case Bool(b) => if b then "true" else "false"
    case Num(n) => if n < 0 then "-" + Digits(-n) else Digits(n)
    case NaN => "NaN"
    case Str(s) => s
    case Arr(items) => CommaJoin(seq(|items|, i requires 0 <= i < |items| => if items[i].Undefined? || items[i].Null? then "" else ToStr(items[i])))
    case Object => "[object Object]"
  }

  /** `Array.prototype.join` with its default separator: the element strings
      with a comma between each two. */
  function CommaJoin(parts: seq<string>): (r: string)
    ensures |parts| == 0 ==> r == ""
    ensures |parts| == 1 ==> r == parts[0]
  {
    if |parts| == 0 then ""
    else if |parts| == 1 then parts[0]
    else CommaJoin(parts[..|parts| - 1]) + "," + parts[|parts| - 1]
  }
}
