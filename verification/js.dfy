/** The JSON field values the route handlers read, with the JavaScript
    conversions they apply to them. */
module Js {

  import opened Common

  /** A field of a parsed request body. `Other` stands for a number, boolean,
      array or object: the handlers only ever ask whether it is truthy and
      what `String(v)` makes of it. */
  datatype JsVal = Undefined | Null | Str(s: string) | Other(truthy: bool, text: string)

  /** JavaScript truthiness: `null`, `undefined` and `""` are falsy. */
  predicate Truthy(v: JsVal) {
    match v
    case Undefined => false
    case Null => false
    case Str(s) => s != []
    case Other(t, _) => t
  }

  /** `String(v)`. */
  function ToText(v: JsVal): string {
    match v
    case Undefined => "undefined"
    case Null => "null"
    case Str(s) => s
    case Other(_, t) => t
  }

  /** `String(v ?? "")`: a missing value reads as the empty string. */
  function TextOrEmpty(v: JsVal): (r: string)
    ensures v.Str? ==> r == v.s
    ensures v.Undefined? || v.Null? ==> r == []
    ensures v.Other? ==> r == v.text
  {
    if v.Undefined? || v.Null? then [] else ToText(v)
  }

  /** The JSON encoding of an optional string: `null` when absent. */
  function FromOption(o: Option<string>): (v: JsVal)
    ensures o.Some? <==> v.Str?
    ensures o.Some? ==> v.s == o.value
  {
    match o
    case Some(s) => Str(s)
    case None => Null
  }
}
