/**
 * The small part of JavaScript's value semantics that the NOC services rely on:
 * JSON-like answers of external services, `undefined`, truthiness, `a || b`,
 * property reads that may throw, and the TypeError a service handler rejects with.
 */
module Js {

  /** A JSON-like value as answered by a whois registry or another service. */
  datatype Value =
    | Num(n: int)
    | Text(s: string)
    | List(items: seq<Value>)
    | Object(fields: map<string, Value>)

  /** `None` stands for `undefined` (or `null`): a missing property or an empty answer. */
  datatype Option<+T> = None | Some(value: T)

  /** The only exception the modelled code can raise by itself. */
  datatype Error = TypeError(reason: string)

  /** The outcome of code that may throw. */
  datatype Result<+T> = Ok(value: T) | Threw(error: Error)

  /** JavaScript truthiness of a possibly-undefined value. */
  predicate Truthy(v: Option<Value>)
  {
    match v
    case None => false
    case Some(Num(n)) => n != 0
    case Some(Text(s)) => s != ""
    case Some(_) => true
  }

  /** `a || b`: the left operand when it is truthy, otherwise the right one. */
  function Or(a: Option<Value>, b: Option<Value>): Option<Value>
  {
    if Truthy(a) then a else b
  }

  /** Property read `o.key` on a plain object. */
  function Get(o: map<string, Value>, key: string): (r: Option<Value>)
    ensures r.Some? <==> key in o
    ensures key in o ==> r.value == o[key]
  {
    if key in o then Some(o[key]) else None
  }

  /**
   * Property read `v.key` where `v` may be undefined: reading from undefined
   * throws a TypeError; a number, a string or an array has none of the
   * registry field names as own property, so the read yields undefined.
   */
  function Member(v: Option<Value>, key: string): (r: Result<Option<Value>>)
    ensures r.Threw? <==> v.None?
    ensures v.Some? && v.value.Object? ==> r == Ok(Get(v.value.fields, key))
  {
    match v
    case None => Threw(TypeError("Cannot read properties of undefined"))
    case Some(Object(fields)) => Ok(Get(fields, key))
    case Some(_) => Ok(None)
  }
}
