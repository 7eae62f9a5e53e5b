/**
 * The JavaScript values the backend scripts read out of parsed JSON, and the
 * handful of JavaScript operations on them that the core relies on:
 * truthiness, `a || b`, property reads, `typeof` and the binding of
 * `undefined` as an SQL parameter.
 */
module JsValues {

  datatype Option<T> = None | Some(value: T)

  /**
   * A value produced by `JSON.parse`. Numbers are JavaScript numbers, kept as
   * exact reals: `JSON.parse` never yields NaN or an infinity. An object maps
   * each key to its value (a duplicated key in the text keeps its last value).
   */
  datatype Json =
    | JNull
    | JBool(b: bool)
    | JNum(x: real)
    | JStr(s: string)
    | JArr(items: seq<Json>)
    | JObj(fields: map<string, Json>)

  /**
   * The property read `v.key`, with None standing for `undefined`. Only
   * objects carry the property names the core reads; arrays, strings,
   * numbers and booleans have none of them. (Reading a property of `null`
   * throws a TypeError; callers that can meet `null` handle it first.)
   */
  function Prop(v: Json, key: string): (r: Option<Json>)
    ensures r.Some? <==> v.JObj? && key in v.fields
    ensures r.Some? ==> r.value == v.fields[key]
  {
    if v.JObj? && key in v.fields then Some(v.fields[key]) else None
  }

  /** JavaScript truthiness; `undefined` (None) is falsy. */
  predicate Truthy(v: Option<Json>)
  {
    match v
    case None => false
    case Some(j) =>
      match j
      case JNull => false
      case JBool(b) => b
      case JNum(x) => x != 0.0
      case JStr(s) => s != ""
      case JArr(_) => true
      case JObj(_) => true
  }

  /** `v || d`: v when it is truthy, otherwise the default d. */
  function Or(v: Option<Json>, d: Json): (r: Json)
    ensures Truthy(v) ==> Some(r) == v
    ensures !Truthy(v) ==> r == d
  {
    if Truthy(v) then v.value else d
  }

  /** `typeof v === 'number'`. */
  predicate IsNumber(v: Option<Json>)
  {
    v.Some? && v.value.JNum?
  }

  /** `typeof v === 'object' && v !== null`: arrays count as objects. */
  predicate IsObject(v: Option<Json>)
  {
    v.Some? && (v.value.JArr? || v.value.JObj?)
  }

  /** An SQL parameter bound from a JavaScript value: `undefined` is sent as NULL. */
  function Bind(v: Option<Json>): (r: Json)
    ensures v.Some? ==> r == v.value
    ensures v.None? ==> r == JNull
  {
    if v.Some? then v.value else JNull
  }

  /** A JSON number with no fractional part. */
  predicate IsInteger(v: Json)
  {
    v.JNum? && v.x.Floor as real == v.x
  }

  /** The integer a JSON integer stands for. */
  function IntOf(v: Json): int
    requires IsInteger(v)
  {
    v.x.Floor
  }

  /** The JSON number for an integer. */
  function Num(n: int): (r: Json)
    ensures IsInteger(r) && IntOf(r) == n
  {
    JNum(n as real)
  }
}
