/**
 * A parsed JSON value as `JSON.parse` hands it to the bridge, and the
 * JavaScript operations the bridge applies to it: property access with and
 * without optional chaining, `??`, truthiness and `typeof`.
 */
module Json {
  import opened Wrappers

  /**
   * Object properties are kept in their enumeration order (the order
   * `Object.values` yields them); `keys[i]` names `vals[i]`. Numbers are kept
   * as integers: the bridge only ever asks whether a value is truthy.
   * Values are results of `JSON.parse`, so an object's keys are distinct
   * and `|keys| == |vals|`; the type does not enforce this. For an object
   * with a repeated key, `Field` reads the first value where `JSON.parse`
   * keeps the last, and `Children` visits both.
   */
  datatype Json =
    | JNull
    | JBool(b: bool)
    | JNum(n: int)
    | JStr(s: string)
    | JArr(items: seq<Json>)
    | JObj(keys: seq<string>, vals: seq<Json>)

  function Field(keys: seq<string>, vals: seq<Json>, key: string): Option<Json>
    decreases |keys|
  {
    if keys == [] || vals == [] then None
    else if keys[0] == key then Some(vals[0])
    else Field(keys[1..], vals[1..], key)
  }

  /** `v.key`: `None` is `undefined`, which is what every non-object gives. */
  function Prop(v: Json, key: string): Option<Json> {
    match v
    case JObj(keys, vals) => Field(keys, vals, key)
    case _ => None
  }

  /** `v?.key`. */
  function Get(v: Option<Json>, key: string): Option<Json> {
    match v
    case Some(j) => Prop(j, key)
    case None => None
  }

  /** `v?.k1?.k2?...`. */
  function GetPath(v: Option<Json>, path: seq<string>): Option<Json>
    decreases |path|
  {
    if path == [] then v else GetPath(Get(v, path[0]), path[1..])
  }

  /** `null` or `undefined`. */
  predicate Nullish(v: Option<Json>) {
    v.None? || v.value.JNull?
  }

  /** `a ?? b`. */
  function Coalesce(a: Option<Json>, b: Option<Json>): Option<Json> {
    if Nullish(a) then b else a
  }

  /** JavaScript truthiness; `undefined` is falsy. */
  predicate Truthy(v: Option<Json>) {
    match v
    case None => false
    case Some(j) =>
      match j
      case JNull => false
      case JBool(b) => b
      case JNum(n) => n != 0
      case JStr(s) => s != ""
      case _ => true
    }

  /** `!!v && typeof v === 'object'`: arrays and objects. */
  predicate IsObject(v: Json) {
    v.JArr? || v.JObj?
  }

  /** The string, when `typeof v === 'string'`. */
  function AsString(v: Option<Json>): Option<string> {
    match v
    case Some(JStr(s)) => Some(s)
    case _ => None
  }

  /** The array elements, or the object's values in enumeration order. */
  function Children(v: Json): (r: seq<Json>)
    ensures forall k :: 0 <= k < |r| ==> r[k] < v
  {
    match v
    case JArr(items) => items
    case JObj(_, vals) => vals
    case _ => []
  }
}
