/**
 * The JSON values a request body can carry, and the two JavaScript tests the
 * playlist-order route applies to them: truthiness (`!newOrder`) and
 * `Array.isArray`.
 */
module JsValues {
  import opened Optional

  /** A parsed JSON value. Numbers are integers here; no decision depends on a fractional part. */
  datatype Json =
    | JNull
    | JBool(b: bool)
    | JNumber(n: int)
    | JString(s: string)
    | JArray(items: seq<Json>)
    | JObject(fields: seq<(string, Json)>)

  /** JavaScript truthiness of a possibly-absent value (`None` is `undefined`). */
  predicate Truthy(v: Option<Json>) {
    match v
    case None => false
    case Some(JNull) => false
    case Some(JBool(b)) => b
    case Some(JNumber(n)) => n != 0
    case Some(JString(s)) => s != ""
    case Some(JArray(_)) => true
    case Some(JObject(_)) => true
  }

  /** `Array.isArray(v)`. */
  predicate IsArray(v: Option<Json>) {
    v.Some? && v.value.JArray?
  }
}
