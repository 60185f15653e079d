/**
 * Parsed request bodies: the values a JSON or URL-encoded body parser
 * hands to a route, and the two JavaScript operations the routes apply to
 * them, property reads and truthiness tests.
 */
module JsonValues {
  import opened Results

  datatype Json =
    | JNull
    | JBool(b: bool)
    | JNum(n: real)
    | JStr(s: string)
    | JArr(elems: seq<Json>)
    | JObj(fields: map<string, Json>)

  /**
   * `v.key` for a value that is not null (reading a property of null
   * throws): the field of an object, and `undefined` (None) otherwise.
   */
  function Member(v: Json, key: string): Option<Json>
    requires !v.JNull?
  {
    if v.JObj? && key in v.fields then Some(v.fields[key]) else None
  }

  /** JavaScript truthiness of a property read; `undefined` is falsy. */
  predicate Truthy(v: Option<Json>)
  {
    match v
    case None => false
    case Some(j) =>
      match j
      case JNull => false
      case JBool(b) => b
      case JNum(n) => n != 0.0
      case JStr(s) => s != ""
      case _ => true
  }
}
