/** JSON values as Python's `json` module produces and consumes them, and the
    few pieces of Python semantics the serialization code relies on:
    `dict.get` with a default, truthiness, and the substring test `p in s`. */
module Json {

  /** A JSON value. Integers and floats share one real-valued case. */
  datatype Json =
    | JNull
    | JBool(b: bool)
    | JNumber(n: real)
    | JString(s: string)
    | JArray(items: seq<Json>)
    | JObject(fields: map<string, Json>)

  /** A dict with string keys, such as the one `dataclasses.asdict` returns. */
  type FieldMap = map<string, Json>

  /** `m.get(key, default)` */
  function Get(m: FieldMap, key: string, default: Json): Json {
    if key in m then m[key] else default
  }

  /** Python's `bool(v)`: null, false, zero and empty containers are false. */
  predicate Truthy(v: Json) {
    match v
    case JNull => false
    case JBool(b) => b
    case JNumber(n) => n != 0.0
    case JString(s) => s != ""
    case JArray(items) => items != []
    case JObject(fields) => |fields| != 0
  }

  /** Python's `p in s` on two strings: `p` occurs in `s` as a substring. */
  predicate Contains(s: string, p: string)
    decreases |s|
  {
    p <= s || (|s| > 0 && Contains(s[1..], p))
  }

  /** A list of field maps as a JSON array of objects, in the same order. */
  function Objects(maps: seq<FieldMap>): seq<Json> {
    seq(|maps|, i requires 0 <= i < |maps| => JObject(maps[i]))
  }
}
