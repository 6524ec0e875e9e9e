/**
 * The values `json.loads` produces, and the two operations the assistant
 * applies to them: Python truthiness and `dict.get`.
 */
module Json {

  /** A decoded JSON document: None, bool, number, str, list or dict. */
  datatype JsonValue =
    | JNull
    | JBool(b: bool)
    | JNumber(n: real)
    | JString(s: string)
    | JArray(items: seq<JsonValue>)
    | JObject(fields: map<string, JsonValue>)

  /** Python's `bool(v)`: None, False, zero and empty containers are false. */
  predicate Truthy(v: JsonValue) {
    match v
    case JNull => false
    case JBool(b) => b
    case JNumber(n) => n != 0.0
    case JString(s) => s != []
    case JArray(items) => items != []
    case JObject(fields) => fields != map[]
  }

  /** `d.get(key, default)` on a dict. */
  function FieldOr(fields: map<string, JsonValue>, key: string, default: JsonValue): JsonValue {
    if key in fields then fields[key] else default
  }

  /** `d.get(key)`: a missing key reads as None. */
  function Field(fields: map<string, JsonValue>, key: string): JsonValue {
    FieldOr(fields, key, JNull)
  }
}
