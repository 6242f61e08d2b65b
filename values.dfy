// The JSON-shaped values that travel in activity details and verification results.
module Values {

  datatype Value =
    | Str(s: string)
    | Int(i: int)
    | Bool(b: bool)
    | Null
    | List(items: seq<Value>)
    | Object(fields: map<string, Value>)

  /** Python truthiness of the value. */
  predicate Truthy(v: Value) {
    match v
    case Str(s) => s != ""
    case Int(i) => i != 0
    case Bool(b) => b
    case Null => false
    case List(items) => |items| > 0
    case Object(fields) => |fields| > 0
  }

  /** dict.get(key, default). */
  function Get(d: map<string, Value>, key: string, default: Value): Value {
    if key in d then d[key] else default
  }

  /** `d.get(key) == text`: present and equal to that string. */
  predicate HasText(d: map<string, Value>, key: string, text: string) {
    key in d && d[key] == Str(text)
  }
}
