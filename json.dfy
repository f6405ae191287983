/** The values `response.json()` and `json.loads` hand to the scripts. */
module JsonValues {

  /** A decoded JSON document as Python sees it; JSON numbers are integers here. */
  datatype Json =
    | JNull
    | JBool(b: bool)
    | JNum(n: int)
    | JStr(s: string)
    | JArr(items: seq<Json>)
    | JObj(fields: map<string, Json>)

  /** Python's `bool(v)` on a decoded JSON value. */
  predicate Truthy(v: Json) {
    match v
    case JNull => false
    case JBool(b) => b
    case JNum(n) => n != 0
    case JStr(s) => s != ""
    case JArr(items) => items != []
    case JObj(fields) => fields != map[]
  }

  /** Python's `d.get(key, default)` on a JSON object. */
  function Get(fields: map<string, Json>, key: string, default: Json): Json {
    if key in fields then fields[key] else default
  }

  /** `d.get(key)` is truthy only for a key that is present, and then the
      object itself is truthy. */
  lemma GetTruthy(fields: map<string, Json>, key: string, default: Json)
    requires !Truthy(default) && Truthy(Get(fields, key, default))
    ensures key in fields && Truthy(fields[key]) && Truthy(JObj(fields))
  {
    assert key in fields.Keys;
  }

  /** `type(v).__name__` of a decoded JSON value, as it appears in the
      messages of the errors Python raises on it. */
  function TypeName(v: Json): string {
    match v
    case JNull => "NoneType"
    case JBool(_) => "bool"
    case JNum(_) => "int"
    case JStr(_) => "str"
    case JArr(_) => "list"
    case JObj(_) => "dict"
  }

  /** `v[key]` along a path through nested objects, `null` where the path
      leaves the document. */
  function At(v: Json, key: string): Json {
    if v.JObj? && key in v.fields then v.fields[key] else JNull
  }

  /** `v[i]` of an array, `null` where there is no such item. */
  function Item(v: Json, i: nat): Json {
    if v.JArr? && i < |v.items| then v.items[i] else JNull
  }

  /** The keys of an object (none for any other value). */
  function Keys(v: Json): set<string> {
    if v.JObj? then v.fields.Keys else {}
  }
}
