/** JSON values as `json.loads` returns them, with Python's truthiness, for
    the JSON-LD payloads a page embeds. */
module JsonValues {
  /** A parsed JSON value. An object is a map: a key repeated in the text
      keeps its last value, as with `json.loads`. */
  datatype Json =
    | JNull
    | JBool(b: bool)
    | JNumber(n: real)
    | JString(s: string)
    | JArray(elems: seq<Json>)
    | JObject(members: map<string, Json>)

  /** One extracted `<script type="application/ld+json">` payload: the value
      it parses to, or `Malformed` when `json.loads` raises a decode error. */
  datatype Payload = Parsed(json: Json) | Malformed

  /** Python's `bool(v)` for the value `json.loads` produces: `None`,
      `False`, zero, and empty strings, lists and dicts are false. */
  predicate Truthy(v: Json)
    ensures !Truthy(v) <==> v in {JNull, JBool(false), JNumber(0.0), JString(""), JArray([]), JObject(map[])}
  {
    match v
    case JNull => false
    case JBool(b) => b
    case JNumber(n) => n != 0.0
    case JString(s) => s != ""
    case JArray(elems) => elems != []
    case JObject(members) => members != map[]
  }

  /** `d.get(key, default)`. */
  function GetOr(members: map<string, Json>, key: string, default: Json): Json
  {
    if key in members then members[key] else default
  }

  /** Truthiness of `d.get(key)`, where a missing key yields the false `None`. */
  predicate TruthyAt(members: map<string, Json>, key: string)
    ensures TruthyAt(members, key) <==> Truthy(GetOr(members, key, JNull))
  {
    key in members && Truthy(members[key])
  }
}
