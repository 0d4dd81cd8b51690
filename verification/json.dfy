/**
 * A request body after `req.json()`: the untyped value the validators inspect.
 * Numbers are kept as integers; no member of the core reads a number.
 */
module Json {
  import opened Wrappers

  datatype JsonValue =
    | JNull
    | JBool(b: bool)
    | JNumber(n: int)
    | JString(s: string)
    | JArray(items: seq<JsonValue>)
    | JObject(fields: map<string, JsonValue>)

  /**
   * `readJson`: a body that could not be parsed (None) is read as `null`,
   * so malformed JSON reaches the validators as a missing body.
   */
  function ReadJson(parsed: Option<JsonValue>): (v: JsonValue)
    ensures parsed.None? ==> v == JNull
    ensures parsed.Some? ==> v == parsed.value
  {
    match parsed
    case None => JNull
    case Some(v) => v
  }

  /**
   * `typeof v === "object" && v !== null` (equivalently, for parsed JSON,
   * `v && typeof v === "object"`). Arrays are objects too; they carry none of
   * the named members the services look up.
   */
  predicate IsObject(v: JsonValue)
  {
    v.JArray? || v.JObject?
  }

  /** `(v as Record<string, unknown>)[name]`, with None standing for `undefined`. */
  function Field(v: JsonValue, name: string): Option<JsonValue>
  {
    if v.JObject? && name in v.fields then Some(v.fields[name]) else None
  }

  /** The member `name` of `v` when `typeof v[name] === "string"`. */
  function StringField(v: JsonValue, name: string): (r: Option<string>)
    ensures r.Some? <==> IsObject(v) && Field(v, name).Some? && Field(v, name).value.JString?
    ensures r.Some? ==> Field(v, name) == Some(JString(r.value))
  {
    match Field(v, name)
    case Some(JString(s)) => Some(s)
    case _ => None
  }
}
