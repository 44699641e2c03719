/**
 * A JSON document as Python's `json` module hands it over (`resp.json()`),
 * and the two ways the code looks into one: subscripting (`data["key"]`,
 * `data[0]`) and `dict.get(key, default)`.
 */
module Json {

  /** A parsed JSON value. Numbers are kept as integers: no arithmetic is done on them. */
  datatype Json =
    | JNull
    | JBool(b: bool)
    | JNumber(n: int)
    | JString(s: string)
    | JArray(items: seq<Json>)
    | JObject(fields: map<string, Json>)

  /**
   * The outcome of one Python subscript: a value, a `KeyError`/`IndexError`
   * (the key or index is absent) or a `TypeError` (the value cannot be
   * subscripted that way).
   */
  datatype Lookup = Found(value: Json) | Missing | NotSubscriptable

  /** `v[key]` for a string key. Only a dict can be indexed by a string. */
  function GetKey(v: Json, key: string): (r: Lookup)
    ensures r.Found? <==> v.JObject? && key in v.fields
    ensures r.Found? ==> r.value == v.fields[key]
    ensures r.Missing? <==> v.JObject? && key !in v.fields
  {
    match v
    case JObject(fields) => if key in fields then Found(fields[key]) else Missing
    case _ => NotSubscriptable
  }

  /**
   * `v[0]`. A list or a string is indexed by position; a dict is looked up
   * under the integer key 0, which JSON objects never have.
   */
  function GetFirst(v: Json): (r: Lookup)
    ensures r.Found? <==> (v.JArray? && |v.items| > 0) || (v.JString? && |v.s| > 0)
    ensures r.Found? && v.JArray? ==> r.value == v.items[0]
    ensures r.Found? && v.JString? ==> r.value == JString(v.s[..1])
    ensures r.NotSubscriptable? <==> !(v.JArray? || v.JString? || v.JObject?)
  {
    match v
    case JArray(items) => if |items| > 0 then Found(items[0]) else Missing
    case JString(s) => if |s| > 0 then Found(JString(s[..1])) else Missing
    case JObject(_) => Missing
    case _ => NotSubscriptable
  }

}
