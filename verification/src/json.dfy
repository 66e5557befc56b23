/**
 * JSON documents as the tool holds them in memory after `json.load`:
 * the cache file, version templates and matrix files. Object key order is
 * not represented.
 */
module Json {
  import opened Wrappers

  datatype Json =
    | JNull
    | JBool(b: bool)
    | JNum(n: int)
    | JStr(s: string)
    | JArr(items: seq<Json>)
    | JObj(fields: map<string, Json>)

  /** A top-level JSON object: a cache file, a template or a matrix document. */
  type Doc = map<string, Json>

  /** `d.get(key)`: the stored value, `None` when the key is missing. */
  function Get(d: map<string, Json>, key: string): (j: Json)
    ensures key in d ==> j == d[key]
    ensures key !in d ==> j == JNull
  {
    if key in d then d[key] else JNull
  }

  /** Python truthiness of the decoded value. */
  predicate Truthy(j: Json)
  {
    match j
    case JNull => false
    case JBool(b) => b
    case JNum(n) => n != 0
    case JStr(s) => s != ""
    case JArr(items) => items != []
    case JObj(fields) => fields != map[]
  }

  /** An optional string as stored in a document: `None` becomes `null`. */
  function OptStr(o: Option<string>): (j: Json)
    ensures o.None? <==> j == JNull
    ensures o.Some? ==> j == JStr(o.value)
  {
    match o
    case None => JNull
    case Some(s) => JStr(s)
  }

  /** A list of strings as a JSON array. */
  function StrList(xs: seq<string>): (j: Json)
    ensures j.JArr? && |j.items| == |xs|
    ensures forall i :: 0 <= i < |xs| ==> j.items[i] == JStr(xs[i])
  {
    JArr(seq(|xs|, i requires 0 <= i < |xs| => JStr(xs[i])))
  }
}
