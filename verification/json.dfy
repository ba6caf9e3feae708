/**
 The dynamically typed values the modelled code handles: parsed JSON
 documents (bookmark files, search API responses) and the `dict` payloads
 stored alongside vectors. Only integral numbers are represented.
 */
module Json {

  datatype Json =
    | JNull
    | JBool(b: bool)
    | JNum(n: int)
    | JStr(s: string)
    | JArr(items: seq<Json>)
    | JObj(fields: map<string, Json>)

  /** A Python `dict` with string keys. */
  type Dict = map<string, Json>

  /** Python's `d.get(key, default)`: the stored value when the key is present, whatever it is. */
  function Get(d: Dict, key: string, default: Json): (v: Json)
    ensures key in d ==> v == d[key]
    ensures key !in d ==> v == default
  {
    if key in d then d[key] else default
  }
}
