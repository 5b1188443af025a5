/** The JSON values that the pipeline's records carry, and Python's
    `dict.get(key, default)` over them. */
module Json {

  /** A JSON scalar as `json.loads` returns it (floats, lists and nested
      objects do not occur in the records this model reads). */
  datatype Value = Str(s: string) | Int(i: int) | Bool(b: bool) | Null

  /** A JSON object read from one line of a `.jsonl` file. */
  type Object = map<string, Value>

  /** Python's `d.get(key, default)`. */
  function Get<V>(d: map<string, V>, key: string, default: V): (v: V)
    ensures key in d ==> v == d[key]
    ensures key !in d ==> v == default
  {
    if key in d then d[key] else default
  }
}
