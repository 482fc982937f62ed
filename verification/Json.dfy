/** JSON trees as `serde_json` and `jsonb` hold them. */
module Json {
  import opened Wrappers

  const I64_MIN: int := -0x8000_0000_0000_0000
  const I64_MAX: int := 0x7FFF_FFFF_FFFF_FFFF

  /** `shown` is the literal that `serde_json` writes for a non-integer number. */
  datatype Json =
    | JNull
    | JBool(b: bool)
    | JInt(i: int)
    | JFloat(f: real, shown: string)
    | JString(s: string)
    | JArray(items: seq<Json>)
    | JObject(members: map<string, Json>)
  {
    function AsI64(): Option<int> {
      if JInt? && I64_MIN <= i <= I64_MAX then Some(i) else None
    }

    function AsBool(): Option<bool> {
      if JBool? then Some(b) else None
    }

    function AsStr(): Option<string> {
      if JString? then Some(s) else None
    }

    /** `Value::get` with a string index: only objects answer. */
    function Get(key: string): Option<Json> {
      if JObject? && key in members then Some(members[key]) else None
    }
  }

  function Clamp64(i: int): int {
    if i < I64_MIN then I64_MIN else if i > I64_MAX then I64_MAX else i
  }

  /** `as_i64()`, else `as_f64() as i64`: truncation toward zero that saturates. */
  function AsI64OrTruncated(v: Json): Option<int> {
    match v
    case JInt(i) => Some(Clamp64(i))
    case JFloat(f, _) => Some(Clamp64(if f >= 0.0 then f.Floor else -((-f).Floor)))
    case _ => None
  }
}
