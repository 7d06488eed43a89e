/**
 * JSON values as serde_json represents them, with the two accessors the gateway
 * uses: indexing (`v["k"]`, which yields null for a missing field or a non-object)
 * and `get` (which yields None instead).
 */
module JsonValue {
  import opened Wrappers

  datatype Json =
    | JNull
    | JBool(b: bool)
    | JInt(i: int)       // a JSON number held as an integer (u64 / i64)
    | JFloat(f: real)    // a JSON number held as an f64
    | JStr(s: string)
    | JArr(items: seq<Json>)
    | JObj(fields: Fields)

  /** The fields of a JSON object. */
  type Fields = map<string, Json>

  /** `value[key]` on an object: the field, or null when it is absent. */
  function Get(m: Fields, key: string): (r: Json)
    ensures key !in m ==> r == JNull
  {
    if key in m then m[key] else JNull
  }

  /** `value.get(key)` on an object. */
  function Lookup(m: Fields, key: string): (r: Option<Json>)
    ensures r.Some? <==> key in m
  {
    if key in m then Some(m[key]) else None
  }

  /** `value[key]` on any JSON value: null unless the value is an object holding the key. */
  function Field(j: Json, key: string): (r: Json)
    ensures !j.JObj? ==> r == JNull
  {
    match j
    case JObj(m) => Get(m, key)
    case _ => JNull
  }

  /** `value.get(key)` on any JSON value. */
  function FieldOpt(j: Json, key: string): (r: Option<Json>)
    ensures r.Some? <==> j.JObj? && key in j.fields
  {
    match j
    case JObj(m) => Lookup(m, key)
    case _ => None
  }

  /** `as_f64`: every JSON number converts, nothing else does. */
  function AsF64(j: Json): (r: Option<real>)
    ensures r.Some? <==> j.JInt? || j.JFloat?
  {
    match j
    case JInt(i) => Some(i as real)
    case JFloat(f) => Some(f)
    case _ => None
  }

  /** `as_u64` succeeds. */
  predicate IsU64(j: Json)
  {
    j.JInt? && 0 <= j.i < 0x1_0000_0000_0000_0000
  }

  /** `as_array().unwrap()` followed by `as_str().unwrap()` on every element succeeds. */
  predicate IsStrArray(j: Json)
  {
    j.JArr? && forall i | 0 <= i < |j.items| :: j.items[i].JStr?
  }
}
