/** JSON values as serde_json holds them, and 64-bit floats with the cases validation tells apart. */
module Json {
  import opened Wrappers

  const I64_LIMIT: int := 0x8000_0000_0000_0000
  const U64_LIMIT: int := 0x1_0000_0000_0000_0000

  predicate IsI64(i: int) { -I64_LIMIT <= i < I64_LIMIT }

  predicate IsU64(i: int) { 0 <= i < U64_LIMIT }

  /** A float is a finite number, and rounding is not modelled; or it is one of the others. */
  datatype F64 = NaN | Infinite(negative: bool) | Finite(value: real)

  /** An object's keys are distinct, so it is a map. Numbers are either integers or finite floats. */
  datatype Json =
    | Null
    | Bool(b: bool)
    | Int(i: int)
    | Float(r: real)
    | Str(s: string)
    | Arr(items: seq<Json>)
    | Obj(members: map<string, Json>)

  /** Numbers other than finite ones have no JSON form and turn into null. */
  function FromF64(f: F64): Json {
    if f.Finite? then Float(f.value) else Null
  }

  /** Value::as_f64 */
  function AsF64(j: Json): Option<F64> {
    match j
    case Int(i) => Some(Finite(i as real))
    case Float(r) => Some(Finite(r))
    case _ => None
  }

  /** The member `key` of an object; nothing has no members. */
  function Member(j: Json, key: string): Option<Json> {
    if j.Obj? && key in j.members then Some(j.members[key]) else None
  }
}
