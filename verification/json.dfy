/** Decoded JSON values, as Go's encoding/json produces them for `interface{}` targets. */
module Json {
  import opened Wrappers

  /** Numbers are kept as mathematical reals: float64 rounding is not modelled. */
  datatype Value =
    | Null
    | Bool(b: bool)
    | Number(n: real)
    | Str(s: string)
    | Array(items: seq<Value>)
    | Object(fields: map<string, Value>)

  /** The key lookup `m[key]` followed by the type assertion `.(string)`. */
  function StringField(fields: map<string, Value>, key: string): (r: Option<string>)
    ensures r.Some? <==> key in fields && fields[key].Str?
    ensures r.Some? ==> fields[key] == Str(r.value)
  {
    if key in fields && fields[key].Str? then Some(fields[key].s) else None
  }

  /** The key lookup `m[key]` followed by the type assertion `.(float64)`. */
  function NumberField(fields: map<string, Value>, key: string): (r: Option<real>)
    ensures r.Some? <==> key in fields && fields[key].Number?
    ensures r.Some? ==> fields[key] == Number(r.value)
  {
    if key in fields && fields[key].Number? then Some(fields[key].n) else None
  }
}
