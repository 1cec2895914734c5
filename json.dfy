/** JSON values as the main process sees them after `JSON.parse`, with
    JavaScript's truthiness and the optional-chaining lookups
    (`v?.key`, `v?.[0]`) the core uses on them. */
module Json {
  import opened Wrappers

  /** A JSON value. Numbers are modelled as integers. */
  datatype Json =
    | JNull
    | JBool(b: bool)
    | JNum(n: int)
    | JStr(s: string)
    | JArr(items: seq<Json>)
    | JObj(fields: map<string, Json>)

  /** `Boolean(v)`: false exactly for null, false, 0 and the empty string. */
  predicate Truthy(v: Json) {
    match v
    case JNull => false
    case JBool(b) => b
    case JNum(n) => n != 0
    case JStr(s) => s != ""
    case JArr(_) => true
    case JObj(_) => true
  }

  /** `Boolean(v)` where `v` may also be `undefined` (None). */
  predicate TruthyOpt(v: Option<Json>) {
    v.Some? && Truthy(v.value)
  }

  /** `v?.[key]` for a JSON value: only objects have own properties here. */
  function Get(v: Option<Json>, key: string): (r: Option<Json>)
    ensures r.Some? <==> v.Some? && v.value.JObj? && key in v.value.fields
    ensures r.Some? ==> r.value == v.value.fields[key]
  {
    match v
    case Some(JObj(m)) => if key in m then Some(m[key]) else None
    case _ => None
  }

  /** `v?.[0]`: the first element of an array, or the property "0" of an object. */
  function First(v: Option<Json>): (r: Option<Json>)
    ensures v.Some? && v.value.JArr? ==> (r.Some? <==> v.value.items != [])
    ensures v.Some? && v.value.JArr? && v.value.items != [] ==> r == Some(v.value.items[0])
    ensures v.Some? && v.value.JObj? ==> r == Get(v, "0")
    ensures v.None? || !(v.value.JArr? || v.value.JObj?) ==> r.None?
  {
    match v
    case Some(JArr(items)) => if items != [] then Some(items[0]) else None
    case Some(JObj(_)) => Get(v, "0")
    case _ => None
  }

  /** `a || b` on JSON values: `a` when it is truthy, otherwise `b`. */
  function OrElse(a: Option<Json>, b: Json): (r: Json)
    ensures TruthyOpt(a) ==> Some(r) == a
    ensures !TruthyOpt(a) ==> r == b
  {
    if TruthyOpt(a) then a.value else b
  }
}
