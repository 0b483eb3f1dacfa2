/** JSON values and the accessors the console uses on them. */
module Json {
  import opened Wrappers

  datatype Number = PosInt(n: nat) | NegInt(i: int) | Float(x: real)

  datatype Json =
    | Null
    | Bool(b: bool)
    | Num(num: Number)
    | Str(s: string)
    | Arr(items: seq<Json>)
    | Obj(fields: map<string, Json>)

  // Value::get with a key: only objects have fields.
  function Field(j: Json, key: string): Option<Json> {
    if j.Obj? && key in j.fields then Some(j.fields[key]) else None
  }

  function OrElse<T>(a: Option<T>, b: Option<T>): Option<T> {
    if a.Some? then a else b
  }

  function Then(o: Option<Json>, key: string): Option<Json> {
    if o.Some? then Field(o.value, key) else None
  }

  function AsStr(o: Option<Json>): Option<string> {
    if o.Some? && o.value.Str? then Some(o.value.s) else None
  }

  function AsNat(o: Option<Json>): Option<nat> {
    if o.Some? && o.value.Num? && o.value.num.PosInt? then Some(o.value.num.n) else None
  }

  function AsBool(o: Option<Json>): Option<bool> {
    if o.Some? && o.value.Bool? then Some(o.value.b) else None
  }

  function UnwrapOr<T>(o: Option<T>, default: T): T {
    if o.Some? then o.value else default
  }

  function StrOr(j: Json, key: string, default: string): string {
    UnwrapOr(AsStr(Field(j, key)), default)
  }
}
