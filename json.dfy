/**
 * The values a request body can carry once the JSON parser has decoded it,
 * together with the `Date` objects the service stores in its records, and
 * the bits of JavaScript semantics the handlers rely on: property access
 * (an absent field reads as `undefined`), truthiness and `typeof`.
 */
module Json {

  import opened Optional

  datatype Value =
    | Null
    | Bool(b: bool)
    | Num(n: int)
    | Str(s: string)
    | Arr(items: seq<Value>)
    | Obj(fields: map<string, Value>)
    | Date(millis: int)

  /** A JavaScript object: the request body, and every stored task record. */
  type Fields = map<string, Value>

  /** `obj.name`: `None` stands for `undefined`. */
  function Get(obj: Fields, name: string): (v: Option<Value>)
    ensures v.Some? <==> name in obj
    ensures v.Some? ==> v.value == obj[name]
  {
    if name in obj then Some(obj[name]) else None
  }

  /** JavaScript truthiness: `undefined`, `null`, `false`, `0` and `""` are falsy. */
  predicate Truthy(v: Option<Value>) {
    match v
    case None => false
    case Some(Null) => false
    case Some(Bool(b)) => b
    case Some(Num(n)) => n != 0
    case Some(Str(s)) => s != ""
    case Some(_) => true
  }

  /** `typeof v === 'string'` */
  predicate IsString(v: Option<Value>) {
    v.Some? && v.value.Str?
  }

  /** `typeof v === 'number'` */
  predicate IsNumber(v: Option<Value>) {
    v.Some? && v.value.Num?
  }

  /** `Array.isArray(v)` */
  predicate IsArray(v: Option<Value>) {
    v.Some? && v.value.Arr?
  }
}
