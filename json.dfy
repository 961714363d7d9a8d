/**
 * A decoded JSON payload and the Python idioms the webhook handler reads it
 * with: truthiness, `dict.get(key, default)`, `(value or {})` and `str(value)`.
 */
module Json {
  import opened Text

  datatype Json =
    | Null
    | Bool(b: bool)
    | Int(n: int)
    | Str(s: string)
    | Array(items: seq<Json>)
    | Object(fields: map<string, Json>)

  /** Python truthiness: `None`, `False`, `0`, `""`, `[]` and `{}` are false. */
  predicate Truthy(v: Json)
    ensures !Truthy(v) <==> v in {Null, Bool(false), Int(0), Str(""), Array([]), Object(map[])}
  {
    match v
    case Null => false
    case Bool(b) => b
    case Int(n) => n != 0
    case Str(s) => s != ""
    case Array(items) => items != []
    case Object(fields) => fields != map[]
  }

  /** `obj.get(key, default)`; `obj.get(key)` is `Get(obj, key, Null)`. */
  function Get(obj: map<string, Json>, key: string, default: Json): Json {
    if key in obj then obj[key] else default
  }

  /** A value that `(value or {})` can follow with `.get`: a dictionary, or falsy. */
  predicate ObjectOrFalsy(v: Json) {
    Truthy(v) ==> v.Object?
  }

  /** A value that is a string whenever it is truthy. */
  predicate StringOrFalsy(v: Json) {
    Truthy(v) ==> v.Str?
  }

  /** `(value or {})`, used as a dictionary. */
  function AsObject(v: Json): (m: map<string, Json>)
    requires ObjectOrFalsy(v)
    ensures m != map[] ==> v == Object(m)
  {
    if Truthy(v) then v.fields else map[]
  }

  /** The values `str` renders without a container repr. */
  predicate IsScalar(v: Json) {
    !v.Array? && !v.Object?
  }

  /** `str(value)` for a JSON scalar. */
  function PyStr(v: Json): (r: string)
    requires IsScalar(v)
    ensures v.Str? ==> r == v.s
    ensures v.Int? && v.n >= 0 ==> AllDigits(r) && DecimalValue(r) == v.n
  {
    match v
    case Null => "None"
    case Bool(b) => if b then "True" else "False"
    case Int(n) => if n < 0 then "-" + Decimal(-n) else Decimal(n)
    case Str(s) => s
  }
}
