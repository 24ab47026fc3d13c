/**
  JSON documents at the level of detail the configuration readers look at.

  A document is a map from member names to values. The conversions follow
  the JsonCpp accessors the program calls (`asInt`, `asBool`, `asString`):
  a null member converts to the type's zero, compatible scalars convert,
  and anything else makes the accessor throw, which is modelled as `Throws`.
*/
module Json {

  datatype Value =
    | Null
    | Bool(b: bool)
    | Int(i: int)
    | Str(s: string)
    | Other            // arrays, objects and reals: never read by the program

  type Doc = map<string, Value>

  /** The outcome of a conversion: a value, or the exception it throws. */
  datatype Conv<T> = Ok(value: T) | Throws

  const MinInt32: int := -0x8000_0000
  const MaxInt32: int := 0x7fff_ffff

  predicate InInt32(x: int) {
    MinInt32 <= x <= MaxInt32
  }

  /** `root["key"]` on a document: a missing member reads as null. */
  function Member(d: Doc, key: string): Value {
    if key in d then d[key] else Null
  }

  /** `Value::asInt()`: the result always fits in 32 bits. */
  function AsInt(v: Value): (r: Conv<int>)
    ensures r.Ok? ==> InInt32(r.value)
    ensures r.Ok? <==> v.Null? || v.Bool? || (v.Int? && InInt32(v.i))
    ensures v.Int? && InInt32(v.i) ==> r == Ok(v.i)
  {
    match v
    case Null => Ok(0)
    case Bool(b) => Ok(if b then 1 else 0)
    case Int(i) => if InInt32(i) then Ok(i) else Throws
    case Str(_) => Throws
    case Other => Throws
  }

  /** `Value::asBool()`. */
  function AsBool(v: Value): (r: Conv<bool>)
    ensures r.Ok? <==> v.Null? || v.Bool? || v.Int?
    ensures v.Bool? ==> r == Ok(v.b)
  {
    match v
    case Null => Ok(false)
    case Bool(b) => Ok(b)
    case Int(i) => Ok(i != 0)
    case Str(_) => Throws
    case Other => Throws
  }

  /** `Value::asString()`. */
  function AsString(v: Value): (r: Conv<string>)
    ensures r.Ok? <==> v.Null? || v.Bool? || v.Str?
    ensures v.Str? ==> r == Ok(v.s)
  {
    match v
    case Null => Ok("")
    case Bool(b) => Ok(if b then "true" else "false")
    case Str(s) => Ok(s)
    case Int(_) => Throws
    case Other => Throws
  }
}
