/**
  The dynamically typed values that travel through the pipeline as the
  fields of Python dicts and DataFrame cells.
 */
module Values {

  datatype Value =
    | Null
    | Str(s: string)
    | Int(i: int)
    | StrList(items: seq<string>)
    | Date(year: int, month: int, day: int)
    /** A `datetime` at the given day and time of day in seconds. */
    | DateTime(year: int, month: int, day: int, seconds: int)
    | Tuple(elems: seq<Value>)
    | Dict(entries: map<string, Value>)
    /** The string `json.dumps` produces for the value; the encoding itself is not modelled. */
    | Json(of: Value)

  /** A dict with string keys: a result map, a data row or a message payload. */
  type Record = map<string, Value>

  /** Python truthiness of a value. */
  predicate Truthy(v: Value) {
    match v
    case Null => false
    case Str(s) => s != []
    case Int(i) => i != 0
    case StrList(items) => items != []
    case Tuple(elems) => elems != []
    case Dict(entries) => entries != map[]
    case _ => true
  }

  /** `d.get(key)`: the value stored under `key`, or None. */
  function Get(d: Record, key: string): (v: Value)
    ensures key !in d ==> v == Null
    ensures key in d ==> v == d[key]
  {
    if key in d then d[key] else Null
  }

  /** A string value or None, as the Option-typed ledger columns hold it. */
  function StrOrNull(v: Value): Value {
    match v
    case Str(_) => v
    case _ => Null
  }
}
