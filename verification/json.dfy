/** The JSON values `json.loads` returns, and the few Python operations the
    client applies to them. */
module Json {
  import opened Wrappers
  import opened Varint
  import PyInt

  /** A decoded JSON document. Objects are dictionaries with unique keys;
      numbers are integers. */
  datatype Value =
    | JNull
    | JBool(b: bool)
    | JNum(n: int)
    | JStr(s: string)
    | JArr(items: seq<Value>)
    | JObj(fields: map<string, Value>)

  /** The library calls whose behaviour is not modelled: `loads` stands for
      `json.loads(data.decode("utf-8"))` (`None` when either raises) and
      `repr` for `str()` of a list or a dictionary. */
  datatype Library = Library(loads: seq<byte> -> Option<Value>, repr: Value -> string)

  /** Python truthiness, as `if status:` tests it. */
  predicate Truthy(v: Value) {
    match v
    case JNull => false
    case JBool(b) => b
    case JNum(n) => n != 0
    case JStr(s) => s != ""
    case JArr(items) => items != []
    case JObj(fields) => fields != map[]
  }

  /** `v[key]` with a string key: only an object holding the key answers;
      a missing key raises `KeyError` and any other value `TypeError`. */
  function Lookup(v: Value, key: string): (r: Option<Value>)
    ensures r.Some? <==> v.JObj? && key in v.fields
    ensures r.Some? ==> r.value == v.fields[key]
  {
    if v.JObj? && key in v.fields then Some(v.fields[key]) else None
  }

  /** `str(v)`, as an f-string formats a field. */
  function Str(v: Value, lib: Library): (r: string)
    ensures v.JStr? ==> r == v.s
    ensures v.JNum? ==> PyInt.ParseInt(r) == Some(v.n)
  {
    match v
    case JNull => "None"
    case JBool(b) => if b then "True" else "False"
    case JNum(n) => PyInt.ParseIntDecimal(n); PyInt.Decimal(n)
    case JStr(s) => s
    case _ => lib.repr(v)
  }
}
