/** Python values as the extraction pipeline sees them: decoded JSON documents,
    their truth values, `dict.get`, and the exceptions that can escape. */
module Values {

  datatype Option<T> = None | Some(value: T)

  /** The exception classes the modelled code raises. */
  datatype PyError =
    | KeyError(key: string)
    | TypeError
    | AttributeError
    | ValueError

  /** A Python call either returns a value or raises. */
  datatype Result<T> = Ok(value: T) | Raised(error: PyError)

  /** What an HTTP request gives the caller once `raise_for_status()` and
      `.json()` have run: a decoded body, or a `RequestException` (connection
      failure, non-2xx status, or a body that is not JSON, which `requests`
      raises as a `RequestException` subclass from
      version 2.27 on). */
  datatype Response = Transport | Body(json: Json)

  /** A decoded JSON document; numbers are restricted to integers. */
  datatype Json =
    | JNull
    | JBool(b: bool)
    | JNum(n: int)
    | JStr(s: string)
    | JArr(items: seq<Json>)
    | JObj(fields: map<string, Json>)

  /** Python's truth value of a decoded document (`bool(x)`). */
  predicate Truthy(j: Json) {
    match j
    case JNull => false
    case JBool(b) => b
    case JNum(n) => n != 0
    case JStr(s) => s != ""
    case JArr(items) => items != []
    case JObj(fields) => fields != map[]
  }

  /** `d.get(key)`: None (JSON null) when the key is absent. */
  function Get(fields: map<string, Json>, key: string): Json {
    if key in fields then fields[key] else JNull
  }

  function DigitChar(d: nat): char
    requires d < 10
  {
    "0123456789"[d]
  }

  /** Decimal digits of a natural number, most significant first. */
  function NatDigits(n: nat): (s: string)
    ensures |s| >= 1
    ensures forall i :: 0 <= i < |s| ==> '0' <= s[i] <= '9'
    decreases n
  {
    if n < 10 then [DigitChar(n)] else NatDigits(n / 10) + [DigitChar(n % 10)]
  }

  /** `str(x)` as used by an f-string. Scalars are rendered as Python does;
      a list or an object is rendered by a fixed placeholder. */
  function Render(j: Json): string {
    match j
    case JNull => "None"
    case JBool(b) => if b then "True" else "False"
    case JNum(n) => if n < 0 then "-" + NatDigits(-n) else NatDigits(n)
    case JStr(s) => s
    case JArr(_) => "[...]"
    case JObj(_) => "{...}"
  }
}
