/** Values shared by the three services: optional values, HTTP errors raised
    by the handlers, handler outcomes and the JSON values that travel between
    the orders and customers services. */
module Http {

  datatype Option<+T> = None | Some(value: T)

  /** An `HTTPException(status_code, detail)` raised by a handler. */
  datatype HttpError = HttpError(status: int, detail: string)

  /** What a handler returns: a record, or the error it raised. */
  datatype Result<+T> = Ok(value: T) | Err(error: HttpError)

  /** A handler run against a store: the store afterwards and the reply. */
  datatype Handled<S, T> = Handled(state: S, result: Result<T>)

  const StatusOk := 200
  const StatusCreated := 201
  const StatusBadRequest := 400
  const StatusNotFound := 404

  /** A decoded JSON document. Numbers are integers here; see README. */
  datatype Json =
    | JNull
    | JBool(b: bool)
    | JNumber(n: int)
    | JString(s: string)
    | JArray(items: seq<Json>)
    | JObject(fields: map<string, Json>)

  /** Python's truth value of the object `json.loads` produces for `v`:
      `None`, `False`, `0` and empty strings, lists and dicts are false, and
      every other value is true. */
  function Truthy(v: Json): (t: bool)
    ensures !t <==> v in {JNull, JBool(false), JNumber(0), JString(""), JArray([]), JObject(map[])}
  {
    match v
    case JNull => false
    case JBool(b) => b
    case JNumber(n) => n != 0
    case JString(s) => |s| != 0
    case JArray(items) => |items| != 0
    case JObject(fields) => |fields| != 0
  }
}
