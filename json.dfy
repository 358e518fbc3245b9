/**
 * Parsed JSON request bodies, JavaScript truthiness of the values read from
 * them, and the issues a `zod` schema reports when a body does not fit it.
 */
module Json {
  import opened Wrappers

  /** A value produced by `request.json()`. Numbers are JavaScript numbers, modelled as reals. */
  datatype Json =
    | JNull
    | JBool(b: bool)
    | JNum(n: real)
    | JStr(s: string)
    | JArr(items: seq<Json>)
    | JObj(fields: map<string, Json>)

  /** `body.key`: `None` (JavaScript's `undefined`) for a missing key or a body that is not an object. */
  function Field(body: Json, key: string): Option<Json> {
    if body.JObj? && key in body.fields then Some(body.fields[key]) else None
  }

  /** JavaScript truthiness of a value read from a body, `None` being `undefined`. */
  predicate Truthy(v: Option<Json>) {
    match v
    case None => false
    case Some(JNull) => false
    case Some(JBool(b)) => b
    case Some(JNum(n)) => n != 0.0
    case Some(JStr(s)) => s != ""
    case Some(_) => true
  }

  /** The kinds of issue a `zod` schema reports. */
  datatype IssueCode =
    | InvalidType       // wrong type, or the key is missing ("Required")
    | TooSmall          // below a `.min` bound
    | TooBig            // above a `.max` bound
    | InvalidEnumValue  // a string outside a `z.enum`

  /** One entry of a `ZodError`'s `errors` list: the offending key ("" for the body itself) and what is wrong. */
  datatype Issue = Issue(path: string, code: IssueCode)

  /** `z.number()` on `body[key]`: one issue if it is missing or not a number. */
  function NumberIssues(body: Json, key: string): seq<Issue> {
    if Field(body, key).Some? && Field(body, key).value.JNum? then [] else [Issue(key, InvalidType)]
  }

  /** `z.string()` on `body[key]`. */
  function StringIssues(body: Json, key: string): seq<Issue> {
    if Field(body, key).Some? && Field(body, key).value.JStr? then [] else [Issue(key, InvalidType)]
  }
}
