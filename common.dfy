/** Shared vocabulary of the booking domain: optional values, the JavaScript
    truthiness rules the handlers use on optional request fields, and the
    error replies the route handlers return. */
module Common {

  datatype Option<+T> = None | Some(value: T)

  /** The kinds of error reply a route handler sends. */
  datatype ErrorKind = Unauthorized | Forbidden | NotFound | BadRequest | Conflict | Internal

  /** The HTTP status that goes with each error kind. */
  function StatusCode(k: ErrorKind): (code: int)
    ensures 400 <= code <= 500
    ensures code == 401 <==> k == Unauthorized
    ensures code == 500 <==> k == Internal
  {
    match k
    case Unauthorized => 401
    case Forbidden => 403
    case NotFound => 404
    case BadRequest => 400
    case Conflict => 409
    case Internal => 500
  }

  /** A handler's reply: a JSON value, or an error kind with its message. */
  datatype Response<+T> = Ok(value: T) | Fail(kind: ErrorKind, message: string)

  /** A date field of a request body after `new Date(...)`: absent or empty
      (falsy), present but not a date (`isNaN(getTime())`), or a time in
      milliseconds. */
  datatype DateField = NoDate | BadDate | At(time: int)

  /** A numeric body field read through `parseInt`: left out of the body
      (`undefined`), or given, with `parseInt`'s result (`None` for NaN). */
  datatype NumInput = Undefined | Given(parsed: Option<int>)

  /** `x` is truthy in JavaScript: present and not the empty string. */
  predicate Truthy(x: Option<string>)
  {
    x.Some? && x.value != ""
  }

  /** `x || fallback` for an optional string. */
  function Or(x: Option<string>, fallback: string): (r: string)
    ensures Truthy(x) ==> r == x.value
    ensures !Truthy(x) ==> r == fallback
  {
    if Truthy(x) then x.value else fallback
  }

  /** `n || fallback` for the result of `parseInt`: NaN (None) and 0 are falsy. */
  function OrNumber(n: Option<int>, fallback: int): (r: int)
    ensures n.Some? && n.value != 0 ==> r == n.value
    ensures (n.None? || n.value == 0) ==> r == fallback
  {
    if n.Some? && n.value != 0 then n.value else fallback
  }
}
