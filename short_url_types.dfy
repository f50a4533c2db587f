/** Values shared by every part of the short-link service: optional values,
    the exceptions a server action can throw, the outcome of a call that may
    throw, and the payloads that callers submit. */
module ShortUrlTypes {

  datatype Option<+T> = None | Some(value: T)

  /** What a JavaScript `throw` in this code base can carry. */
  datatype Exception =
    /** `new ShortUrlApiError(code, message)`: an Error subclass with a numeric status code. */
    | ApiError(code: int, message: string)
    /** A plain object of shape `{ error: { code, message } }` thrown as is. */
    | ErrorObject(errorCode: string, errorMessage: string)
    /** Any other Error: a TypeError, a DOMException, `new Error(...)`, a driver error. */
    | RuntimeError(name: string, detail: string)

  /** The result of an awaited call: it either returns a value or throws. */
  datatype Outcome<+T> = Returned(value: T) | Threw(exn: Exception)

  /** `unauthorizedError`, the single 401 value every wrapper throws. */
  const UnauthorizedError: Exception := ApiError(401, "Unauthorized")

  const TooShortMessage: string := "Short URL must be at least 4 characters long"
  const BlockedMessage: string := "URL not acceptable or is blocked"
  const ClickLimitMessage: string := "Click limit is not a number"
  const UnderscoreMessage: string := "Short URL cannot start with an underscore"
  const ExistsMessage: string := "Short URL already exists"
  const NotFoundMessage: string := "shortend url not found"

  /** `new Error('Session not found')`. */
  const SessionNotFound: Exception := RuntimeError("Error", "Session not found")
  /** The TypeError `new URL(text)` throws for a string that is not an absolute URL. */
  const InvalidUrl: Exception := RuntimeError("TypeError", "Invalid URL")

  /** The value a JSON payload carries for `clickLimit`. */
  datatype ClickLimit =
    | NoClickLimit              // null or absent
    | NumberLimit(n: int)       // a JSON number
    | TextLimit(text: string)   // a JSON string, which `isNaN` coerces

  /** JavaScript truthiness of a click limit: null, 0 and "" are falsy. */
  predicate ClickLimitTruthy(c: ClickLimit) {
    match c
    case NoClickLimit => false
    case NumberLimit(n) => n != 0
    case TextLimit(t) => t != ""
  }

  /** `ShortUrl`, the body of a create request. */
  datatype ShortUrlPayload = ShortUrlPayload(
    id: Option<string>,
    url: string,
    title: Option<string>,
    enabled: Option<bool>,
    clickLimit: ClickLimit,
    password: Option<string>,
    timeOffset: Option<int>)

  /** `ShortUrlUpdate`, the body of a rename request: `newId` absent is `None`. */
  datatype ShortUrlUpdate = ShortUrlUpdate(
    id: string,
    newId: Option<string>,
    title: Option<string>,
    url: string)

  /** JavaScript truthiness of an optional string: null and "" are falsy. */
  predicate Truthy(x: Option<string>) {
    x.Some? && x.value != ""
  }

  /** `x || y` on an optional string: the first operand unless it is null or "". */
  function OrElse(x: Option<string>, y: string): (r: string)
    ensures x.Some? && x.value != "" ==> r == x.value
    ensures (x.None? || x.value == "") ==> r == y
  {
    if x.Some? && x.value != "" then x.value else y
  }

  /** `s || null` on an optional string: "" becomes null. */
  function OrNull(x: Option<string>): (r: Option<string>)
    ensures r.None? <==> (x.None? || x.value == "")
    ensures r.Some? ==> r == x
  {
    if x.Some? && x.value != "" then x else None
  }
}
