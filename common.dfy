/** Shapes shared by the credential lookup, the two usage fetchers and the
    renderer: optional values, thrown errors, instants and HTTP exchanges. */
module Common {

  /** A value that may be absent (a TypeScript `T | undefined` or `T | null`). */
  datatype Option<+T> = None | Some(value: T)

  /** The outcome of an operation that may throw: the thrown error's message on failure. */
  datatype Result<+T> = Success(value: T) | Failure(error: string)

  /** A JavaScript `Date`: milliseconds since the epoch, or the invalid date that
      `new Date` yields for a string it cannot parse (an object that is still truthy). */
  datatype Instant = At(ms: int) | InvalidDate

  /** The one GET request a fetcher issues: its URL and its headers. */
  datatype Request = Request(url: string, headers: map<string, string>)

  /** What `fetch` resolves to: status line and the outcome of `res.json()`. */
  datatype HttpResponse<+B> = HttpResponse(status: int, statusText: string, body: Result<B>)

  /** A fetcher's observable behaviour: the request it issued, if any, and what it
      resolved or rejected with. */
  datatype Fetched<+T> = Fetched(request: Option<Request>, result: Result<T>)

  /** `Response.ok`: the status is in the range 200-299. */
  predicate IsOk(status: int) {
    200 <= status <= 299
  }

  function Max(a: int, b: int): int {
    if a >= b then a else b
  }

  function MaxReal(a: real, b: real): real {
    if a >= b then a else b
  }
}
