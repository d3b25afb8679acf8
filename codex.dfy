/** The Codex usage fetcher (src/providers/codex.ts): the guards in front of
    the request, the header record built and then extended with the account id,
    and the mapping of the endpoint's JSON into the normalised usage record.
    The awaited credential lookup, the outcome of the HTTP request
    (response or rejection), `Date.now()` and JavaScript's `Number(string)`
    are inputs. */
module CodexProvider {
  import opened Common
  import opened Text
  import Auth

  /** A rate-limit window of the response; the reset is an offset in seconds from now. */
  datatype RateWindow = RateWindow(used_percent: real, limit_window_seconds: int, reset_after_seconds: int, reset_at: int)

  datatype RateLimit = RateLimit(allowed: bool, limit_reached: bool, primary_window: RateWindow, secondary_window: Option<RateWindow>)

  /** `credits.balance` arrives either as a JSON number or as a string. */
  datatype Balance = NumberBalance(n: real) | StringBalance(s: string)

  datatype Credits = Credits(has_credits: bool, unlimited: bool, balance: Balance)

  /** The JSON body of the usage endpoint. */
  datatype CodexResponse = CodexResponse(plan_type: string, rate_limit: RateLimit, credits: Option<Credits>)

  datatype Window = Window(percent: real, resetsAt: Instant)

  datatype CreditInfo = CreditInfo(balance: real, unlimited: bool)

  /** The normalised record the renderer draws. */
  datatype CodexUsage = CodexUsage(planType: string, primary: Window, secondary: Option<Window>, credits: Option<CreditInfo>)

  const UsageUrl := "https://chatgpt.com/backend-api/wham/usage"
  const NoAuthMessage := "No Codex auth found"
  const ExpiredMessage := "Codex token expired — re-authenticate with OpenCode"

  function ApiErrorMessage(status: int, statusText: string): string {
    "Codex API error: " + IntToString(status) + " " + statusText
  }

  /** The request headers: always the bearer token, and the account id header
      exactly when the account id is a non-empty string; nothing else. */
  predicate IsUsageHeaders(auth: Auth.CodexAuth, h: map<string, string>) {
    && h.Keys <= {"Authorization", "ChatGPT-Account-Id"}
    && "Authorization" in h && h["Authorization"] == "Bearer " + auth.accessToken
    && ("ChatGPT-Account-Id" in h <==> auth.accountId.Some? && auth.accountId.value != "")
    && ("ChatGPT-Account-Id" in h ==> h["ChatGPT-Account-Id"] == auth.accountId.value)
  }

  /** Builds the header record, then adds the account id when it is truthy. */
  method BuildHeaders(auth: Auth.CodexAuth) returns (headers: map<string, string>)
    ensures IsUsageHeaders(auth, headers)
  {
    headers := map["Authorization" := "Bearer " + auth.accessToken];
    if auth.accountId.Some? && auth.accountId.value != "" {
      headers := headers["ChatGPT-Account-Id" := auth.accountId.value];
    }
  }

  /** `Number(balance) || 0`: the numeric value, or 0 when it is not a number
      (`toNumber` yields None where `Number` yields NaN) or is zero. */
  function CreditBalance(b: Balance, toNumber: string -> Option<real>): (r: real)
    ensures r == 0.0 <==> match b
      case NumberBalance(n) => n == 0.0
      case StringBalance(s) => toNumber(s).None? || toNumber(s).value == 0.0
    ensures r != 0.0 ==> match b
      case NumberBalance(n) => r == n
      case StringBalance(s) => toNumber(s) == Some(r)
  {
    match b
    case NumberBalance(n) => n
    case StringBalance(s) => if toNumber(s).Some? then toNumber(s).value else 0.0
  }

  /** The instant `seconds` after `now`, in milliseconds. */
  function ResetInstant(now: int, seconds: int): (r: Instant)
    ensures r.At? && (r.ms - now) % 1000 == 0 && (r.ms - now) / 1000 == seconds
  {
    At(now + seconds * 1000)
  }

  /** The response-to-record mapping: plan and percents unchanged, reset
      instants relative to `now`, the secondary window and the credits present
      exactly when the response has them. */
  function MapUsage(data: CodexResponse, now: int, toNumber: string -> Option<real>): (r: CodexUsage)
    ensures r.planType == data.plan_type
    ensures r.primary.percent == data.rate_limit.primary_window.used_percent
    ensures r.primary.resetsAt == At(now + data.rate_limit.primary_window.reset_after_seconds * 1000)
    ensures r.secondary.Some? <==> data.rate_limit.secondary_window.Some?
    ensures r.secondary.Some? ==>
      && r.secondary.value.percent == data.rate_limit.secondary_window.value.used_percent
      && r.secondary.value.resetsAt == At(now + data.rate_limit.secondary_window.value.reset_after_seconds * 1000)
    ensures r.credits.Some? <==> data.credits.Some?
    ensures r.credits.Some? ==>
      && r.credits.value.unlimited == data.credits.value.unlimited
      && r.credits.value.balance == CreditBalance(data.credits.value.balance, toNumber)
  {
    var primary := data.rate_limit.primary_window;
    var secondary := data.rate_limit.secondary_window;
    CodexUsage(
      data.plan_type,
      Window(primary.used_percent, ResetInstant(now, primary.reset_after_seconds)),
      if secondary.Some? then Some(Window(secondary.value.used_percent, ResetInstant(now, secondary.value.reset_after_seconds))) else None,
      if data.credits.Some? then Some(CreditInfo(CreditBalance(data.credits.value.balance, toNumber), data.credits.value.unlimited)) else None)
  }

  /** `fetchCodexUsage`, given what `getCodexAuth` settled with, what the
      request settled with (a rejection such as a refused connection, or a
      response) and the clock. Guards run in order (lookup failure, missing
      auth, expired token) and each stops before any request; otherwise exactly
      one request goes out, a rejected fetch passes its error on, a non-2xx
      status rejects with the status line, and a 2xx body is mapped. */
  method FetchUsage(auth: Result<Option<Auth.CodexAuth>>, response: Result<HttpResponse<CodexResponse>>,
                    now: int, toNumber: string -> Option<real>) returns (r: Fetched<CodexUsage>)
    ensures auth.Failure? ==> r == Fetched(None, Failure(auth.error))
    ensures auth == Success(None) ==> r == Fetched(None, Failure(NoAuthMessage))
    ensures auth.Success? && auth.value.Some? && auth.value.value.expired ==> r == Fetched(None, Failure(ExpiredMessage))
    ensures r.request.Some? <==> auth.Success? && auth.value.Some? && !auth.value.value.expired
    ensures r.request.Some? ==>
      r.request.value.url == UsageUrl && IsUsageHeaders(auth.value.value, r.request.value.headers)
    ensures r.request.Some? && response.Failure? ==> r.result == Failure(response.error)
    ensures r.request.Some? && response.Success? && !IsOk(response.value.status) ==>
      r.result == Failure(ApiErrorMessage(response.value.status, response.value.statusText))
    ensures r.request.Some? && response.Success? && IsOk(response.value.status) ==>
      r.result == if response.value.body.Success? then Success(MapUsage(response.value.body.value, now, toNumber))
                  else Failure(response.value.body.error)
  {
    if auth.Failure? {
      return Fetched(None, Failure(auth.error));
    }
    if auth.value.None? {
      return Fetched(None, Failure(NoAuthMessage));
    }
    var credentials := auth.value.value;
    if credentials.expired {
      return Fetched(None, Failure(ExpiredMessage));
    }
    var headers := BuildHeaders(credentials);
    var request := Request(UsageUrl, headers);
    if response.Failure? {
      return Fetched(Some(request), Failure(response.error));
    }
    var answer := response.value;
    if !IsOk(answer.status) {
      return Fetched(Some(request), Failure(ApiErrorMessage(answer.status, answer.statusText)));
    }
    if answer.body.Failure? {
      return Fetched(Some(request), Failure(answer.body.error));
    }
    return Fetched(Some(request), Success(MapUsage(answer.body.value, now, toNumber)));
  }
}
