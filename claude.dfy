/** The Claude usage fetcher (src/providers/claude.ts): the guards in front of
    the request, the request itself, and the mapping of the endpoint's JSON
    into the normalised usage record. The awaited credential lookup, the outcome
    of the HTTP request (response or rejection) and the ISO-date parser are
    inputs. */
module ClaudeProvider {
  import opened Common
  import opened Text
  import Auth

  /** A window of the response: utilisation in percent and an absolute ISO reset instant. */
  datatype UsageWindow = UsageWindow(utilization: real, resets_at: string)

  /** Pay-as-you-go overage; amounts in cents. */
  datatype ExtraUsage = ExtraUsage(is_enabled: bool, monthly_limit: real, used_credits: real, utilization: real)

  /** The JSON body of the usage endpoint. */
  datatype ClaudeUsageResponse = ClaudeUsageResponse(
    five_hour: UsageWindow,
    seven_day: UsageWindow,
    seven_day_sonnet: Option<UsageWindow>,
    seven_day_opus: Option<UsageWindow>,
    extra_usage: Option<ExtraUsage>)

  datatype Window = Window(percent: real, resetsAt: Instant)

  datatype ModelShare = ModelShare(percent: real)

  /** Overage in dollars. */
  datatype Overage = Overage(enabled: bool, used: real, limit: real)

  /** The normalised record the renderer draws. */
  datatype ClaudeUsage = ClaudeUsage(
    fiveHour: Window,
    sevenDay: Window,
    sonnet: Option<ModelShare>,
    opus: Option<ModelShare>,
    extraUsage: Option<Overage>)

  const UsageUrl := "https://api.anthropic.com/api/oauth/usage"
  const BetaHeader := "oauth-2025-04-20"
  const NoAuthMessage := "No Claude auth found"
  const ExpiredMessage := "Claude token expired — re-authenticate with OpenCode"

  function ApiErrorMessage(status: int, statusText: string): string {
    "Claude API error: " + IntToString(status) + " " + statusText
  }

  /** The headers of the usage request. */
  function UsageHeaders(accessToken: string): (h: map<string, string>)
    ensures h.Keys == {"Authorization", "anthropic-beta"}
    ensures h["Authorization"] == "Bearer " + accessToken && h["anthropic-beta"] == BetaHeader
  {
    map["Authorization" := "Bearer " + accessToken, "anthropic-beta" := BetaHeader]
  }

  /** The response-to-record mapping: percents unchanged, reset instants parsed
      from the absolute timestamps, optional parts present exactly when the
      response has them (never defaulted to zero), cents turned into dollars. */
  function MapUsage(data: ClaudeUsageResponse, parseDate: string -> Instant): (r: ClaudeUsage)
    ensures r.fiveHour.percent == data.five_hour.utilization
    ensures r.fiveHour.resetsAt == parseDate(data.five_hour.resets_at)
    ensures r.sevenDay.percent == data.seven_day.utilization
    ensures r.sevenDay.resetsAt == parseDate(data.seven_day.resets_at)
    ensures r.sonnet.Some? <==> data.seven_day_sonnet.Some?
    ensures r.sonnet.Some? ==> r.sonnet.value.percent == data.seven_day_sonnet.value.utilization
    ensures r.opus.Some? <==> data.seven_day_opus.Some?
    ensures r.opus.Some? ==> r.opus.value.percent == data.seven_day_opus.value.utilization
    ensures r.extraUsage.Some? <==> data.extra_usage.Some?
    ensures r.extraUsage.Some? ==>
      && r.extraUsage.value.enabled == data.extra_usage.value.is_enabled
      && r.extraUsage.value.used * 100.0 == data.extra_usage.value.used_credits
      && r.extraUsage.value.limit * 100.0 == data.extra_usage.value.monthly_limit
  {
    ClaudeUsage(
      Window(data.five_hour.utilization, parseDate(data.five_hour.resets_at)),
      Window(data.seven_day.utilization, parseDate(data.seven_day.resets_at)),
      if data.seven_day_sonnet.Some? then Some(ModelShare(data.seven_day_sonnet.value.utilization)) else None,
      if data.seven_day_opus.Some? then Some(ModelShare(data.seven_day_opus.value.utilization)) else None,
      if data.extra_usage.Some?
      then Some(Overage(data.extra_usage.value.is_enabled,
                        data.extra_usage.value.used_credits / 100.0,
                        data.extra_usage.value.monthly_limit / 100.0))
      else None)
  }

  /** `fetchClaudeUsage`, given what `getClaudeAuth` settled with and what the
      request settled with (a rejection such as a refused connection, or a
      response). Guards run in order (lookup failure, missing auth, expired
      token) and each stops before any request; otherwise exactly one request
      goes out, a rejected fetch passes its error on, a non-2xx status rejects
      with the status line, and a 2xx body is mapped. */
  function FetchUsage(auth: Result<Option<Auth.ClaudeAuth>>, response: Result<HttpResponse<ClaudeUsageResponse>>,
                      parseDate: string -> Instant): (r: Fetched<ClaudeUsage>)
    ensures auth.Failure? ==> r == Fetched(None, Failure(auth.error))
    ensures auth == Success(None) ==> r == Fetched(None, Failure(NoAuthMessage))
    ensures auth.Success? && auth.value.Some? && auth.value.value.expired ==> r == Fetched(None, Failure(ExpiredMessage))
    ensures r.request.Some? <==> auth.Success? && auth.value.Some? && !auth.value.value.expired
    ensures r.request.Some? ==> r.request.value == Request(UsageUrl, UsageHeaders(auth.value.value.accessToken))
    ensures r.request.Some? && response.Failure? ==> r.result == Failure(response.error)
    ensures r.request.Some? && response.Success? && !IsOk(response.value.status) ==>
      r.result == Failure(ApiErrorMessage(response.value.status, response.value.statusText))
    ensures r.request.Some? && response.Success? && IsOk(response.value.status) ==>
      r.result == if response.value.body.Success? then Success(MapUsage(response.value.body.value, parseDate))
                  else Failure(response.value.body.error)
  {
    if auth.Failure? then Fetched(None, Failure(auth.error))
    else if auth.value.None? then Fetched(None, Failure(NoAuthMessage))
    else if auth.value.value.expired then Fetched(None, Failure(ExpiredMessage))
    else
      var request := Request(UsageUrl, UsageHeaders(auth.value.value.accessToken));
      if response.Failure? then Fetched(Some(request), Failure(response.error))
      else if !IsOk(response.value.status) then
        Fetched(Some(request), Failure(ApiErrorMessage(response.value.status, response.value.statusText)))
      else if response.value.body.Failure? then Fetched(Some(request), Failure(response.value.body.error))
      else Fetched(Some(request), Success(MapUsage(response.value.body.value, parseDate)))
  }

  /** A rejected request's message carries the status code as printed digits. */
  lemma ApiErrorCarriesStatus(status: nat, statusText: string)
    ensures var msg := ApiErrorMessage(status, statusText);
      var digits := NatToString(status);
      msg[18..18 + |digits|] == digits && ParseNat(msg[18..18 + |digits|]) == status
  {
    ParseNatToString(status);
    var digits := NatToString(status);
    assert ApiErrorMessage(status, statusText) == "Claude API error: " + digits + " " + statusText;
    assert |"Claude API error: "| == 18;
  }
}
