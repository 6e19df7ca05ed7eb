/** The public v1 generate endpoint (apps/web/src/app/api/v1/generate/route.ts):
    the API-key gate, the monthly quota of the caller's subscription plan, and
    the usage row logged with the final status of every call that passes the
    quota check. */
module V1GenerateRoute {
  import opened Strings
  import Encoding
  import RateLimiting
  import DomainChecker
  import ApiAuth
  import ApiKey
  import ApiKeyServer
  import opened Generation

  const Endpoint := "/api/v1/generate"
  const HttpMethod := "POST"
  const FreePlan := "free"
  const ProfessionalPlan := "professional"
  const EnterprisePlan := "enterprise"
  const FreeApiLimit := 0
  const ProfessionalApiLimit := 1000
  const UnauthorizedMessage := "Invalid API key"
  const MonthlyLimitMessage := "Monthly API limit exceeded"

  /** `profile?.subscription_plan || 'free'`; a failed profile read gives no plan. */
  function SubscriptionPlan(profilePlan: Option<string>): (plan: string)
    ensures Truthy(profilePlan) ==> plan == profilePlan.value
    ensures !Truthy(profilePlan) ==> plan == FreePlan
  {
    if Truthy(profilePlan) then profilePlan.value else FreePlan
  }

  /** The entry of the `limits` object for a plan: a number, null (no limit),
      or no own entry at all (undefined, or an inherited Object property). */
  datatype PlanLimit = Limited(n: nat) | Unlimited | NoEntry

  function PlanLimitOf(plan: string): PlanLimit {
    if plan == FreePlan then Limited(FreeApiLimit)
    else if plan == ProfessionalPlan then Limited(ProfessionalApiLimit)
    else if plan == EnterprisePlan then Unlimited
    else NoEntry
  }

  /** `limit !== null && (monthlyUsage || 0) >= limit`. With no own entry the
      comparison is against undefined or a non-number, which is false. */
  predicate QuotaExceeded(limit: PlanLimit, monthlyUsage: Option<nat>) {
    limit.Limited? && (if monthlyUsage.Some? then monthlyUsage.value else 0) >= limit.n
  }

  /** The plan rules: the free plan is always refused, professional from its
      1000th call of the month on, enterprise and unknown plans never. */
  lemma QuotaRules(plan: string, monthlyUsage: Option<nat>)
    ensures plan == FreePlan ==> QuotaExceeded(PlanLimitOf(plan), monthlyUsage)
    ensures plan == ProfessionalPlan ==>
      (QuotaExceeded(PlanLimitOf(plan), monthlyUsage) <==> monthlyUsage.Some? && monthlyUsage.value >= 1000)
    ensures plan !in {FreePlan, ProfessionalPlan} ==> !QuotaExceeded(PlanLimitOf(plan), monthlyUsage)
  {
  }

  /** A caller whose profile cannot be read is treated as free and refused. */
  lemma MissingProfileRefused(monthlyUsage: Option<nat>)
    ensures QuotaExceeded(PlanLimitOf(SubscriptionPlan(None)), monthlyUsage)
  {
  }

  /** The usage rows of one key created since the start of the month. */
  function MonthlyUsage(rows: seq<ApiAuth.UsageRow>, keyId: string, monthStart: int): (n: nat)
    ensures n <= |rows|
  {
    if |rows| == 0 then 0
    else
      var last := rows[|rows| - 1];
      MonthlyUsage(rows[..|rows| - 1], keyId, monthStart)
        + (if last.apiKeyId == keyId && last.createdAt >= monthStart then 1 else 0)
  }

  /** Logging a call this month counts toward the key's usage; logging another
      key's call does not. */
  lemma MonthlyUsageAppend(rows: seq<ApiAuth.UsageRow>, row: ApiAuth.UsageRow, keyId: string, monthStart: int)
    ensures MonthlyUsage(rows + [row], keyId, monthStart)
         == MonthlyUsage(rows, keyId, monthStart) + (if row.apiKeyId == keyId && row.createdAt >= monthStart then 1 else 0)
  {
    assert (rows + [row])[..|rows|] == rows;
  }

  /** The quota message, `${message}. Current usage: ${monthlyUsage}/${limit}`;
      an unread count shows as 'null'. */
  function QuotaMessage(monthlyUsage: Option<nat>, limit: nat): (m: string)
    ensures StartsWith(m, MonthlyLimitMessage)
  {
    var usage := if monthlyUsage.Some? then Encoding.IntToString(monthlyUsage.value) else "null";
    var m := MonthlyLimitMessage + ". Current usage: " + usage + "/" + Encoding.IntToString(limit);
    assert m[..|MonthlyLimitMessage|] == MonthlyLimitMessage;
    m
  }

  function QuotaResponse(monthlyUsage: Option<nat>, limit: nat): (r: Response)
    ensures r.status == StatusTooManyRequests && r.body.Failed? && r.body.error.code == RateLimitExceededCode
  {
    Response(StatusTooManyRequests, Failed(ApiError(RateLimitExceededCode, QuotaMessage(monthlyUsage, limit), None, [])), map[])
  }

  function UnauthorizedResponse(auth: ApiAuth.ValidationResult): (r: Response)
    ensures r.status == StatusUnauthorized && r.body.Failed? && r.body.error.code == UnauthorizedCode
    ensures r.body.error.message == if Truthy(auth.error) then auth.error.value else UnauthorizedMessage
  {
    var message := if Truthy(auth.error) then auth.error.value else UnauthorizedMessage;
    Response(StatusUnauthorized, Failed(ApiError(UnauthorizedCode, message, None, [])), map[])
  }

  /** The generation part, once the quota check passed: the requested count
      is used as is (no cap beyond the schema's 1..4). */
  function Process(body: BodyRead, env: Env, ai: (string, real, string) -> AiOutcome,
                   registrar: string -> DomainChecker.RegistrarReply,
                   suggest: string -> DomainChecker.PriceQuote): (r: Response)
    ensures r.status in {StatusOk, StatusBadRequest, StatusInternalError, StatusTimeout}
    ensures r.status == StatusBadRequest <==> body.Parsed? && ParseRequest(body.json).Rejected?
    ensures r.status == StatusOk <==> Generate(body, RequestedCount, env, ai, registrar, suggest).Succeeded?
  {
    match Generate(body, RequestedCount, env, ai, registrar, suggest)
    case Threw(e) => ErrorResponse(e, env)
    case Succeeded(q, kw, se, s) => Response(StatusOk, Generated(q, kw, se, s), map[])
  }

  /** `POST /api/v1/generate`. The key is checked first (and its
      `last_used_at` set); a refused key gets 401 with nothing logged. Then the
      plan's monthly quota: over quota gets 429, again with nothing logged.
      Every other outcome is logged once with the status it returns; the
      second log a timed-out generation makes when it finishes late is not
      modelled.
      `profilePlan` is the plan read from the caller's profile (None when the
      read fails or the column is empty); `usageReadable` whether the usage
      count could be read; `monthStart` the first instant of the month. */
  method Post(keys: ApiAuth.ApiKeyTable, log: ApiAuth.UsageLog,
              authorization: Option<string>, apiKeyParam: Option<string>, req: RateLimiting.Request,
              sha256: seq<Encoding.Byte> -> seq<Encoding.Byte>, profilePlan: Option<string>,
              usageReadable: bool, monthStart: int, body: BodyRead, env: Env,
              ai: (string, real, string) -> AiOutcome,
              registrar: string -> DomainChecker.RegistrarReply,
              suggest: string -> DomainChecker.PriceQuote, now: int)
    returns (resp: Response)
    modifies keys`rows, log`rows
    ensures var auth := AuthOutcome(authorization, apiKeyParam, old(keys.rows), sha256, keys.clientAvailable, now);
      var key := ApiAuth.ExtractApiKey(authorization, apiKeyParam);
      keys.rows == if auth.valid then
        var h := ApiKeyServer.HashApiKey(sha256, key.value);
        old(keys.rows)[h := old(keys.rows)[h].(lastUsedAt := Some(now))]
      else old(keys.rows)
    ensures var auth := AuthOutcome(authorization, apiKeyParam, old(keys.rows), sha256, keys.clientAvailable, now);
      !auth.valid ==> resp == UnauthorizedResponse(auth) && log.rows == old(log.rows)
    ensures var auth := AuthOutcome(authorization, apiKeyParam, old(keys.rows), sha256, keys.clientAvailable, now);
      auth.valid ==>
        var usage := if usageReadable then Some(MonthlyUsage(old(log.rows), auth.keyId.value, monthStart)) else None;
        var limit := PlanLimitOf(SubscriptionPlan(profilePlan));
        && (QuotaExceeded(limit, usage) ==> resp == QuotaResponse(usage, limit.n) && log.rows == old(log.rows))
        && (!QuotaExceeded(limit, usage) ==>
              && resp == Process(body, env, ai, registrar, suggest)
              && log.rows == if Truthy(auth.keyId) && log.accepting
                 then old(log.rows) + [ApiAuth.UsageRow(auth.keyId.value, Endpoint, HttpMethod, resp.status,
                                                        ApiAuth.UsageIp(req), ApiAuth.UsageAgent(req), now)]
                 else old(log.rows))
  {
    var authResult := keys.RequireApiKey(authorization, apiKeyParam, sha256, now);
    if !authResult.valid {
      return UnauthorizedResponse(authResult);
    }
    var keyId := authResult.keyId;
    var subscriptionPlan := SubscriptionPlan(profilePlan);
    var monthlyUsage := if usageReadable then Some(MonthlyUsage(log.rows, keyId.value, monthStart)) else None;
    var limit := PlanLimitOf(subscriptionPlan);
    if QuotaExceeded(limit, monthlyUsage) {
      return QuotaResponse(monthlyUsage, limit.n);
    }
    resp := Process(body, env, ai, registrar, suggest);
    if Truthy(keyId) {
      log.LogApiUsage(keyId.value, Endpoint, HttpMethod, resp.status, req, now);
    }
  }

  /** The validation outcome `requireApiKey` returns. */
  function AuthOutcome(authorization: Option<string>, apiKeyParam: Option<string>,
                       rows: map<string, ApiAuth.ApiKeyRow>, sha256: seq<Encoding.Byte> -> seq<Encoding.Byte>,
                       clientAvailable: bool, now: int): ApiAuth.ValidationResult
  {
    var key := ApiAuth.ExtractApiKey(authorization, apiKeyParam);
    if !Truthy(key) then ApiAuth.Rejected(ApiAuth.RequiredError)
    else ApiAuth.Validate(rows, sha256, clientAvailable, key.value, now)
  }

  /** Without a well-formed key that is stored and unexpired, the answer is 401. */
  lemma UnauthorizedWithoutValidKey(authorization: Option<string>, apiKeyParam: Option<string>,
                                    rows: map<string, ApiAuth.ApiKeyRow>, sha256: seq<Encoding.Byte> -> seq<Encoding.Byte>,
                                    clientAvailable: bool, now: int)
    ensures var key := ApiAuth.ExtractApiKey(authorization, apiKeyParam);
      AuthOutcome(authorization, apiKeyParam, rows, sha256, clientAvailable, now).valid ==>
        && Truthy(key)
        && var h := ApiKeyServer.HashApiKey(sha256, key.value);
           ApiKey.MatchesPattern(key.value) && h in rows && !ApiAuth.Expired(rows[h], now)
  {
    var key := ApiAuth.ExtractApiKey(authorization, apiKeyParam);
    if Truthy(key) {
      ApiAuth.ValidateAccepts(rows, sha256, clientAvailable, key.value, now);
    }
  }

  /** A rejected body still counts: a logged 400 adds one to the key's usage
      for the month. */
  lemma ValidationFailureCounts(rows: seq<ApiAuth.UsageRow>, keyId: string, req: RateLimiting.Request,
                                monthStart: int, now: int)
    requires monthStart <= now
    ensures MonthlyUsage(rows + [ApiAuth.UsageRow(keyId, Endpoint, HttpMethod, StatusBadRequest,
                                                  ApiAuth.UsageIp(req), ApiAuth.UsageAgent(req), now)], keyId, monthStart)
         == MonthlyUsage(rows, keyId, monthStart) + 1
  {
    MonthlyUsageAppend(rows, ApiAuth.UsageRow(keyId, Endpoint, HttpMethod, StatusBadRequest,
                                              ApiAuth.UsageIp(req), ApiAuth.UsageAgent(req), now), keyId, monthStart);
  }
}
