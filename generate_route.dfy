/** The site's own generate endpoint (apps/web/src/app/api/generate/route.ts):
    an optional sign-in, the rate limit checked and recorded before the body is
    read, the guest or signed-in suggestion cap, the rate-limit headers, and the
    error-to-status mapping. */
module GenerateRoute {
  import opened Strings
  import Encoding
  import RateLimiting
  import DomainChecker
  import opened Generation

  const Endpoint := "/api/generate"
  const TooFrequentMessage := "请求过于频繁"

  /** The suggestion count the name generator is asked for:
      `min(options?.maxSuggestions || 2, signed in ? 4 : 2)`. */
  function ActualMaxSuggestions(options: Option<GenerateOptions>, isAuthenticated: bool): (n: real)
    ensures n <= (if isAuthenticated then MaxSuggestionsAuthenticated else MaxSuggestionsGuest) as real
    ensures n <= RequestedCount(options)
    ensures n == RequestedCount(options) || n == (if isAuthenticated then MaxSuggestionsAuthenticated else MaxSuggestionsGuest) as real
    ensures options.Some? && OptionsInRange(options.value) ==> 1.0 <= n
    ensures options.None? ==> n == 2.0
  {
    var cap := if isAuthenticated then MaxSuggestionsAuthenticated else MaxSuggestionsGuest;
    var requested := RequestedCount(options);
    if requested <= cap as real then requested else cap as real
  }

  /** `Math.ceil(ms / 1000)`: the least whole number of seconds covering `ms`. */
  function CeilSeconds(ms: int): (s: int)
    ensures s * 1000 >= ms && (s - 1) * 1000 < ms
  {
    (ms + 999) / 1000
  }

  /** The three `X-RateLimit-*` headers. */
  function RateHeaders(limit: nat, remaining: int, resetTime: int): (h: map<string, string>)
    ensures h.Keys == {"X-RateLimit-Limit", "X-RateLimit-Remaining", "X-RateLimit-Reset"}
    ensures h["X-RateLimit-Limit"] == Encoding.IntToString(limit)
    ensures h["X-RateLimit-Remaining"] == Encoding.IntToString(remaining)
    ensures h["X-RateLimit-Reset"] == Encoding.IntToString(CeilSeconds(resetTime))
  {
    map["X-RateLimit-Limit" := Encoding.IntToString(limit),
        "X-RateLimit-Remaining" := Encoding.IntToString(remaining),
        "X-RateLimit-Reset" := Encoding.IntToString(CeilSeconds(resetTime))]
  }

  /** The 429 answer to a failed rate check: the check's own numbers in the
      headers and the details, its error text or a default message. */
  function RateLimitedResponse(rl: RateLimiting.RateLimitResult): (r: Response)
    ensures r.status == StatusTooManyRequests
    ensures r.headers == RateHeaders(rl.limit, rl.remaining, rl.resetTime)
    ensures r.body.Failed? && r.body.error.code == RateLimitExceededCode
    ensures r.body.error.message == if Truthy(rl.error) then rl.error.value else TooFrequentMessage
  {
    var message := if Truthy(rl.error) then rl.error.value else TooFrequentMessage;
    Response(StatusTooManyRequests,
      Failed(ApiError(RateLimitExceededCode, message, Some(RateDetails(rl.limit, rl.remaining, rl.resetTime)), [])),
      RateHeaders(rl.limit, rl.remaining, rl.resetTime))
  }

  /** The headers of a successful answer: one fewer remaining, never below zero. */
  function SuccessHeaders(rl: RateLimiting.RateLimitResult): (h: map<string, string>)
    ensures h == RateHeaders(rl.limit, if rl.remaining >= 1 then rl.remaining - 1 else 0, rl.resetTime)
  {
    RateHeaders(rl.limit, RateLimiting.Max0(rl.remaining - 1), rl.resetTime)
  }

  /** Everything after the rate check, given its result. */
  function Respond(rl: RateLimiting.RateLimitResult, isAuthenticated: bool, body: BodyRead, env: Env,
                   ai: (string, real, string) -> AiOutcome,
                   registrar: string -> DomainChecker.RegistrarReply,
                   suggest: string -> DomainChecker.PriceQuote): Response
  {
    if !rl.success then RateLimitedResponse(rl)
    else match Generate(body, o => ActualMaxSuggestions(o, isAuthenticated), env, ai, registrar, suggest)
      case Threw(e) => ErrorResponse(e, env)
      case Succeeded(q, kw, se, s) => Response(StatusOk, Generated(q, kw, se, s), SuccessHeaders(rl))
  }

  /** A failed rate check answers 429 whatever the body, and no names are generated. */
  lemma RateLimitedIgnoresBody(rl: RateLimiting.RateLimitResult, isAuthenticated: bool, body1: BodyRead, body2: BodyRead,
                               env: Env, ai1: (string, real, string) -> AiOutcome, ai2: (string, real, string) -> AiOutcome,
                               registrar: string -> DomainChecker.RegistrarReply, suggest: string -> DomainChecker.PriceQuote)
    requires !rl.success
    ensures Respond(rl, isAuthenticated, body1, env, ai1, registrar, suggest)
         == Respond(rl, isAuthenticated, body2, env, ai2, registrar, suggest)
    ensures Respond(rl, isAuthenticated, body1, env, ai1, registrar, suggest).status == StatusTooManyRequests
  {
  }

  /** The possible statuses, and when each one happens. */
  lemma RespondStatus(rl: RateLimiting.RateLimitResult, isAuthenticated: bool, body: BodyRead, env: Env,
                      ai: (string, real, string) -> AiOutcome,
                      registrar: string -> DomainChecker.RegistrarReply, suggest: string -> DomainChecker.PriceQuote)
    ensures var r := Respond(rl, isAuthenticated, body, env, ai, registrar, suggest);
      && r.status in {StatusOk, StatusBadRequest, StatusTooManyRequests, StatusInternalError, StatusTimeout}
      && (r.status == StatusTooManyRequests <==> !rl.success)
      && (r.status == StatusBadRequest <==> rl.success && body.Parsed? && ParseRequest(body.json).Rejected?)
      && (r.status == StatusOk ==> r.headers == SuccessHeaders(rl) && r.body.Generated?)
  {
    var r := Respond(rl, isAuthenticated, body, env, ai, registrar, suggest);
    if rl.success {
      var g := Generate(body, o => ActualMaxSuggestions(o, isAuthenticated), env, ai, registrar, suggest);
      if g.Threw? {
        assert r == ErrorResponse(g.error, env);
      }
    }
  }

  /** A guest's request that gets through asks the name generator for at most
      two names; a signed-in user's for at most four. */
  lemma GeneratorCountCapped(rl: RateLimiting.RateLimitResult, isAuthenticated: bool, body: BodyRead, env: Env,
                             ai: (string, real, string) -> AiOutcome,
                             registrar: string -> DomainChecker.RegistrarReply, suggest: string -> DomainChecker.PriceQuote)
    requires Respond(rl, isAuthenticated, body, env, ai, registrar, suggest).status == StatusOk
    ensures body.Parsed? && ParseRequest(body.json).Accepted?
    ensures var req := ParseRequest(body.json).value;
      && ai(req.description, ActualMaxSuggestions(req.options, isAuthenticated), TargetMarket(req.options)).Named?
      && 1.0 <= ActualMaxSuggestions(req.options, isAuthenticated) <= if isAuthenticated then 4.0 else 2.0
  {
    RespondStatus(rl, isAuthenticated, body, env, ai, registrar, suggest);
  }

  /** `POST /api/generate`. `clientError` is the message thrown when the
      database client cannot be created; `user` is the signed-in user's id, if
      any, and `authError` whether `getUser` reported an error. */
  method Post(store: RateLimiting.RateLimitStore, req: RateLimiting.Request, clientError: Option<string>,
              user: Option<string>, authError: bool, body: BodyRead, env: Env,
              ai: (string, real, string) -> AiOutcome,
              registrar: string -> DomainChecker.RegistrarReply,
              suggest: string -> DomainChecker.PriceQuote, now: int, nextMidnight: int)
    returns (resp: Response)
    modifies store`rows
    ensures clientError.Some? ==> resp == ErrorResponse(Error(clientError.value), env) && store.rows == old(store.rows)
    ensures clientError.None? ==>
      var d := RateLimiting.DecideRateLimit(old(store.rows), store.mode, req, Endpoint, user, now, nextMidnight);
      && resp == Respond(d.result, !authError && user.Some?, body, env, ai, registrar, suggest)
      && store.rows == if d.record && store.mode == RateLimiting.Up
                       then old(store.rows) + [RateLimiting.RowFor(req, Endpoint, user, now)] else old(store.rows)
  {
    if clientError.Some? {
      return ErrorResponse(Error(clientError.value), env);
    }
    var isAuthenticated := !authError && user.Some?;
    var rateLimitResult := store.CheckRateLimit(req, Endpoint, user, now, nextMidnight);
    if !rateLimitResult.success {
      return RateLimitedResponse(rateLimitResult);
    }
    match Generate(body, o => ActualMaxSuggestions(o, isAuthenticated), env, ai, registrar, suggest)
    case Threw(e) =>
      resp := ErrorResponse(e, env);
    case Succeeded(q, kw, se, s) =>
      resp := Response(StatusOk, Generated(q, kw, se, s), SuccessHeaders(rateLimitResult));
  }
}
