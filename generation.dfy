/** What the two generate endpoints share (apps/web/src/app/api/generate/route.ts
    and apps/web/src/app/api/v1/generate/route.ts): the request schema, the
    option defaults, the domain-checking step over the generated names, and the
    mapping of a thrown error to a response. Text analysis and name generation
    are an oracle (`ai`), and so are the registrar's answers. */
module Generation {
  import opened Strings
  import Encoding
  import DomainChecker
  import Aggregator

  // ------------------------------------------------------------ constants

  const DescriptionMinLength := 5
  const DescriptionMaxLength := 500
  const MaxSuggestionsAuthenticated := 4
  const MaxSuggestionsGuest := 2
  const DefaultSuggestions := 2
  const DefaultTargetMarket := "global"
  const TargetMarkets: seq<string> := ["global", "china", "us", "eu"]
  const DefaultTlds: seq<string> := [".com", ".io", ".app"]

  const StatusOk := 200
  const StatusBadRequest := 400
  const StatusUnauthorized := 401
  const StatusTooManyRequests := 429
  const StatusInternalError := 500
  const StatusTimeout := 504

  const ValidationErrorCode := "VALIDATION_ERROR"
  const TimeoutErrorCode := "TIMEOUT_ERROR"
  const InternalErrorCode := "INTERNAL_ERROR"
  const UnauthorizedCode := "UNAUTHORIZED"
  const RateLimitExceededCode := "RATE_LIMIT_EXCEEDED"

  const ValidationFailedMessage := "请求参数验证失败"
  const TimeoutMessage := "请求处理超时，请尝试减少生成数量或稍后重试"
  const GenerationErrorMessage := "生成域名建议时发生错误"
  const TimeoutSuggestions: seq<string> := ["减少 maxSuggestions 参数", "减少 preferredTlds 数量", "简化描述文本"]
  const TimeoutErrorText := "Request timeout"

  // ------------------------------------------------------------ request schema

  /** A parsed JSON value; numbers are reals. */
  datatype Json = JNull | JBool(b: bool) | JNum(n: real) | JStr(s: string) | JArr(items: seq<Json>) | JObj(fields: map<string, Json>)

  /** What `request.json()` produced: a value, or the SyntaxError it threw. */
  datatype BodyRead = Parsed(json: Json) | Unparseable(message: string)

  datatype GenerateOptions = GenerateOptions(
    maxSuggestions: real,
    includePricing: bool,
    targetMarket: string,
    preferredTlds: Option<seq<string>>)

  datatype GenerateRequest = GenerateRequest(description: string, options: Option<GenerateOptions>)

  /** The outcome of `generateRequestSchema.parse`: a value, or a ZodError. */
  datatype Checked<T> = Accepted(value: T) | Rejected

  /** The bounds the schema enforces. String lengths are JavaScript lengths,
      counted in UTF-16 code units. */
  predicate WellFormed(req: GenerateRequest) {
    && DescriptionMinLength <= |Encoding.Utf16(req.description)| <= DescriptionMaxLength
    && (req.options.Some? ==> OptionsInRange(req.options.value))
  }

  predicate OptionsInRange(o: GenerateOptions) {
    1.0 <= o.maxSuggestions <= MaxSuggestionsAuthenticated as real && o.targetMarket in TargetMarkets
  }

  function StringItems(items: seq<Json>): (r: Option<seq<string>>)
    ensures r.Some? ==> |r.value| == |items| && forall k :: 0 <= k < |items| ==> items[k] == JStr(r.value[k])
    ensures r.None? ==> exists k :: 0 <= k < |items| && !items[k].JStr?
  {
    if |items| == 0 then Some([])
    else
      var init, last := items[..|items| - 1], items[|items| - 1];
      match StringItems(init)
      case None => None
      case Some(ss) =>
        if last.JStr? then Some(ss + [last.s]) else None
  }

  /** The `options` object: each field defaulted when absent, checked when present. */
  function ParseOptions(j: Json): (r: Checked<GenerateOptions>)
    ensures r.Accepted? ==> OptionsInRange(r.value)
  {
    if !j.JObj? then Rejected
    else
      var f := j.fields;
      var max := if "maxSuggestions" !in f then Accepted(DefaultSuggestions as real)
        else if f["maxSuggestions"].JNum? && 1.0 <= f["maxSuggestions"].n <= MaxSuggestionsAuthenticated as real
        then Accepted(f["maxSuggestions"].n) else Rejected;
      var pricing := if "includePricing" !in f then Accepted(true)
        else if f["includePricing"].JBool? then Accepted(f["includePricing"].b) else Rejected;
      var market := if "targetMarket" !in f then Accepted(DefaultTargetMarket)
        else if f["targetMarket"].JStr? && f["targetMarket"].s in TargetMarkets then Accepted(f["targetMarket"].s) else Rejected;
      var tlds := if "preferredTlds" !in f then Accepted(None)
        else if f["preferredTlds"].JArr? && StringItems(f["preferredTlds"].items).Some?
        then Accepted(StringItems(f["preferredTlds"].items)) else Rejected;
      if max.Accepted? && pricing.Accepted? && market.Accepted? && tlds.Accepted?
      then Accepted(GenerateOptions(max.value, pricing.value, market.value, tlds.value))
      else Rejected
  }

  /** `generateRequestSchema.parse(body)`; unknown keys are dropped. */
  function ParseRequest(body: Json): (r: Checked<GenerateRequest>)
    ensures r.Accepted? ==> WellFormed(r.value)
  {
    if !body.JObj? || "description" !in body.fields || !body.fields["description"].JStr? then Rejected
    else
      var d := body.fields["description"].s;
      if !(DescriptionMinLength <= |Encoding.Utf16(d)| <= DescriptionMaxLength) then Rejected
      else if "options" !in body.fields then Accepted(GenerateRequest(d, None))
      else match ParseOptions(body.fields["options"])
        case Rejected => Rejected
        case Accepted(o) => Accepted(GenerateRequest(d, Some(o)))
  }

  /** The JSON a client sends for a request, every option written out. */
  function ToJson(req: GenerateRequest): Json {
    var base := map["description" := JStr(req.description)];
    match req.options
    case None => JObj(base)
    case Some(o) =>
      var opts := map["maxSuggestions" := JNum(o.maxSuggestions), "includePricing" := JBool(o.includePricing),
                      "targetMarket" := JStr(o.targetMarket)];
      var opts' := if o.preferredTlds.Some? then opts["preferredTlds" := JArr(StringsToJson(o.preferredTlds.value))] else opts;
      JObj(base["options" := JObj(opts')])
  }

  function StringsToJson(ss: seq<string>): (r: seq<Json>)
    ensures |r| == |ss| && forall k :: 0 <= k < |ss| ==> r[k] == JStr(ss[k])
  {
    seq(|ss|, k requires 0 <= k < |ss| => JStr(ss[k]))
  }

  lemma {:induction false} StringItemsOfStrings(ss: seq<string>)
    ensures StringItems(StringsToJson(ss)) == Some(ss)
  {
    if |ss| > 0 {
      var js := StringsToJson(ss);
      StringItemsOfStrings(ss[..|ss| - 1]);
      assert js[..|js| - 1] == StringsToJson(ss[..|ss| - 1]);
      assert ss == ss[..|ss| - 1] + [ss[|ss| - 1]];
    }
  }

  /** The schema accepts every well-formed request and gives it back unchanged. */
  lemma ParseToJson(req: GenerateRequest)
    requires WellFormed(req)
    ensures ParseRequest(ToJson(req)) == Accepted(req)
  {
    if req.options.Some? && req.options.value.preferredTlds.Some? {
      StringItemsOfStrings(req.options.value.preferredTlds.value);
    }
  }

  /** An empty `options` object takes every default: 2 suggestions, pricing on,
      the global market, no preferred TLDs. */
  lemma ParseDefaults(description: string)
    requires DescriptionMinLength <= |Encoding.Utf16(description)| <= DescriptionMaxLength
    ensures ParseRequest(JObj(map["description" := JStr(description), "options" := JObj(map[])]))
         == Accepted(GenerateRequest(description, Some(GenerateOptions(2.0, true, "global", None))))
  {
  }

  /** Out-of-range values are rejected: a description outside 5..500 units, a
      suggestion count outside 1..4, a market not in the list, `options: null`. */
  lemma ParseRejects(description: string, fields: map<string, Json>)
    ensures !(DescriptionMinLength <= |Encoding.Utf16(description)| <= DescriptionMaxLength) ==>
      ParseRequest(JObj(fields["description" := JStr(description)])).Rejected?
    ensures ("maxSuggestions" in fields && fields["maxSuggestions"].JNum? && !(1.0 <= fields["maxSuggestions"].n <= 4.0)) ==>
      ParseRequest(JObj(map["description" := JStr(description), "options" := JObj(fields)])).Rejected?
    ensures ("targetMarket" in fields && fields["targetMarket"].JStr? && fields["targetMarket"].s !in TargetMarkets) ==>
      ParseRequest(JObj(map["description" := JStr(description), "options" := JObj(fields)])).Rejected?
    ensures ParseRequest(JObj(map["description" := JStr(description), "options" := JNull])).Rejected?
  {
  }

  // ------------------------------------------------------------ option defaults

  /** `options?.maxSuggestions || 2`. */
  function RequestedCount(options: Option<GenerateOptions>): (n: real)
    ensures options.Some? && OptionsInRange(options.value) ==> n == options.value.maxSuggestions
    ensures options.None? ==> n == 2.0
  {
    if options.Some? && options.value.maxSuggestions != 0.0 then options.value.maxSuggestions
    else DefaultSuggestions as real
  }

  /** `options?.targetMarket || 'global'`. */
  function TargetMarket(options: Option<GenerateOptions>): (m: string)
    ensures options.Some? && OptionsInRange(options.value) ==> m == options.value.targetMarket
    ensures options.None? ==> m == DefaultTargetMarket
  {
    if options.Some? && options.value.targetMarket != "" then options.value.targetMarket else DefaultTargetMarket
  }

  /** `options?.preferredTlds || DEFAULT_TLDS`: an empty list is kept (it is truthy). */
  function Tlds(options: Option<GenerateOptions>): (tlds: seq<string>)
    ensures options.Some? && options.value.preferredTlds.Some? ==> tlds == options.value.preferredTlds.value
    ensures (options.None? || options.value.preferredTlds.None?) ==> tlds == [".com", ".io", ".app"]
  {
    if options.Some? && options.value.preferredTlds.Some? then options.value.preferredTlds.value else DefaultTlds
  }

  /** The deployment's environment variables the handlers read. */
  datatype Env = Env(godaddyApiKey: Option<string>, godaddyApiSecret: Option<string>, nodeEnv: Option<string>)

  /** The options passed to `checkDomainAvailability`: pricing unless turned
      off explicitly, and the registrar only when both credentials are set. */
  function CheckOptionsFor(options: Option<GenerateOptions>, env: Env): (o: DomainChecker.CheckOptions)
    ensures o.includePricing <==> options.None? || options.value.includePricing
    ensures o.useGoDaddyAPI <==> Truthy(env.godaddyApiKey) && Truthy(env.godaddyApiSecret)
    ensures DomainChecker.HasApi(o) <==> Truthy(env.godaddyApiKey) && Truthy(env.godaddyApiSecret)
  {
    DomainChecker.CheckOptions(
      options.None? || options.value.includePricing,
      env.godaddyApiKey, env.godaddyApiSecret,
      Truthy(env.godaddyApiKey) && Truthy(env.godaddyApiSecret))
  }

  // ------------------------------------------------------------ name generation

  /** A generated name, as `generateProjectNames` returns it. */
  datatype ProjectName = ProjectName(id: string, name: string, nameType: string, confidence: real, reasoning: string)

  /** What the text analysis and name generation produced, or how they ended:
      the 'Request timeout' rejection won the race, or another error was thrown. */
  datatype AiOutcome =
    | Named(keywords: seq<string>, semanticExtensions: seq<string>, names: seq<ProjectName>)
    | TimedOut
    | Crashed(message: string)

  /** The domains checked for one name, in candidate order. */
  function DomainsFor(name: string, tlds: seq<string>, opts: DomainChecker.CheckOptions,
                      registrar: string -> DomainChecker.RegistrarReply,
                      suggest: string -> DomainChecker.PriceQuote): (ds: seq<DomainChecker.DomainInfo>)
    ensures |ds| == 3 * |tlds|
  {
    var vs := DomainChecker.DomainVariants(name, tlds);
    seq(|vs|, k requires 0 <= k < |vs| => DomainChecker.CheckOne(opts, registrar, suggest, vs[k]))
  }

  /** `{ ...projectName, domains }`. */
  function WithDomains(p: ProjectName, ds: seq<DomainChecker.DomainInfo>): Aggregator.Project {
    Aggregator.Project(p.id, p.name, p.nameType, p.confidence, p.reasoning, ds)
  }

  function CheckedProjects(names: seq<ProjectName>, tlds: seq<string>, opts: DomainChecker.CheckOptions,
                           registrar: string -> DomainChecker.RegistrarReply,
                           suggest: string -> DomainChecker.PriceQuote): (ps: seq<Aggregator.Project>)
    ensures |ps| == |names|
    ensures forall k :: 0 <= k < |names| ==>
      ps[k] == WithDomains(names[k], DomainsFor(names[k].name, tlds, opts, registrar, suggest))
  {
    seq(|names|, k requires 0 <= k < |names| => WithDomains(names[k], DomainsFor(names[k].name, tlds, opts, registrar, suggest)))
  }

  /** The `projectNames.map(...)` step, one name after the other: each name
      keeps its fields and gets the domains checked for it. */
  method CheckAllProjects(names: seq<ProjectName>, tlds: seq<string>, opts: DomainChecker.CheckOptions,
                          registrar: string -> DomainChecker.RegistrarReply,
                          suggest: string -> DomainChecker.PriceQuote)
    returns (projects: seq<Aggregator.Project>)
    ensures projects == CheckedProjects(names, tlds, opts, registrar, suggest)
  {
    projects := [];
    for i := 0 to |names|
      invariant |projects| == i
      invariant forall k :: 0 <= k < i ==>
        projects[k] == WithDomains(names[k], DomainsFor(names[k].name, tlds, opts, registrar, suggest))
    {
      var domains := DomainChecker.CheckDomainAvailability(names[i].name, tlds, opts, registrar, suggest);
      assert domains == DomainsFor(names[i].name, tlds, opts, registrar, suggest);
      projects := projects + [WithDomains(names[i], domains)];
    }
  }

  /** Every checked project keeps its name's fields and has one domain per
      candidate; without registrar credentials none of them is available. */
  lemma CheckedProjectsShape(names: seq<ProjectName>, tlds: seq<string>, opts: DomainChecker.CheckOptions,
                             registrar: string -> DomainChecker.RegistrarReply,
                             suggest: string -> DomainChecker.PriceQuote, k: nat)
    requires k < |names|
    ensures var p := CheckedProjects(names, tlds, opts, registrar, suggest)[k];
      && p.id == names[k].id && p.name == names[k].name && p.confidence == names[k].confidence
      && |p.domains| == 3 * |tlds|
      && (!DomainChecker.HasApi(opts) ==> forall i :: 0 <= i < |p.domains| ==> !p.domains[i].available)
  {
  }

  // ------------------------------------------------------------ responses

  datatype Details =
    | ValidationIssues
    | RateDetails(limit: nat, remaining: nat, resetTime: int)
    | DevDetails(message: string)

  datatype ApiError = ApiError(code: string, message: string, details: Option<Details>, suggestions: seq<string>)

  datatype Body =
    | Generated(query: string, keywords: seq<string>, semanticExtensions: seq<string>,
                suggestions: seq<Aggregator.Suggestion>)
    | Failed(error: ApiError)

  datatype Response = Response(status: int, body: Body, headers: map<string, string>)

  /** What the handler's try block threw. */
  datatype Thrown = ZodError | Error(message: string)

  /** The catch block of both handlers: a ZodError is a 400, the 'Request
      timeout' error a 504 with advice, anything else a 500 that carries the
      error's message only in development. */
  function ErrorResponse(e: Thrown, env: Env): (r: Response)
    ensures r.body.Failed? && r.headers == map[]
    ensures e.ZodError? <==> r.status == StatusBadRequest
    ensures r.status == StatusBadRequest ==> r.body.error.code == ValidationErrorCode && r.body.error.message == ValidationFailedMessage
    ensures e == Error(TimeoutErrorText) <==> r.status == StatusTimeout
    ensures r.status == StatusTimeout ==> r.body.error.code == TimeoutErrorCode && r.body.error.suggestions == TimeoutSuggestions
    ensures r.status in {StatusBadRequest, StatusTimeout, StatusInternalError}
    ensures r.status == StatusInternalError ==>
      && r.body.error.code == InternalErrorCode && r.body.error.message == GenerationErrorMessage
      && (r.body.error.details.Some? <==> env.nodeEnv == Some("development"))
  {
    match e
    case ZodError => Response(StatusBadRequest, Failed(ApiError(ValidationErrorCode, ValidationFailedMessage, Some(ValidationIssues), [])), map[])
    case Error(m) =>
      if m == TimeoutErrorText then
        Response(StatusTimeout, Failed(ApiError(TimeoutErrorCode, TimeoutMessage, None, TimeoutSuggestions)), map[])
      else
        var details := if env.nodeEnv == Some("development") then Some(DevDetails(m)) else None;
        Response(StatusInternalError, Failed(ApiError(InternalErrorCode, GenerationErrorMessage, details, [])), map[])
  }

  /** What an oracle outcome throws, if anything. */
  function AiFailure(outcome: AiOutcome): Thrown
    requires !outcome.Named?
  {
    if outcome.TimedOut? then Error(TimeoutErrorText) else Error(outcome.message)
  }

  /** The generation part of both handlers after their gate: read and check the
      body, ask the oracle for names with the given count, check their domains
      and rank them. Returns the response, or what was thrown. */
  function Generate(body: BodyRead, count: Option<GenerateOptions> -> real, env: Env,
                    ai: (string, real, string) -> AiOutcome,
                    registrar: string -> DomainChecker.RegistrarReply,
                    suggest: string -> DomainChecker.PriceQuote): (r: Result)
    ensures body.Unparseable? ==> r == Threw(Error(body.message))
    ensures body.Parsed? && ParseRequest(body.json).Rejected? ==> r == Threw(ZodError)
    ensures r.Succeeded? ==>
      && body.Parsed? && ParseRequest(body.json).Accepted?
      && var req := ParseRequest(body.json).value;
         var outcome := ai(req.description, count(req.options), TargetMarket(req.options));
         && outcome.Named?
         && r.query == req.description
         && r.suggestions == Aggregator.AggregateResults(
              CheckedProjects(outcome.names, Tlds(req.options), CheckOptionsFor(req.options, env), registrar, suggest))
  {
    match body
    case Unparseable(m) => Threw(Error(m))
    case Parsed(json) =>
      match ParseRequest(json)
      case Rejected => Threw(ZodError)
      case Accepted(req) =>
        var outcome := ai(req.description, count(req.options), TargetMarket(req.options));
        if !outcome.Named? then Threw(AiFailure(outcome))
        else
          var projects := CheckedProjects(outcome.names, Tlds(req.options), CheckOptionsFor(req.options, env), registrar, suggest);
          Succeeded(req.description, outcome.keywords, outcome.semanticExtensions, Aggregator.AggregateResults(projects))
  }

  datatype Result =
    | Succeeded(query: string, keywords: seq<string>, semanticExtensions: seq<string>, suggestions: seq<Aggregator.Suggestion>)
    | Threw(error: Thrown)
}
