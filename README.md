# smart-domain, modelled in Dafny

smart-domain is a web application that turns a project description into
domain-name suggestions. It checks the candidates with a registrar, ranks
them, and lets signed-in users keep favorites and a search history. It
also exposes a public v1 API behind API keys and plan quotas. This project
models the deterministic rules of that application. The network, the AI,
the database, the clock and randomness are taken out: what a registrar
answers, whether a database call fails, the ids and timestamps the
database assigns, the current time, random bytes, SHA-256 digests, fetch
results, the file system (a map from path to content) and whether the
OpenAI API accepts a key are all parameters of the operations that use
them.

One Dafny module per source file:

- `DomainChecker` and `Aggregator` (packages/domain): the three name
  variants times the TLDs, batch processing in chunks of five, the
  per-domain outcome, the price fallback chain, and the summary with its
  best domain. Suggestions are ranked by a stable sort.
- `RateLimiting`: client IP and session id resolution, and the IP,
  session and user checks over a request log kept by the class
  `RateLimitStore`. A failing store fails open. After an admitted request
  is recorded, the daily and per-minute limits still hold.
- `Generation`, `GenerateRoute` and `V1GenerateRoute`: the request
  schemas, the suggestion caps, the rate-limit headers, the plan quota, the
  usage log (the class `UsageLog`) and the mapping from errors to status
  codes for the site's generate endpoint and for the public v1 endpoint.
- `ApiKey`, `ApiKeyServer` and `ApiAuth`: key format, random strings over
  the 62-character alphabet, hex digests, prefixes and masking, bearer
  extraction (section 2.1 of RFC 6750), and validation against the
  `api_keys` table (the class `ApiKeyTable`). A generated key always passes
  the format check.
- `Cache` and `Redis` (packages/db): cache keys, the 32-bit polynomial
  string hash, the order-insensitive array hash that sorts its argument in
  place, a TTL store (the class `Store`), the reconnect backoff and the
  client singleton (the classes `RedisClient` and `Connection`).
- `Seo`, `Sitemap` and `Flags`: description truncation, keyword
  de-duplication, breadcrumbs, canonical URLs, metadata parts, the
  localized sitemap, and CVSS severity buckets. The buckets follow the
  qualitative severity rating scale of section 5 of the CVSS v3.1
  specification.
- `UserTables`, `Favorites` and `History`: the per-user favorites and
  search-history tables (the classes `FavoritesTable` and `HistoryTable`)
  and their GET, POST and DELETE handlers. They cover pagination,
  filters, the duplicate refusal, the hourly de-duplication, and batch or
  clear-all deletion.
- `ApiClient`: error-message extraction and the query-string builders
  (the class `SearchParams`).
- `DomainGenerator`: the favorite bookkeeping of the generator page (the
  class `Generator`). It covers the reset on submit, the favorite-state
  check and the toggle, split into its start and its finish.
- `ServiceWorker`: which requests are intercepted, which responses are
  cached, the install pre-cache and the activate cleanup over the cache
  storage (the class `Caches`).
- `VerifyEnv`: selecting the `.env` file, parsing its lines and checking
  the required variables (the class `Process`).
- `Strings`, `Encoding` and `Sorting` hold what these modules share: the
  JavaScript string operations, UTF-8, UTF-16, base64 and hex, and a
  stable sort with its proofs.

The model follows the code as written. Four behaviours of the code are
stated and proved as they are:

- The generator page asks for 1000 favorites when it checks favorite
  states, but the server caps a page at 100. Only the first 100
  favorites are seen (`DomainGenerator.CheckedFavoritesArePageOf100`).
- After a failed connect, the Redis client stays stored unconnected, and
  later calls return it (`Redis.FailedConnectSticks`).
- The favorites DELETE handler reports the number of ids it was given,
  not the number of rows it removed.
- In the v1 generate endpoint, a request that fails validation still
  counts against the monthly quota, because its usage is logged.

## Model

| member | source | states |
|---|---|---|
| Strings.Split | scripts/verify-env.js:23 | `split` on one character always gives at least one piece |
| Strings.JoinSplit | scripts/verify-env.js:28-30 | joining the pieces of a split with the separator gives back the text |
| Strings.SplitJoin | apps/web/src/lib/api-client.ts:162-163 | splitting pieces that were joined, none containing the separator, gives back the pieces |
| Strings.SplitPiecesAvoidSeparator | apps/web/src/app/api/v1/favorites/route.ts:250 | no piece of a split contains the separator |
| Strings.Trim | scripts/verify-env.js:26 | a trimmed text neither starts nor ends with white space; it sits in the original right after the leading white space and is followed by white space only, so exactly the outer white space is removed |
| Strings.LastIndexOf | packages/domain/src/checker.ts:155 | `lastIndexOf`: -1 exactly when the character is absent, else an index holding it with no later occurrence |
| Strings.LowerAscii | packages/domain/src/checker.ts:137 | lowering keeps the length and lowers each ASCII capital |
| Encoding.Utf16 | apps/web/src/app/api/generate/route.ts:26-29 | a text has at least as many UTF-16 code units as characters, each below 0x10000 |
| Encoding.Utf16CharUnits | packages/db/src/cache.ts:101 | a basic-plane character is the one unit `charCodeAt` reads; any other character is a high surrogate (D800–DBFF) then a low one (DC00–DFFF), and 0x10000 + (high − 0xD800)·1024 + (low − 0xDC00) gives it back |
| Encoding.Utf16OfBasicPlane | apps/web/src/app/api/generate/route.ts:26-29 | for basic-plane text, `length` is the number of characters and unit k is character k |
| Encoding.Base64Shape | apps/web/src/lib/rate-limiting.ts:42 | base64 has four characters per started group of three bytes, each from the base64 alphabet or the '=' padding |
| Encoding.Base64GroupDecodes | apps/web/src/lib/rate-limiting.ts:42 | each byte of a group is read back from the two base64 characters that carry its bits, as section 4 of RFC 4648 lays them out |
| Encoding.Base64ValueOfDigit | apps/web/src/lib/rate-limiting.ts:42 | every 6-bit value is read back from its base64 digit |
| Encoding.ToRadix | apps/web/src/lib/api-key.ts:10 | `toString(36)` of a natural: at least one digit, every digit in the radix, no leading zero |
| Encoding.FromRadixToRadix | apps/web/src/lib/api-key.ts:10 | reading the rendered digits back gives the number |
| Encoding.HexOfBytes | apps/web/src/lib/api-key.ts:48-55 | two lower-case hex digits per byte |
| Encoding.HexRoundTrip | apps/web/src/lib/api-key.ts:48-55 | the hex text decodes back to the bytes |
| Sorting.Sort | packages/domain/src/aggregator.ts:15-28 | sorting keeps the same elements |
| Sorting.SortSorted | packages/domain/src/aggregator.ts:15-28 | with a total preorder, the result is ordered and a permutation of the input |
| Sorting.SortStable | packages/domain/src/aggregator.ts:15-28 | the sort is stable: tied elements keep their relative order |
| Sorting.SortForgetsOrder | packages/db/src/cache.ts:109 | with a total order, inputs holding the same elements sort to the same result |
| DomainChecker.LowerKeep | packages/domain/src/checker.ts:137 | what one character leaves after lowering and filtering: at most one character, always in [a-z0-9], and an [a-z0-9] character is kept as is |
| DomainChecker.BaseName | packages/domain/src/checker.ts:137 | the base name is no longer than the project name and holds only [a-z0-9] characters |
| DomainChecker.BaseNameEmpty | packages/domain/src/checker.ts:137 | the base name is empty exactly when no character of the name survives lowering and filtering |
| DomainChecker.BaseNameFixed | packages/domain/src/checker.ts:137 | a name made only of [a-z0-9] is its own base name |
| DomainChecker.BaseNameIdempotent | packages/domain/src/checker.ts:137 | taking the base name twice changes nothing |
| DomainChecker.Suffixed | packages/domain/src/checker.ts:143-145 | one variant gives one domain per TLD |
| DomainChecker.Cross | packages/domain/src/checker.ts:141-146 | the nested loops give \|variants\| × \|tlds\| domains |
| DomainChecker.CrossAt | packages/domain/src/checker.ts:142-146 | the domain at v·\|tlds\|+t is variant v followed by TLD t (variant-major order) |
| DomainChecker.DomainVariantsLayout | packages/domain/src/checker.ts:136-149 | exactly 3·\|tlds\| candidates: base, base+"app", "get"+base, each followed by every TLD in the given order |
| DomainChecker.GenerateDomainVariants | packages/domain/src/checker.ts:136-149 | the loops push exactly the candidate list, 3·\|tlds\| domains |
| DomainChecker.ProcessBatch | packages/domain/src/checker.ts:14-26 | chunks of `batchSize` processed in order give one result per item, result k being the processor applied to item k |
| DomainChecker.Tld | packages/domain/src/checker.ts:155 | the TLD starts at the last '.' and has no further '.'; without a '.' the whole domain is returned |
| DomainChecker.DomainPrice | packages/domain/src/checker.ts:152-165 | the static table: .com 12.99, .net 11.99, .org 10.99, .io 39.99, .app 19.99, and 15.99 exactly for a TLD outside those five |
| DomainChecker.ChainPrice | packages/domain/src/checker.ts:64-81 | a registrar price > 0 divided by 1,000,000, else a suggested price > 0, else the static table; always positive |
| DomainChecker.CheckOne | packages/domain/src/checker.ts:52-128 | without flag, key and secret: unavailable with 'Domain check requires API configuration'; a registrar failure: unavailable with 'API check failed'; otherwise the registrar's answer, with a price exactly when pricing is requested and then the fallback chain's price (`ChainPrice` of the registrar price, the suggested TLD price and the table), and registrar and purchase URL present exactly when available |
| DomainChecker.CheckDomainAvailability | packages/domain/src/checker.ts:28-134 | one result per candidate in candidate order, each the per-domain check of that candidate; without API configuration every domain is unavailable with the configuration error |
| Aggregator.DomainLeIsPreorder | packages/domain/src/aggregator.ts:15-20 | the best-domain comparator (.com first, then price with a missing or zero price as 999) is a total preorder |
| Aggregator.Available | packages/domain/src/aggregator.ts:12-14 | the available domains are exactly the input's domains with `available` true |
| Aggregator.AvailableCount | packages/domain/src/aggregator.ts:12 | `availableDomainCount` equals the number of positions whose domain is available |
| Aggregator.BestDomainChoice | packages/domain/src/aggregator.ts:13-20 | no best domain exactly when none is available; otherwise it is an available domain, a .com one when any available domain is .com, with the least price key in its class, and the first such in input order |
| Aggregator.SummarizeAll | packages/domain/src/aggregator.ts:10-21 | one summary per project, in order |
| Aggregator.RankLeIsPreorder | packages/domain/src/aggregator.ts:22-28 | the ranking comparator (count descending, then confidence descending) is a total preorder |
| Aggregator.AggregateRanked | packages/domain/src/aggregator.ts:7-29 | the output is ranked by count then confidence, is a permutation of the summaries, and each element keeps its project and its count |
| Aggregator.AggregateStable | packages/domain/src/aggregator.ts:22-28 | suggestions that tie keep their input order |
| RateLimiting.GetClientIP | apps/web/src/lib/rate-limiting.ts:15-30 | the first comma-separated x-forwarded-for entry, trimmed; else x-real-ip; else the connection address; else '127.0.0.1' |
| RateLimiting.SessionTag | apps/web/src/lib/rate-limiting.ts:41-42 | the first 10 characters (or fewer) of the base64 of the user agent's UTF-8 bytes |
| RateLimiting.GetSessionId | apps/web/src/lib/rate-limiting.ts:33-43 | a non-empty `session_id` cookie, else ip + '-' + the user-agent tag |
| RateLimiting.CountRows | apps/web/src/lib/rate-limiting.ts:61-68 | the count of logged requests for a key, endpoint and window never exceeds the log's length |
| RateLimiting.CountRowsAppend | apps/web/src/lib/rate-limiting.ts:262-268 | recording a request adds one to exactly the counts whose key, endpoint and window it matches |
| RateLimiting.CheckIPRateLimit | apps/web/src/lib/rate-limiting.ts:46-122 | a failing store fails open (success, limit 0, remaining 0, an error); a guest with 5 or more requests in 24 hours is refused with limit 5, remaining 0 and reset at the next midnight, before the window check; otherwise success exactly below the window maximum, with remaining = max(0, limit − count); a refusal in the minute window has limit 2, reset one minute from now and the too-frequent error |
| RateLimiting.CheckSessionRateLimit | apps/web/src/lib/rate-limiting.ts:125-173 | fails open on a store failure; otherwise succeeds exactly when the 24-hour session count is below 2 |
| RateLimiting.CheckUserRateLimit | apps/web/src/lib/rate-limiting.ts:176-246 | fails open on a store failure; otherwise refused at 10 a day (limit 10) or 2 a minute (limit 2); success reports limit 10 and remaining = 10 − daily count |
| RateLimiting.DecideRateLimit | apps/web/src/lib/rate-limiting.ts:276-322 | the IP check first and its failure returned as is; then the user check when signed in, else the session check; the request is recorded exactly when all pass, returning the IP check's remaining and reset time with the caller's daily limit |
| RateLimiting.GuestAdmissionWithinLimits | apps/web/src/lib/rate-limiting.ts:60-110 | after an admitted guest request is recorded, the IP has at most 5 requests a day and 2 a minute, the session at most 2 a day |
| RateLimiting.UserAdmissionWithinLimits | apps/web/src/lib/rate-limiting.ts:196-228 | after an admitted user request is recorded, the user has at most 10 requests a day and 2 a minute |
| RateLimiting.RateLimitStore.constructor | apps/web/src/lib/rate-limiting.ts:52-55 | the request log starts empty, with the store's availability fixed by its mode |
| RateLimiting.RateLimitStore.RecordAPIRequest | apps/web/src/lib/rate-limiting.ts:249-273 | the row is appended to the table, or nothing happens when the store is down |
| RateLimiting.RateLimitStore.CheckRateLimit | apps/web/src/lib/rate-limiting.ts:276-322 | the result is the decision's result, and the table grows by the request's row exactly when the decision records it |
| Generation.StringItems | apps/web/src/app/api/generate/route.ts:46 | a JSON array is read as a list of strings exactly when every item is a string, item for item |
| Generation.ParseOptions | apps/web/src/app/api/generate/route.ts:30-48 | accepted options have maxSuggestions in 1..4 and a target market from the enumeration |
| Generation.ParseRequest | apps/web/src/app/api/generate/route.ts:25-49 | an accepted request has a 5..500 UTF-16-unit description and in-range options |
| Generation.StringsToJson | apps/web/src/app/api/generate/route.ts:46 | a list of strings becomes the JSON array of those strings, in order |
| Generation.StringItemsOfStrings | apps/web/src/app/api/generate/route.ts:46 | reading back an array of strings gives the same list |
| Generation.ParseToJson | apps/web/src/app/api/generate/route.ts:25-49 | every well-formed request, written as JSON, is parsed back to itself |
| Generation.ParseDefaults | apps/web/src/app/api/generate/route.ts:30-47 | empty options take the defaults: 2 suggestions, pricing on, the global market, no preferred TLDs |
| Generation.ParseRejects | apps/web/src/app/api/generate/route.ts:25-49 | a description outside 5..500, a maxSuggestions outside 1..4, an unknown market or a null options object are rejected |
| Generation.RequestedCount | apps/web/src/app/api/v1/generate/route.ts:136 | the requested count is the options' maxSuggestions, or 2 without options |
| Generation.TargetMarket | apps/web/src/app/api/generate/route.ts:126-127 | the market passed to the generator is the options' market, or "global" without options |
| Generation.Tlds | apps/web/src/app/api/generate/route.ts:134-136 | the TLDs checked are the preferred ones when given, else .com, .io and .app |
| Generation.CheckOptionsFor | apps/web/src/app/api/generate/route.ts:140-147 | pricing is on unless explicitly off; the registrar API is used exactly when both of its credentials are set |
| Generation.DomainsFor | apps/web/src/app/api/generate/route.ts:137-148 | each name is checked as three variants per TLD |
| Generation.CheckedProjects | apps/web/src/app/api/generate/route.ts:132-154 | one project per generated name, in order, each carrying the domains checked for its name |
| Generation.CheckAllProjects | apps/web/src/app/api/generate/route.ts:132-154 | the loop over the names builds exactly the checked projects |
| Generation.CheckedProjectsShape | apps/web/src/app/api/generate/route.ts:149-152 | a checked project keeps the generated name's id, name and confidence |
| Generation.ErrorResponse | apps/web/src/app/api/generate/route.ts:184-231 | a validation error is a 400, exactly the 'Request timeout' error is a 504 with suggestions, anything else a 500 whose details appear only in development |
| Generation.Generate | apps/web/src/app/api/generate/route.ts:103-180 | an unreadable body throws, a rejected body throws the validation error, and a success carries the description and the aggregated checked names of the generator's answer |
| GenerateRoute.ActualMaxSuggestions | apps/web/src/app/api/generate/route.ts:109-115 | the generator is asked for the smaller of the requested count and the cap (4 signed in, 2 as a guest): at most each, and equal to one of them; 2 without options |
| GenerateRoute.CeilSeconds | apps/web/src/app/api/generate/route.ts:89 | the reset header is the reset time in whole seconds, rounded up |
| GenerateRoute.RateHeaders | apps/web/src/app/api/generate/route.ts:86-90 | the three rate-limit headers carry the limit, the remaining count and the reset second |
| GenerateRoute.RateLimitedResponse | apps/web/src/app/api/generate/route.ts:70-93 | a refused rate check answers 429 with the limiter's message, or the default one, and the rate headers |
| GenerateRoute.SuccessHeaders | apps/web/src/app/api/generate/route.ts:173-177 | a successful answer reports one fewer remaining request, never below zero |
| GenerateRoute.RateLimitedIgnoresBody | apps/web/src/app/api/generate/route.ts:64-106 | once the rate check fails the answer is the same 429 whatever the body and whatever the generator would say |
| GenerateRoute.RespondStatus | apps/web/src/app/api/generate/route.ts:51-233 | the handler answers only 200, 400, 429, 500 or 504 |
| GenerateRoute.GeneratorCountCapped | apps/web/src/app/api/generate/route.ts:109-129 | a 200 answer means the body was valid and the generator, asked for the capped count, named projects |
| GenerateRoute.Post | apps/web/src/app/api/generate/route.ts:51-233 | a failing database client gives the error response with nothing recorded; otherwise the answer follows the rate decision and the request is recorded exactly when the limiter records it |
| V1GenerateRoute.SubscriptionPlan | apps/web/src/app/api/v1/generate/route.ts:81 | the profile's plan when set, else the free plan |
| V1GenerateRoute.QuotaRules | apps/web/src/app/api/v1/generate/route.ts:92-101 | the free plan is always refused, professional from its 1000th call of the month, enterprise and unknown plans never |
| V1GenerateRoute.MissingProfileRefused | apps/web/src/app/api/v1/generate/route.ts:75-101 | a caller without a readable profile is treated as free and refused |
| V1GenerateRoute.MonthlyUsage | apps/web/src/app/api/v1/generate/route.ts:84-89 | the month's usage counts the key's log rows since the start of the month |
| V1GenerateRoute.MonthlyUsageAppend | apps/web/src/app/api/v1/generate/route.ts:84-89 | one more log row adds one to the count exactly when it is the key's and in the month |
| V1GenerateRoute.QuotaMessage | apps/web/src/app/api/v1/generate/route.ts:108 | the quota message starts with the monthly-limit text |
| V1GenerateRoute.QuotaResponse | apps/web/src/app/api/v1/generate/route.ts:101-113 | an exhausted quota answers 429 with the rate-limit code |
| V1GenerateRoute.UnauthorizedResponse | apps/web/src/app/api/v1/generate/route.ts:54-65 | a refused key answers 401 with the validator's message, or the default one |
| V1GenerateRoute.Process | apps/web/src/app/api/v1/generate/route.ts:115-287 | after the quota check the answer is 200, 400, 500 or 504; 400 exactly for a rejected body and 200 exactly when generation succeeds |
| V1GenerateRoute.Post | apps/web/src/app/api/v1/generate/route.ts:51-288 | a refused key gets 401 and an exhausted quota 429, both unlogged; every other answer is logged once with its status when the key id is set (the late second log of a timed-out call is left out); only an accepted key's row changes, its last_used_at set to now |
| V1GenerateRoute.UnauthorizedWithoutValidKey | apps/web/src/app/api/v1/generate/route.ts:53-65 | a request gets past the key check only with a well-formed key whose hash is stored and unexpired |
| V1GenerateRoute.ValidationFailureCounts | apps/web/src/app/api/v1/generate/route.ts:207-232 | a rejected body is logged and so counts against the month's quota |
| ApiKey.AlphabetChar | apps/web/src/lib/api-key.ts:17 | every position of the 62-character alphabet holds a letter or a digit |
| ApiKey.AlphanumericLayout | apps/web/src/lib/api-key.ts:17 | the alphabet has 62 characters: upper-case letters, then lower-case letters, then digits |
| ApiKey.AlphabetIndex | apps/web/src/lib/api-key.ts:31-33 | every letter or digit has a position in the alphabet |
| ApiKey.MapToAlphabet | apps/web/src/lib/api-key.ts:31-33 | each random byte picks one alphanumeric character, one character per byte |
| ApiKey.MapToAlphabetOnto | apps/web/src/lib/api-key.ts:31-33 | every alphanumeric string is the image of some bytes |
| ApiKey.GenerateRandomString | apps/web/src/lib/api-key.ts:16-36 | the result has the requested length and is alphanumeric; it maps the crypto bytes, or the floored Math.random values when crypto is unavailable |
| ApiKey.FloorBytes | apps/web/src/lib/api-key.ts:26-28 | one byte per random number |
| ApiKey.GenerateApiKey | apps/web/src/lib/api-key.ts:9-13 | a new key is the prefix, the base-36 timestamp, an underscore and the 32 random bytes mapped to the alphabet (crypto bytes when available, else the floored `Math.random` values), and it has the valid key format |
| ApiKey.GeneratedKeyValid | apps/web/src/lib/api-key.ts:9-13 | any base-36 timestamp and 32 alphanumeric characters make a key of the valid format |
| ApiKey.MatchesPatternIsValid | apps/web/src/lib/api-key.ts:67-69 | a string split as prefix, lower-case alphanumeric middle, underscore and 32 alphanumerics passes the format test |
| ApiKey.ValidKeyFormatIffPattern | apps/web/src/lib/api-key.ts:67-69 | the executable format test holds exactly when the key matches the pattern sd_[a-z0-9]+_[A-Za-z0-9]{32} |
| ApiKey.ValidateApiKey | apps/web/src/lib/api-key.ts:67-69 | a key is accepted exactly when it matches the pattern, and then it has at least 37 characters and the prefix |
| ApiKey.ApiKeyPrefix | apps/web/src/lib/api-key.ts:62-64 | the display prefix is the key's first 12 characters (fewer for a shorter key) followed by "..." |
| ApiKey.FormatApiKeyForDisplay | apps/web/src/lib/api-key.ts:72-77 | a key shorter than 20 is shown whole; a longer one as its first 12 characters, "..." and its last 4 |
| ApiKey.MaskedKeysAgree | apps/web/src/lib/api-key.ts:72-77 | two long keys with the same first 12 and last 4 characters are shown identically |
| ApiKey.HashApiKeyAsync | apps/web/src/lib/api-key.ts:39-59 | without Web Crypto it throws the server-side error; otherwise it is two lower-case hex digits per digest byte |
| ApiKey.HashApiKeyAsyncReadsBack | apps/web/src/lib/api-key.ts:48-55 | decoding the hex gives back the digest of the key's UTF-8 bytes |
| ApiKeyServer.HashApiKey | apps/web/src/lib/api-key-server.ts:4-6 | the hash is two lower-case hex digits per SHA-256 byte of the key's UTF-8 encoding |
| ApiKeyServer.HashApiKeyDeterminesDigest | apps/web/src/lib/api-key-server.ts:4-6 | two keys have the same hash text exactly when their digests are equal |
| ApiKeyServer.HashApiKeyMatchesBrowser | apps/web/src/lib/api-key-server.ts:4-6 | the server's hash and the browser's hash of a key agree |
| ApiKeyServer.GenerateSecureRandomString | apps/web/src/lib/api-key-server.ts:9-19 | the result has the requested length and each character is the alphabet entry at its byte modulo 62 |
| ApiAuth.ExtractApiKey | apps/web/src/lib/api-auth.ts:62-76 | an Authorization header starting with "Bearer " gives the rest of the header; otherwise a non-empty api_key parameter, else nothing |
| ApiAuth.ExtractBearer | apps/web/src/lib/api-auth.ts:64-67 | a bearer header yields exactly its token, whatever the parameter |
| ApiAuth.ExtractLowercaseBearer | apps/web/src/lib/api-auth.ts:65 | the prefix is case-sensitive: "bearer " is ignored and the parameter decides |
| ApiAuth.Validate | apps/web/src/lib/api-auth.ts:13-59 | a result is valid exactly when it has no error, and only a valid one carries the user and key ids |
| ApiAuth.ValidateAccepts | apps/web/src/lib/api-auth.ts:13-59 | a key is accepted exactly when it matches the format, the database is reachable, its hash is stored and it is not expired |
| ApiAuth.MalformedKeyNoLookup | apps/web/src/lib/api-auth.ts:17-24 | an empty or malformed key is refused with the required or format error before the database is read |
| ApiAuth.ValidateReadsOneRow | apps/web/src/lib/api-auth.ts:27-34 | validation depends only on the row stored under the key's hash |
| ApiAuth.ExpiryPermanent | apps/web/src/lib/api-auth.ts:41-43 | an expired key stays expired, and a key without an expiry never expires |
| ApiAuth.IssuedKeyAccepted | apps/web/src/lib/api-auth.ts:13-59 | a generated key whose hash is stored and unexpired is accepted |
| ApiAuth.ApiKeyTable.constructor | apps/web/src/lib/api-auth.ts:26 | the table starts with the given rows and availability |
| ApiAuth.ApiKeyTable.ValidateApiKey | apps/web/src/lib/api-auth.ts:13-59 | the answer is the validation result, and only an accepted key's row gets its last-used time set |
| ApiAuth.ApiKeyTable.RequireApiKey | apps/web/src/lib/api-auth.ts:79-89 | no extracted key is refused as required with nothing changed; otherwise the key is validated, and only an accepted key's row changes, its last_used_at set to now |
| ApiAuth.UsageIp | apps/web/src/lib/api-auth.ts:107-108 | the logged address is the connection's, else the forwarded header, else "unknown" |
| ApiAuth.UsageAgent | apps/web/src/lib/api-auth.ts:109 | the logged agent is the User-Agent header, else "unknown" |
| ApiAuth.UsageLog.constructor | apps/web/src/lib/api-auth.ts:100 | the log starts with the given rows |
| ApiAuth.UsageLog.LogApiUsage | apps/web/src/lib/api-auth.ts:92-114 | one row with the key, endpoint, method, status, address and agent is appended when the database accepts it; a failure is swallowed |
| Cache.GetKey | packages/db/src/cache.ts:11-15 | a key is the type's pattern "smart-domain:<type>:" followed by the id itself |
| Cache.KeysSeparateTypes | packages/db/src/cache.ts:11-15 | a key matches a type's pattern exactly when it was made for that type, and different ids give different keys |
| Cache.ToInt32 | packages/db/src/cache.ts:103 | the 32-bit conversion lands in the signed range and is congruent to its input modulo 2^32 |
| Cache.ToInt32Congruent | packages/db/src/cache.ts:102-103 | numbers congruent modulo 2^32 convert to the same 32-bit integer, so shift-and-subtract equals multiplying by 31 |
| Cache.HashCode | packages/db/src/cache.ts:99-104 | the running hash is always a signed 32-bit integer |
| Cache.HashString | packages/db/src/cache.ts:98-106 | the loop over the UTF-16 code units computes the specified hash, written in hexadecimal |
| Cache.HashStringShape | packages/db/src/cache.ts:98-106 | a hash is one to eight lower-case hex digits with no leading zero, and the empty string hashes to "0" |
| Cache.UnitLeTotal | packages/db/src/cache.ts:109 | the default sort order compares any two strings |
| Cache.UnitLeTransitive | packages/db/src/cache.ts:109 | the default sort order is transitive |
| Cache.UnitLeAntisymmetric | packages/db/src/cache.ts:109 | two strings each ordered before the other are equal |
| Cache.UnitLeIsTotalOrder | packages/db/src/cache.ts:109 | the code-unit order used by `sort()` is a total order |
| Cache.HashArray | packages/db/src/cache.ts:108-110 | the caller's array is left sorted and the hash is that of the sorted strings joined by commas |
| Cache.HashArrayPermutation | packages/db/src/cache.ts:108-110 | keyword lists with the same elements in any order hash alike |
| Cache.SortStringsOrders | packages/db/src/cache.ts:109 | the sorted array is ordered and holds the same strings |
| Cache.Lookup | packages/db/src/cache.ts:30-31 | a key reads back a value exactly when it is stored and its TTL has not run out |
| Cache.SetThenGet | packages/db/src/cache.ts:24-31 | a value stored with a TTL is read back until the TTL has passed, and never after |
| Cache.SetLeavesOthers | packages/db/src/cache.ts:24 | storing one key does not change what any other key reads |
| Cache.Store.constructor | packages/db/src/cache.ts:22 | the store starts empty |
| Cache.Store.SetEx | packages/db/src/cache.ts:24 | the key now holds the value until now plus the TTL; nothing else changes |
| Cache.Store.Get | packages/db/src/cache.ts:30 | the answer is the key's live value, if any |
| Cache.Store.MGet | packages/db/src/cache.ts:73 | one answer per key, in order, each the key's live value |
| Cache.Store.Keys | packages/db/src/cache.ts:89-90 | the keys listed are exactly the live keys that start with the pattern |
| Cache.Store.Del | packages/db/src/cache.ts:93 | exactly the named keys are removed |
| Cache.CacheAnalysis | packages/db/src/cache.ts:18-25 | the analysis is stored under the description's hash for one hour |
| Cache.GetAnalysis | packages/db/src/cache.ts:27-32 | the answer is the live value under the description's hash |
| Cache.CacheProjectNames | packages/db/src/cache.ts:35-42 | the names are stored for one hour under the hash of the keywords, which are left sorted |
| Cache.GetProjectNames | packages/db/src/cache.ts:44-49 | the answer is the live value under the keyword hash, and the keywords are left sorted |
| Cache.CacheDomainCheck | packages/db/src/cache.ts:52-56 | a domain check is stored under the domain for half an hour |
| Cache.GetDomainCheck | packages/db/src/cache.ts:58-63 | the answer is the live value under the domain's key |
| Cache.DomainCheckLifetime | packages/db/src/cache.ts:55 | a stored domain check is read back for 1800 seconds and not after |
| Cache.BatchGetDomainChecks | packages/db/src/cache.ts:66-82 | the result maps exactly the domains that have a live cached check to that check |
| Cache.ClearCache | packages/db/src/cache.ts:85-95 | afterwards no key of the type reads a value and every other key reads what it did |
| Cache.ClearKeepsOtherTypes | packages/db/src/cache.ts:85-95 | clearing one type keeps every entry of the other types |
| Redis.ReconnectStrategy | packages/db/src/redis.ts:15-21 | reconnecting gives up after 10 retries; otherwise it waits retries times 100 ms, at most 3000 ms |
| Redis.ReconnectMonotone | packages/db/src/redis.ts:15-21 | while retrying, a later retry never waits less |
| Redis.ReconnectCapUnreached | packages/db/src/redis.ts:16-20 | the 3000 ms cap is never reached: the longest wait is 1000 ms |
| Redis.RedisUrl | packages/db/src/redis.ts:9 | the URL is REDIS_URL when set, else redis://localhost:6379 |
| Redis.RedisClient.constructor | packages/db/src/redis.ts:11-23 | a new client is created for the URL, not connected |
| Redis.RedisClient.Connect | packages/db/src/redis.ts:33 | the client is open exactly when the connection succeeds |
| Redis.RedisClient.Quit | packages/db/src/redis.ts:41 | the client is closed |
| Redis.Connection.constructor | packages/db/src/redis.ts:5 | there is no client at first |
| Redis.Connection.GetRedisClient | packages/db/src/redis.ts:7-37 | a stored client is returned untouched; otherwise a fresh client for the configured URL is stored and connected, and a failed connect rejects the call |
| Redis.Connection.CloseRedisConnection | packages/db/src/redis.ts:39-44 | a stored client is quit and forgotten |
| Redis.SingletonScenario | packages/db/src/redis.ts:5-44 | two calls share one client; after closing, the next call gets a new one |
| Redis.FailedConnectSticks | packages/db/src/redis.ts:8-36 | after a failed first connect, the next call returns the stored client still unconnected |
| Seo.BaseUrl | apps/web/src/lib/seo.ts:12 | the base URL is NEXT_PUBLIC_APP_URL when set, else the site's default URL |
| Seo.GenerateDescription | apps/web/src/lib/seo.ts:132-154 | short content is returned unchanged; long content becomes a prefix of itself followed by "...", no longer than the limit when the limit leaves room for it |
| Seo.DescriptionCut | apps/web/src/lib/seo.ts:140-153 | a long description is cut at the last space of the first maxLength - 3 characters when that space lies beyond 80% of the limit, otherwise right after those characters |
| Seo.DescriptionTinyLimit | apps/web/src/lib/seo.ts:140-153 | with a limit below 3, any longer content becomes just "..." |
| Seo.Distinct | apps/web/src/lib/seo.ts:163 | deduplication keeps every element once and adds nothing |
| Seo.DistinctPrefix | apps/web/src/lib/seo.ts:163 | deduplication keeps first occurrences in order: extending the input only appends |
| Seo.NonEmptyAppend | apps/web/src/lib/seo.ts:161-163 | dropping empty strings commutes with concatenation |
| Seo.GenerateKeywords | apps/web/src/lib/seo.ts:157-164 | the keywords are exactly the non-empty strings of both lists, each once |
| Seo.KeywordsBaseFirst | apps/web/src/lib/seo.ts:161-163 | the base keywords come first, in their original order |
| Seo.ListItems | apps/web/src/lib/seo.ts:173-178 | one list item per crumb, numbered in order, carrying its name and, when the crumb has a URL, the base URL followed by it |
| Seo.GenerateBreadcrumbs | apps/web/src/lib/seo.ts:167-180 | the breadcrumb list has the schema.org context and type and one item per crumb at positions 1, 2, ... |
| Seo.BreadcrumbsExtend | apps/web/src/lib/seo.ts:173 | adding crumbs at the end leaves the earlier items unchanged |
| Seo.CanonicalUrl | apps/web/src/lib/seo.ts:232-235 | the canonical URL is the base URL followed by the path unchanged when it starts with '/', and by '/' and the path otherwise |
| Seo.CanonicalUrlSlash | apps/web/src/lib/seo.ts:232-235 | a path with or without its leading slash gives the same URL, and no path gives the base URL with a slash |
| Seo.FullTitle | apps/web/src/lib/seo.ts:45 | a title is followed by a vertical bar and the site name; without one the title is the site name |
| Seo.PageUrl | apps/web/src/lib/seo.ts:46 | the page URL is the base URL followed by the canonical path when one is given and non-empty, and the base URL alone otherwise |
| Seo.OgImages | apps/web/src/lib/seo.ts:77-82 | one Open Graph image per image, in order, with the fixed size and the title as alt text |
| Seo.GenerateMetadata | apps/web/src/lib/seo.ts:31-120 | title, canonical and Open Graph URL, robots and images follow the props and their defaults; article details appear exactly for an article with a publication or modification time |
| Seo.MetadataImages | apps/web/src/lib/seo.ts:53-88 | given images pass through in order, relative ones made absolute; without images the default favicon is used, prefixed once more when the base URL does not start with "http" |
| Seo.PageUrlVersusCanonicalUrl | apps/web/src/lib/seo.ts:46 | the metadata URL equals the canonical URL for a path starting with "/" and differs from it otherwise |
| Sitemap.GenerateLocalizedUrls | apps/web/src/app/sitemap.ts:9-41 | a path yields four entries: the default one, then one per locale (zh, en, ja) |
| Sitemap.BuildSitemap | apps/web/src/app/sitemap.ts:43-61 | the sitemap holds four entries for each of the six pages, in the order of the pages |
| Sitemap.GroupFacts | apps/web/src/app/sitemap.ts:9-41 | all four entries share the date; the localized ones have 0.9 times the priority; the home page is the bare base URL and its localized versions the base URL with the locale |
| Sitemap.GroupUrlsDistinct | apps/web/src/app/sitemap.ts:14-38 | the four entries of a page have different URLs |
| Flags.LevelOf | apps/web/src/lib/flags.ts:15-37 | each score falls in exactly one band: critical, high, medium, low or informational by the thresholds |
| Flags.FormatCvssScore | apps/web/src/lib/flags.ts:15-37 | the severity and the label always belong to the same level |
| Flags.FormatConsistent | apps/web/src/lib/flags.ts:15-37 | the severity determines the level, and with it the label |
| Flags.LevelMonotone | apps/web/src/lib/flags.ts:18-36 | a higher score never gets a lower level |
| Flags.FlagMappingFacts | apps/web/src/lib/flags.ts:7-13 | the mapping names the five levels and covers every severity |
| UserTables.DigitPrefix | apps/web/src/app/api/v1/favorites/route.ts:37-39 | the leading run of digits of a radix, in either case: a prefix, all digits, and stopped by a non-digit or the end |
| UserTables.ParseInt | apps/web/src/app/api/v1/favorites/route.ts:37-39 | `Number.parseInt` without a radix gives NaN exactly when no digit of the selected radix (16 after a `0x`/`0X` prefix, else 10) follows the leading white space and optional sign |
| UserTables.DigitPrefixOfDigits | apps/web/src/app/api/v1/favorites/route.ts:37-39 | digits of a radix followed by a non-digit are read up to the non-digit |
| UserTables.TrimStartKeeps | apps/web/src/app/api/v1/favorites/route.ts:37-39 | text starting with a minus sign or a digit has no leading white space to skip |
| UserTables.ParseIntOf | apps/web/src/app/api/v1/favorites/route.ts:37-39 | the parsed value is the digit run read in the radix the prefix selects, negated after a minus sign |
| UserTables.ParseNegative | apps/web/src/app/api/v1/favorites/route.ts:37-39 | a minus sign and decimal digits parse to the negated number, whatever follows that neither continues the digits nor makes a lone 0 into a `0x` prefix |
| UserTables.ParseNonNegative | apps/web/src/app/api/v1/favorites/route.ts:37-39 | decimal digits parse to their number, whatever follows that neither continues the digits nor makes a lone 0 into a `0x` prefix |
| UserTables.SignedConcat | apps/web/src/app/api/v1/favorites/route.ts:37 | a helper: concatenation regroups around the sign |
| UserTables.ParseIntToString | apps/web/src/app/api/v1/favorites/route.ts:37-39 | every integer written in decimal parses back to itself, with any non-digit text after it, except an x after 0 |
| UserTables.ParseHex | apps/web/src/app/api/v1/favorites/route.ts:37-39 | `0x` or `0X` and hex digits in either case parse to their base-16 value, whatever non-hex text follows |
| UserTables.HexWithoutDigits | apps/web/src/app/api/v1/favorites/route.ts:37-39 | `0x` with no hex digit after it is NaN, not 0 |
| UserTables.DecimalText | apps/web/src/app/api/v1/favorites/route.ts:37-39 | `String(m)` is decimal digits that read back as m, and is "0" only for 0 |
| UserTables.ParamOr | apps/web/src/app/api/v1/favorites/route.ts:37-39 | a non-empty parameter is used, an empty or missing one falls back to the default text |
| UserTables.PageSize | apps/web/src/app/api/v1/favorites/route.ts:38-41 | the page size is the parsed limit capped at 100, and NaN exactly when the limit does not parse |
| UserTables.TotalPages | apps/web/src/app/api/v1/favorites/route.ts:110 | the page count is the least number of pages of the given size that cover the total, and undefined for a zero size |
| UserTables.Window | apps/web/src/app/api/v1/favorites/route.ts:76-79 | a range from the offset of at most limit rows, in listing order, full when the listing is long enough; a negative offset or limit is refused |
| UserTables.PagesPrefix | apps/web/src/app/api/v1/favorites/route.ts:42-79 | the first n pages together are the listing's first n times limit rows |
| UserTables.PagesCoverListing | apps/web/src/app/api/v1/favorites/route.ts:42-110 | the pages up to the page count hold the whole listing, and the page after it is empty |
| UserTables.Where | apps/web/src/app/api/v1/favorites/route.ts:59 | a filter keeps exactly the rows that satisfy it, and nothing else |
| UserTables.WhereNone | apps/web/src/app/api/v1/favorites/route.ts:59 | a filter nothing satisfies gives no rows |
| UserTables.WhereAll | apps/web/src/app/api/v1/favorites/route.ts:264-267 | a filter every row passes keeps the rows as they were |
| UserTables.Count | apps/web/src/app/api/v1/favorites/route.ts:93-96 | the exact count is the number of positions whose row satisfies the filter |
| UserTables.WhereCountsMatching | apps/web/src/app/api/v1/favorites/route.ts:93-96 | the filtered rows are as many as the matching positions |
| UserTables.Single | apps/web/src/app/api/v1/favorites/route.ts:152-157 | `.single()` finds a row exactly when one row matches, and that row matches |
| UserTables.NewestFirst | apps/web/src/app/api/v1/favorites/route.ts:60 | ordering by creation time keeps the same rows |
| UserTables.NewestFirstOrdered | apps/web/src/app/api/v1/favorites/route.ts:60 | ordered rows run from newest to oldest |
| UserTables.IdList | apps/web/src/app/api/v1/favorites/route.ts:250 | the ids are the non-empty comma-separated parts of the parameter, and absent without it |
| UserTables.IdsHaveNoComma | apps/web/src/app/api/v1/favorites/route.ts:250 | no id contains a comma |
| Favorites.ParseNewFavorite | apps/web/src/app/api/v1/favorites/route.ts:8-13 | an accepted body is well-formed (a 1..255 domain, at most 500 units of notes) and carries its domain |
| Favorites.ParseToJson | apps/web/src/app/api/v1/favorites/route.ts:8-13 | every well-formed favorite, written as JSON, is parsed back to itself |
| Favorites.ParseRejectsOutOfRange | apps/web/src/app/api/v1/favorites/route.ts:8-13 | an empty or over-long domain, or notes over 500 units, are rejected |
| Favorites.NewRow | apps/web/src/app/api/v1/favorites/route.ts:170-180 | the inserted row carries the caller, the domain, the notes and availability, the tags or none, and a check time exactly when availability was given |
| Favorites.AvailabilityFilter | apps/web/src/app/api/v1/favorites/route.ts:67-73 | "true" and "false" filter on availability; any other value filters nothing |
| Favorites.ListingContents | apps/web/src/app/api/v1/favorites/route.ts:47-73 | the listing holds exactly the matching rows, newest first |
| Favorites.RequestedQuery | apps/web/src/app/api/v1/favorites/route.ts:43-73 | the query is the caller's, searches only when the search text is non-empty, and filters availability as the parameter says |
| Favorites.AfterDeleteContents | apps/web/src/app/api/v1/favorites/route.ts:263-267 | deleting removes exactly the caller's rows with a listed id; other users' rows and unlisted ids stay |
| Favorites.DeletedCountCountsIds | apps/web/src/app/api/v1/favorites/route.ts:250-283 | for every table and id list, a delete matching none of the caller's rows leaves the rows as they were and still reports every id sent as deleted |
| Favorites.AtMostOneMatch | apps/web/src/app/api/v1/favorites/route.ts:152-157 | with unique (user, domain) pairs, at most one row matches a caller's domain |
| Favorites.ExistingIffPresent | apps/web/src/app/api/v1/favorites/route.ts:152-167 | with unique pairs, the duplicate lookup finds a row exactly when the caller already has the domain |
| Favorites.FavoritesTable.constructor | apps/web/src/app/api/v1/favorites/route.ts:47-48 | the table starts empty |
| Favorites.FavoritesTable.List | apps/web/src/app/api/v1/favorites/route.ts:16-124 | a signed-out caller gets 401; otherwise the page of matching rows newest first, or a database error for a failed or refused range, with a total counting all of the caller's favorites |
| Favorites.FavoritesTable.RequestQuery | apps/web/src/app/api/v1/favorites/route.ts:43-73 | the query keeps the search only when it is not empty and filters on availability only for the texts "true" and "false" |
| Favorites.FavoritesTable.Add | apps/web/src/app/api/v1/favorites/route.ts:127-227 | 401, 500 for a body that is not JSON, 400 for an invalid one or an existing domain, 500 for a failed insert; otherwise the new row is appended and returned with 201. A failed lookup reads as "not found", so the row is inserted; (user, domain) stays unique whenever the lookup succeeds |
| Favorites.FailedLookupDuplicates | apps/web/src/app/api/v1/favorites/route.ts:151-157 | after a failed lookup, adding a pair the caller already has leaves two rows with that pair |
| Favorites.FavoritesTable.Remove | apps/web/src/app/api/v1/favorites/route.ts:230-294 | 401, 400 without ids, 500 on failure; otherwise the caller's listed rows are removed and the number of ids reported |
| Favorites.WhereKeepsNoDuplicates | apps/web/src/app/api/v1/favorites/route.ts:263-267 | deleting rows keeps (user, domain) unique |
| History.AnyField | apps/web/src/app/api/v1/history/route.ts:9-12 | an optional any-typed field is present exactly when the body has it, with its value |
| History.ParseNewEntry | apps/web/src/app/api/v1/history/route.ts:7-13 | an accepted body is well-formed; a missing result count is 0 and a missing search type is "keyword" |
| History.ParseToJson | apps/web/src/app/api/v1/history/route.ts:7-13 | every well-formed entry, written as JSON, is parsed back to itself |
| History.ParseRejects | apps/web/src/app/api/v1/history/route.ts:10-11 | a result count that is not a non-negative integer, or an unknown search type, is rejected |
| History.NewRow | apps/web/src/app/api/v1/history/route.ts:166-175 | the inserted row carries the caller, the term, the type and the count, created now |
| History.AtMostOneRecent | apps/web/src/app/api/v1/history/route.ts:146-155 | in a table whose repeats are over an hour apart, at most one row matches the hourly duplicate lookup |
| History.ExistingIffRecent | apps/web/src/app/api/v1/history/route.ts:146-163 | in such a table the lookup finds a row exactly when the same search was recorded within the hour |
| History.AppendKeepsSpaced | apps/web/src/app/api/v1/history/route.ts:157-175 | inserting only when no same search lies within the hour keeps repeats over an hour apart |
| History.RequestedQuery | apps/web/src/app/api/v1/history/route.ts:43-68 | the query is the caller's and filters on the search text and the type only when they are non-empty |
| History.ListingContents | apps/web/src/app/api/v1/history/route.ts:47-68 | the listing holds exactly the matching rows, newest first |
| History.AfterDeleteContents | apps/web/src/app/api/v1/history/route.ts:248-268 | other users' rows stay; clearing removes all of the caller's rows; otherwise only listed ids go |
| History.WhereKeepsNotAfter | apps/web/src/app/api/v1/history/route.ts:248-268 | deleting keeps every row no newer than now |
| History.WhereKeepsSpaced | apps/web/src/app/api/v1/history/route.ts:248-268 | deleting keeps repeats over an hour apart |
| History.HistoryTable.constructor | apps/web/src/app/api/v1/history/route.ts:47-48 | the table starts empty |
| History.HistoryTable.List | apps/web/src/app/api/v1/history/route.ts:16-119 | a signed-out caller gets 401; otherwise the page of matching rows newest first, or a database error, with a total counting all of the caller's history |
| History.HistoryTable.Record | apps/web/src/app/api/v1/history/route.ts:122-222 | 401, 500 for a body that is not JSON, 400 for an invalid one; a search recorded within the hour is skipped with 200; otherwise the row is appended and returned with 201. A failed lookup reads as "not found", so the row is inserted; no row is newer than now, and repeats stay over an hour apart whenever the lookup succeeds |
| History.FailedLookupRepeats | apps/web/src/app/api/v1/history/route.ts:148-155 | after a failed lookup, a search repeated within the hour is inserted again and repeats are no longer an hour apart |
| History.HistoryTable.Remove | apps/web/src/app/api/v1/history/route.ts:225-298 | 401; 400 when neither clear_all=true nor ids are given; 500 on failure; otherwise all of the caller's rows or the listed ones are removed, reported without a count or with the number of ids |
| VerifyEnv.FirstExisting | scripts/verify-env.js:13-20 | the first candidate file that exists, or none when none does |
| VerifyEnv.FirstExistingAt | scripts/verify-env.js:19-35 | a candidate that exists with none existing before it is the first existing one |
| VerifyEnv.ParseLineSplitsAtFirstEquals | scripts/verify-env.js:26-31 | a line sets a variable exactly when, trimmed, it is not a comment and has an `=` after a non-empty key; the key is the text before the first `=` and the value all of the text after it |
| VerifyEnv.EmptyValue | scripts/verify-env.js:28-31 | `KEY=` sets the variable to the empty string |
| VerifyEnv.IndexOfAppended | scripts/verify-env.js:28 | a helper: the first `=` of a key followed by `=` is at the key's end |
| VerifyEnv.TrimKeeps | scripts/verify-env.js:26 | a text without white space at either end is its own trim |
| VerifyEnv.Assignments | scripts/verify-env.js:25-33 | one parsed assignment per line, in order |
| VerifyEnv.LastLineWins | scripts/verify-env.js:25-33 | the last line assigning a key decides its value, whatever the environment held |
| VerifyEnv.UnsetKeyKept | scripts/verify-env.js:25-33 | a key no line assigns keeps what the environment held |
| VerifyEnv.Process.constructor | scripts/verify-env.js:1-10 | the process starts with its environment and no exit code |
| VerifyEnv.Process.LoadEnvFiles | scripts/verify-env.js:19-36 | only the first existing candidate is read, and its lines are applied in order; without one the environment is unchanged |
| VerifyEnv.Process.ApplyFile | scripts/verify-env.js:25-33 | the loop over the lines applies each line's assignment in order |
| VerifyEnv.Process.CheckRequired | scripts/verify-env.js:62-117 | the run is valid exactly when the OpenAI key is set, non-empty and accepted, and otherwise exits with code 1; the environment is unchanged |
| ServiceWorker.StorableExactly | apps/web/public/sw.js:48-69 | a network response is stored exactly when it is a 200 of type basic, not redirected, for a same-origin URL |
| ServiceWorker.StoredIsPlainSuccess | apps/web/public/sw.js:50-57 | a stored response is a plain success: the redirect-status test never excludes anything the 200 test kept |
| ServiceWorker.Match | apps/web/public/sw.js:42-46 | `caches.match` finds a response exactly when some cache holds the URL, and it is that cache's response |
| ServiceWorker.AddAll | apps/web/public/sw.js:11 | `addAll` stores one response per listed URL |
| ServiceWorker.PrecacheExactlyFour | apps/web/public/sw.js:3-11 | installation pre-caches exactly the four app-shell URLs |
| ServiceWorker.Kept | apps/web/public/sw.js:80-88 | activation keeps only the current cache name, and keeps it when it was there |
| ServiceWorker.KeptIsCurrent | apps/web/public/sw.js:80-88 | with distinct cache names, exactly the current cache survives, or none |
| ServiceWorker.MatchAfterActivate | apps/web/public/sw.js:42-46 | once only the current cache is left, a match is what that cache holds for the URL |
| ServiceWorker.Caches.constructor | apps/web/public/sw.js:1-4 | the worker starts with no caches |
| ServiceWorker.Caches.Open | apps/web/public/sw.js:9 | opening a cache creates it empty when missing and changes nothing otherwise |
| ServiceWorker.Caches.Install | apps/web/public/sw.js:7-14 | the current cache is opened; it gains all four pre-cached responses when every fetch succeeds and none otherwise; other caches are untouched |
| ServiceWorker.Caches.CollectAll | apps/web/public/sw.js:11 | `addAll` succeeds exactly when every fetch is usable, and then its entries are each URL with its response |
| ServiceWorker.Caches.HandleFetch | apps/web/public/sw.js:17-75 | non-http, non-GET, /api/ and /auth/ requests pass through; a cached response is served without the network; otherwise the network answer is returned and stored in the current cache exactly when it is storable |
| ServiceWorker.Caches.Activate | apps/web/public/sw.js:78-91 | every cache but the current one is deleted, and the current one keeps its contents |
| ApiClient.Get | apps/web/src/lib/api-client.ts:88-100 | `URLSearchParams.get` finds nothing exactly when no pair has the name |
| ApiClient.GetFirst | apps/web/src/lib/api-client.ts:88-100 | otherwise it returns the value of the first pair with the name |
| ApiClient.Without | apps/web/src/lib/api-client.ts:88-100 | removing a name leaves only pairs of other names, all taken from the original |
| ApiClient.GetWithout | apps/web/src/lib/api-client.ts:88-100 | removing one name does not change what any other name reads |
| ApiClient.GetSetParam | apps/web/src/lib/api-client.ts:88-100 | after `set`, the name reads the new value and every other name reads what it did |
| ApiClient.SearchParams.constructor | apps/web/src/lib/api-client.ts:88 | the parameters start empty |
| ApiClient.SearchParams.Set | apps/web/src/lib/api-client.ts:88-100 | `set` replaces the name's pairs with one pair holding the new value |
| ApiClient.SentNumber | apps/web/src/lib/api-client.ts:89-94 | a number is sent exactly when it is truthy, that is given and non-zero |
| ApiClient.GetFavoritesQuery | apps/web/src/lib/api-client.ts:82-100 | page and limit are sent only when truthy and search only when non-empty; available is sent as "true" or "false" whenever given |
| ApiClient.GetHistoryQuery | apps/web/src/lib/api-client.ts:175-193 | page, limit, search and search_type are sent only when truthy |
| ApiClient.FavoritesQueryReads | apps/web/src/lib/api-client.ts:88-100 | the favorites query reads back page and limit when truthy, the search when non-empty and the availability as "true"/"false" when given |
| ApiClient.HistoryQueryReads | apps/web/src/lib/api-client.ts:181-193 | the history query reads back each of page, limit, search and search_type exactly when it was truthy |
| ApiClient.GetSetNumber | apps/web/src/lib/api-client.ts:89-94 | setting a number parameter makes it read back as its decimal text when truthy and leaves every other parameter as it was |
| ApiClient.GetSetText | apps/web/src/lib/api-client.ts:95-97 | setting a text parameter makes it read back when non-empty and leaves every other parameter as it was |
| ApiClient.DeleteFavoritesQuery | apps/web/src/lib/api-client.ts:159-169 | the ids are sent joined by commas |
| ApiClient.DeleteHistoryQuery | apps/web/src/lib/api-client.ts:236-252 | ids are sent only when non-empty, and clear_all=true only when clearing all was asked for |
| ApiClient.PageReadBack | apps/web/src/lib/api-client.ts:89-91 | the server reads the page the client sent, or page 1 when none was sent |
| ApiClient.LimitReadBack | apps/web/src/lib/api-client.ts:92-94 | the server reads the limit the client sent, or its default, capped at 100 |
| ApiClient.DefaultLimits | apps/web/src/app/api/v1/favorites/route.ts:39 | the servers' default limits are 20 for favorites and 50 for history |
| ApiClient.SentTextParses | apps/web/src/lib/api-client.ts:90 | the decimal text of a number parses back to it |
| ApiClient.FavoritesFiltersReadBack | apps/web/src/lib/api-client.ts:95-100 | the server's favorites query has exactly the filters the client sent |
| ApiClient.HistoryFiltersReadBack | apps/web/src/lib/api-client.ts:188-193 | the server's history query has exactly the filters the client sent |
| ApiClient.IdsReadBack | apps/web/src/lib/api-client.ts:162-163 | ids without commas arrive as the same list, minus empty ids |
| ApiClient.EmptyHistoryDeleteRefused | apps/web/src/lib/api-client.ts:240-252 | the query `deleteHistory` builds with neither ids nor clearAll is one the DELETE handler answers with 400; with clearAll it never is |
| ApiClient.HandleApiError | apps/web/src/lib/api-client.ts:285-297 | the message is a truthy error.error.message, else the object's own message, else the fallback text |
| ApiClient.HandleApiErrorNonEmpty | apps/web/src/lib/api-client.ts:285-297 | without an own message the result is never empty |
| DomainGenerator.NameOf | apps/web/src/components/domain-generator.tsx:173-174 | a domain entry is named by its domain, else by its name, and only by a non-empty one |
| DomainGenerator.EntryNamesMembers | apps/web/src/components/domain-generator.tsx:171-185 | the names of a list of entries are exactly the names some entry has |
| DomainGenerator.SuggestionNamesMembers | apps/web/src/components/domain-generator.tsx:170-186 | the names of the suggestions are exactly the names of some suggestion's entries |
| DomainGenerator.FindByDomain | apps/web/src/components/domain-generator.tsx:175-177 | `find` gives nothing exactly when no favorite has the domain, and otherwise a favorite with that domain |
| DomainGenerator.FindByDomainFirst | apps/web/src/components/domain-generator.tsx:175-177 | `find` gives the first favorite with the domain |
| DomainGenerator.ReflectsUnique | apps/web/src/components/domain-generator.tsx:166-190 | the state map and the id map are determined by the names and the favorites |
| DomainGenerator.ReflectsConsistent | apps/web/src/components/domain-generator.tsx:178-183 | a domain has a stored id only while its state is favorited |
| DomainGenerator.ReflectsRecord | apps/web/src/components/domain-generator.tsx:175-183 | recording one more name keeps the maps matching the favorites |
| DomainGenerator.Planned | apps/web/src/components/domain-generator.tsx:206-248 | a favorited domain with a stored id is removed by that id, a favorited one without an id makes no call, and any other is added with its availability |
| DomainGenerator.Generator.constructor | apps/web/src/components/domain-generator.tsx:82-90 | the component starts idle with no results, no states, no ids and nothing in progress |
| DomainGenerator.Generator.BeginSubmit | apps/web/src/components/domain-generator.tsx:105-109 | submitting sets loading and clears the results, the states and the ids |
| DomainGenerator.Generator.CheckFavoriteStates | apps/web/src/components/domain-generator.tsx:160-195 | with the favorites fetched, each named domain gets a state, true exactly when some favorite has it, and favorited ones get the first match's id; without them nothing changes |
| DomainGenerator.RecordEntries | apps/web/src/components/domain-generator.tsx:172-185 | after one suggestion's domains the maps reflect the favorites for every name seen so far and that suggestion's names |
| DomainGenerator.Generator.StartToggle | apps/web/src/components/domain-generator.tsx:198-213 | an undefined domain, or one already in progress, changes nothing; otherwise the domain is marked in progress and the planned call is made |
| DomainGenerator.Generator.FinishToggle | apps/web/src/components/domain-generator.tsx:215-285 | the domain leaves the in-progress set; a successful remove unfavorites it and drops its id; a successful add favorites it and stores a returned id; a failure changes nothing and shows the server's message |
| DomainGenerator.DoubleClick | apps/web/src/components/domain-generator.tsx:209-213 | a second toggle of a domain still in progress makes no call |
| DomainGenerator.CheckedFavoritesArePageOf100 | apps/web/src/components/domain-generator.tsx:163 | a favorites request with no page and any limit of 100 or more, the 1000 sent here among them, is read by the server as page 1 of 100 rows |

## Left out

- JavaScript numbers: integers and reals stand in for IEEE doubles, and no rounding is modelled. `parseInt` of a page or limit is an integer or absent. A NaN or negative range reaches the database, which refuses it, and that is modelled as a database error.
- Lengths and indices are counted in characters. They equal UTF-16 units for text in the Basic Multilingual Plane. The string hash, the default sort and the zod `.min`/`.max` length checks use UTF-16 units explicitly: the favorite's domain and notes, the generation description and the history search term are measured with `Encoding.Utf16`.
- `ilike` filters: the search is a case-insensitive substring match, with case folded for ASCII only. `%` and `_` inside the search term are not treated as wildcards.
- The PostgREST `or` filter syntax and column projection: rows are filtered and returned whole.
- Ordering by `created_at`: rows with equal timestamps keep their table order.
- Database uniqueness constraints, generated ids and `created_at` values are parameters, not computed.
- The history PATCH handler's statistics call (`get_search_stats`) is not part of this model.
- In the favorites and history handlers a thrown `createClient` is not modelled; it would reach the catch-all 500. There the session is an auth-error flag and an optional user (`UserTables.Session`). The generate route and `api-auth` do model a failing client, through `clientError` and `clientAvailable`.
- zod error details: a validation failure is modelled by its status code and error code, without the list of issues.
- Promise.race, timeouts and concurrency: a timeout is an input outcome, and `Promise.all` is modelled as a sequential loop.
- V1GenerateRoute.Post: after a timeout, the generation keeps running, and when it finishes it logs the call a second time with the shared status code, 504 by then. A timed-out call can therefore count twice toward the monthly quota. The model logs it once.
- The SQL count functions behind the rate limits are modelled as counts over the in-memory request log.
- URLSearchParams percent-encoding: query strings are built from the raw values.
- SHA-256, `getNextMidnight` and the start of the month are parameters.
- Invalid dates are not modelled, and timestamps are integers.
- The AI's output: the generated names are an input, and JSON stringify and parse are the identity on the JSON model.
- `formatCVSSScore` with NaN is not modelled: scores are reals.
- `generateHreflang`, `generateProductSchema` and `generateViewport` build constant objects with no logic beyond their literals.
- The v1 GET health check is not modelled: it returns the constant status 'ok', the service name, the API version and the current time, with no logic.
- The generator page's toast texts, analytics events, the notes text of `addFavorite`, and the generate request and `addSearchRecord` call of `onSubmit`: none affects the favorite bookkeeping.
- api-client's plain fetch wrappers (`addFavorite`, `getFavorite`, `updateFavorite`, `deleteFavorite`, `addSearchRecord`, `getHistoryItem`, `deleteHistoryItem`, `getSearchStats`, `getSystemStats`) have no logic beyond their URL.
- The service worker's asynchronous `cache.put` is modelled as done before the response returns. `cache.match` ignores Vary headers and URL normalisation.
- verify-env's logging and its optional variables are not modelled. Candidate paths stay relative to the working directory. `process.exit` is modelled as recording the exit code.
- Toggles of different domains interleave only at the start and finish steps of `DomainGenerator.Generator`.
- The 100 ms `setTimeout` in `getDomainPrice` is not modelled.
