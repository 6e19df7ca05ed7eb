/** API-key authentication for the public v1 API (apps/web/src/lib/api-auth.ts):
    extracting the key from a request, validating it against the `api_keys`
    table, and logging each call in the `api_key_usage` table. Both tables are
    classes holding their rows; SHA-256 and the clock are parameters, and
    `clientAvailable` says whether the database client could be created. */
module ApiAuth {
  import opened Strings
  import ApiKey
  import ApiKeyServer
  import Encoding
  import RateLimiting

  const RequiredError := "API key is required"
  const FormatError := "Invalid API key format"
  const InvalidKeyError := "Invalid API key"
  const ExpiredError := "API key has expired"
  const InternalError := "Internal server error"
  const BearerPrefix := "Bearer "

  // ------------------------------------------------------------ extraction

  /** `extractApiKey`: the text after 'Bearer ' when the Authorization header
      starts with exactly that prefix (the header form of section 2.1 of
      RFC 6750), else a non-empty `api_key` query parameter, else nothing. */
  function ExtractApiKey(authorization: Option<string>, apiKeyParam: Option<string>): (r: Option<string>)
    ensures authorization.Some? && StartsWith(authorization.value, BearerPrefix) ==>
      r.Some? && BearerPrefix + r.value == authorization.value
    ensures !(authorization.Some? && StartsWith(authorization.value, BearerPrefix)) ==>
      (r.Some? <==> Truthy(apiKeyParam)) && (r.Some? ==> r == apiKeyParam)
  {
    if authorization.Some? && StartsWith(authorization.value, BearerPrefix) then
      var key := Substring(authorization.value, 7, |authorization.value|);
      assert key == authorization.value[7..];
      assert authorization.value == authorization.value[..7] + key;
      Some(key)
    else if Truthy(apiKeyParam) then apiKeyParam
    else None
  }

  /** A bearer credential is read back exactly, whatever the query says. */
  lemma ExtractBearer(token: string, apiKeyParam: Option<string>)
    ensures ExtractApiKey(Some(BearerPrefix + token), apiKeyParam) == Some(token)
  {
    var h := BearerPrefix + token;
    assert StartsWith(h, BearerPrefix);
    assert h[7..] == token;
  }

  /** The prefix test is case-sensitive: 'bearer ' does not count, and the
      query parameter decides. */
  lemma ExtractLowercaseBearer(token: string, apiKeyParam: Option<string>)
    ensures ExtractApiKey(Some("bearer " + token), apiKeyParam) == (if Truthy(apiKeyParam) then apiKeyParam else None)
  {
    var h := "bearer " + token;
    assert h[0] == 'b';
  }

  // ------------------------------------------------------------ validation

  /** The `api_keys` columns the validation reads or writes; times are ms. */
  datatype ApiKeyRow = ApiKeyRow(id: string, userId: string, expiresAt: Option<int>, lastUsedAt: Option<int>)

  datatype ValidationResult = ValidationResult(valid: bool, userId: Option<string>, keyId: Option<string>, error: Option<string>)

  function Rejected(error: string): ValidationResult {
    ValidationResult(false, None, None, Some(error))
  }

  /** `data.expires_at && new Date(data.expires_at) < new Date()`. */
  predicate Expired(row: ApiKeyRow, now: int) {
    row.expiresAt.Some? && row.expiresAt.value < now
  }

  /** The outcome `validateApiKey` returns for a table `rows`, keyed by stored hash. */
  function Validate(rows: map<string, ApiKeyRow>, sha256: seq<Encoding.Byte> -> seq<Encoding.Byte>,
                    clientAvailable: bool, apiKey: string, now: int): (r: ValidationResult)
    ensures r.valid <==> r.error.None?
    ensures r.valid ==> r.userId.Some? && r.keyId.Some?
    ensures !r.valid ==> r.userId.None? && r.keyId.None?
    ensures r.valid ==> ApiKeyServer.HashApiKey(sha256, apiKey) in rows
  {
    if apiKey == "" then Rejected(RequiredError)
    else if !ApiKey.ValidateApiKey(apiKey) then Rejected(FormatError)
    else if !clientAvailable then Rejected(InternalError)
    else
      var h := ApiKeyServer.HashApiKey(sha256, apiKey);
      if h !in rows then Rejected(InvalidKeyError)
      else if Expired(rows[h], now) then Rejected(ExpiredError)
      else ValidationResult(true, Some(rows[h].userId), Some(rows[h].id), None)
  }

  /** A key is accepted exactly when it is well formed, the database is
      reachable, its hash is stored, and the stored row has not expired; it
      then carries the row's user and key ids. */
  lemma ValidateAccepts(rows: map<string, ApiKeyRow>, sha256: seq<Encoding.Byte> -> seq<Encoding.Byte>,
                        clientAvailable: bool, apiKey: string, now: int)
    ensures var r, h := Validate(rows, sha256, clientAvailable, apiKey, now), ApiKeyServer.HashApiKey(sha256, apiKey);
      && (r.valid <==> ApiKey.MatchesPattern(apiKey) && clientAvailable && h in rows && !Expired(rows[h], now))
      && (r.valid ==> r.userId == Some(rows[h].userId) && r.keyId == Some(rows[h].id))
  {
    ApiKey.ValidKeyFormatIffPattern(apiKey);
    if ApiKey.MatchesPattern(apiKey) {
      assert apiKey != "";
    }
  }

  /** Malformed keys are rejected before the database is consulted: the
      outcome does not depend on the table or on the client. */
  lemma MalformedKeyNoLookup(rows1: map<string, ApiKeyRow>, rows2: map<string, ApiKeyRow>,
                             sha256: seq<Encoding.Byte> -> seq<Encoding.Byte>, c1: bool, c2: bool, apiKey: string, now: int)
    requires !ApiKey.MatchesPattern(apiKey)
    ensures Validate(rows1, sha256, c1, apiKey, now) == Validate(rows2, sha256, c2, apiKey, now)
    ensures Validate(rows1, sha256, c1, apiKey, now).error == Some(if apiKey == "" then RequiredError else FormatError)
  {
    ApiKey.ValidKeyFormatIffPattern(apiKey);
  }

  /** Only the key's own row matters: two tables that agree on it give the same outcome. */
  lemma ValidateReadsOneRow(rows1: map<string, ApiKeyRow>, rows2: map<string, ApiKeyRow>,
                            sha256: seq<Encoding.Byte> -> seq<Encoding.Byte>, clientAvailable: bool, apiKey: string, now: int)
    requires var h := ApiKeyServer.HashApiKey(sha256, apiKey);
      (h in rows1 <==> h in rows2) && (h in rows1 ==> rows1[h] == rows2[h])
    ensures Validate(rows1, sha256, clientAvailable, apiKey, now) == Validate(rows2, sha256, clientAvailable, apiKey, now)
  {
  }

  /** Expiry is permanent: a key rejected as expired stays rejected later, and
      a row without `expires_at` never expires. */
  lemma ExpiryPermanent(row: ApiKeyRow, now: int, later: int)
    requires now <= later
    ensures Expired(row, now) ==> Expired(row, later)
    ensures row.expiresAt.None? ==> !Expired(row, later)
  {
  }

  /** A freshly issued key (as `generateApiKey` builds them) whose hash is
      stored and whose row has not expired is accepted. */
  lemma IssuedKeyAccepted(rows: map<string, ApiKeyRow>, sha256: seq<Encoding.Byte> -> seq<Encoding.Byte>,
                          timestamp: string, randomPart: string, now: int)
    requires |timestamp| >= 1 && forall k :: 0 <= k < |timestamp| ==> Encoding.IsRadixDigit(timestamp[k], 36)
    requires |randomPart| == ApiKey.RandomPartLength
    requires forall k :: 0 <= k < |randomPart| ==> ApiKey.IsAlnum(randomPart[k])
    requires var h := ApiKeyServer.HashApiKey(sha256, ApiKey.KeyPrefix + timestamp + "_" + randomPart);
      h in rows && !Expired(rows[h], now)
    ensures Validate(rows, sha256, true, ApiKey.KeyPrefix + timestamp + "_" + randomPart, now).valid
  {
    ApiKey.GeneratedKeyValid(timestamp, randomPart);
  }

  /** The `api_keys` table, keyed by stored hash. */
  class ApiKeyTable {
    var rows: map<string, ApiKeyRow>
    var clientAvailable: bool

    constructor(rows: map<string, ApiKeyRow>, clientAvailable: bool)
      ensures this.rows == rows && this.clientAvailable == clientAvailable
    {
      this.rows := rows;
      this.clientAvailable := clientAvailable;
    }

    /** `validateApiKey`: on success the row's `last_used_at` becomes `now`;
        nothing else in the table changes. */
    method ValidateApiKey(apiKey: string, sha256: seq<Encoding.Byte> -> seq<Encoding.Byte>, now: int)
      returns (r: ValidationResult)
      modifies this`rows
      ensures r == Validate(old(rows), sha256, clientAvailable, apiKey, now)
      ensures var h := ApiKeyServer.HashApiKey(sha256, apiKey);
        rows == if r.valid then old(rows)[h := old(rows)[h].(lastUsedAt := Some(now))] else old(rows)
    {
      if apiKey == "" {
        return Rejected(RequiredError);
      }
      if !ApiKey.ValidateApiKey(apiKey) {
        return Rejected(FormatError);
      }
      if !clientAvailable {
        return Rejected(InternalError);
      }
      var keyHash := ApiKeyServer.HashApiKey(sha256, apiKey);
      if keyHash !in rows {
        return Rejected(InvalidKeyError);
      }
      var data := rows[keyHash];
      if Expired(data, now) {
        return Rejected(ExpiredError);
      }
      rows := rows[keyHash := data.(lastUsedAt := Some(now))];
      r := ValidationResult(true, Some(data.userId), Some(data.id), None);
    }

    /** `requireApiKey`: no extracted key (or an empty one) is rejected as
        required without touching the table; otherwise `validateApiKey`. */
    method RequireApiKey(authorization: Option<string>, apiKeyParam: Option<string>,
                         sha256: seq<Encoding.Byte> -> seq<Encoding.Byte>, now: int)
      returns (r: ValidationResult)
      modifies this`rows
      ensures var key := ExtractApiKey(authorization, apiKeyParam);
        !Truthy(key) ==> r == Rejected(RequiredError) && rows == old(rows)
      ensures var key := ExtractApiKey(authorization, apiKeyParam);
        Truthy(key) ==> r == Validate(old(rows), sha256, clientAvailable, key.value, now)
      ensures var key := ExtractApiKey(authorization, apiKeyParam);
        Truthy(key) ==>
          var h := ApiKeyServer.HashApiKey(sha256, key.value);
          rows == if r.valid then old(rows)[h := old(rows)[h].(lastUsedAt := Some(now))] else old(rows)
    {
      var apiKey := ExtractApiKey(authorization, apiKeyParam);
      if !Truthy(apiKey) {
        return Rejected(RequiredError);
      }
      r := ValidateApiKey(apiKey.value, sha256, now);
    }
  }

  // ------------------------------------------------------------ usage log

  /** An `api_key_usage` row; `createdAt` is the insert time in ms. */
  datatype UsageRow = UsageRow(
    apiKeyId: string,
    endpoint: string,
    httpMethod: string,
    statusCode: int,
    ipAddress: string,
    userAgent: string,
    createdAt: int)

  /** `request.ip || x-forwarded-for || 'unknown'`: the whole forwarded header, not its first entry. */
  function UsageIp(req: RateLimiting.Request): (ip: string)
    ensures ip != ""
    ensures Truthy(req.connectionIp) ==> ip == req.connectionIp.value
    ensures !Truthy(req.connectionIp) && Truthy(req.forwardedFor) ==> ip == req.forwardedFor.value
  {
    if Truthy(req.connectionIp) then req.connectionIp.value
    else if Truthy(req.forwardedFor) then req.forwardedFor.value
    else "unknown"
  }

  function UsageAgent(req: RateLimiting.Request): (ua: string)
    ensures ua != ""
    ensures Truthy(req.userAgent) ==> ua == req.userAgent.value
  {
    if Truthy(req.userAgent) then req.userAgent.value else "unknown"
  }

  /** The `api_key_usage` table. An insert that fails (`accepting` false) is
      swallowed and leaves the table as it was. */
  class UsageLog {
    var rows: seq<UsageRow>
    var accepting: bool

    constructor(rows: seq<UsageRow>, accepting: bool)
      ensures this.rows == rows && this.accepting == accepting
    {
      this.rows := rows;
      this.accepting := accepting;
    }

    /** `logApiUsage`: appends one row for the call, never fails the caller. */
    method LogApiUsage(keyId: string, endpoint: string, httpMethod: string, statusCode: int,
                       req: RateLimiting.Request, now: int)
      modifies this`rows
      ensures rows == if accepting
        then old(rows) + [UsageRow(keyId, endpoint, httpMethod, statusCode, UsageIp(req), UsageAgent(req), now)]
        else old(rows)
    {
      if accepting {
        rows := rows + [UsageRow(keyId, endpoint, httpMethod, statusCode, UsageIp(req), UsageAgent(req), now)];
      }
    }
  }
}
