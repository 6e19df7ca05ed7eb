/** Admission control for the public generate endpoint
    (apps/web/src/lib/rate-limiting.ts): client identification, the guest IP,
    session and signed-in user limits, and the `rate_limiting` request log.
    The log is a class holding the table's rows. The SQL counting functions
    are not part of this model; they are modelled as counting the matching rows
    created within the window before `now`. The clock (`now`, the next local
    midnight) is a parameter. */
module RateLimiting {
  import opened Strings
  import Encoding

  // ---------------------------------------------------------- limits

  const GuestDailyRequestsPerIp := 5
  const GuestRequestsPerSession := 2
  const GuestRateWindowMs := 60 * 1000
  const GuestRateMaxRequests := 2
  const UserDailyRequests := 10
  const UserRateWindowMs := 60 * 1000
  const UserRateMaxRequests := 2
  const DayMs := 24 * 60 * 60 * 1000

  // ---------------------------------------------------------- requests

  /** The parts of an incoming request the limiter reads; an absent header,
      cookie or connection address is None. */
  datatype Request = Request(
    forwardedFor: Option<string>,
    realIp: Option<string>,
    connectionIp: Option<string>,
    sessionCookie: Option<string>,
    userAgent: Option<string>)

  /** `getClientIP`. */
  function GetClientIP(req: Request): (ip: string)
    ensures Truthy(req.forwardedFor) ==>
      ip == Trim(if ',' in req.forwardedFor.value
                 then req.forwardedFor.value[..IndexOf(req.forwardedFor.value, ',')]
                 else req.forwardedFor.value)
    ensures !Truthy(req.forwardedFor) && Truthy(req.realIp) ==> ip == req.realIp.value
    ensures !Truthy(req.forwardedFor) && !Truthy(req.realIp) ==>
      ip == if Truthy(req.connectionIp) then req.connectionIp.value else "127.0.0.1"
  {
    if Truthy(req.forwardedFor) then
      var ff := req.forwardedFor.value;
      SplitHeadAndRest(ff, ',', IndexOf(ff, ','));
      Trim(Split(ff, ',')[0])
    else if Truthy(req.realIp) then req.realIp.value
    // the forwarded-for header is known to be null or empty here, so the
    // second fallback of the source's expression never applies
    else if Truthy(req.connectionIp) then req.connectionIp.value
    else "127.0.0.1"
  }

  /** The first ten characters of the base64 of the UTF-8 user agent (fewer
      when the encoding is shorter). */
  function SessionTag(userAgent: string): (t: string)
    ensures var b := Encoding.Base64(Encoding.Utf8(userAgent));
      && |t| == (if |b| < 10 then |b| else 10) && t == b[..|t|]
      && forall k :: 0 <= k < |t| ==> Encoding.IsBase64Char(t[k])
  {
    var b := Encoding.Base64(Encoding.Utf8(userAgent));
    Encoding.Base64Shape(Encoding.Utf8(userAgent));
    if |b| < 10 then b else b[..10]
  }

  /** `getSessionId`: the cookie when non-empty, else the client IP, a dash and
      the session tag of the user agent. */
  function GetSessionId(req: Request): (sid: string)
    ensures Truthy(req.sessionCookie) ==> sid == req.sessionCookie.value
    ensures !Truthy(req.sessionCookie) ==>
      sid == GetClientIP(req) + "-" + SessionTag(if req.userAgent.Some? then req.userAgent.value else "")
  {
    if Truthy(req.sessionCookie) then req.sessionCookie.value
    else GetClientIP(req) + "-" + SessionTag(if req.userAgent.Some? then req.userAgent.value else "")
  }

  // ---------------------------------------------------------- the request log

  /** A row of the `rate_limiting` table. */
  datatype RateRow = RateRow(
    ip: string,
    endpoint: string,
    userId: Option<string>,
    sessionId: Option<string>,
    userAgent: Option<string>,
    createdAt: int)

  /** How the database answers: `Up` answers counts from the rows and accepts
      inserts; `NoData` returns null data for every query (read as 0) and drops
      inserts without raising; `Down` makes every call raise. */
  datatype StoreMode = Up | NoData | Down

  /** Which rows a count covers. */
  datatype Key = ByIp(ip: string) | BySession(sessionId: string) | ByUser(userId: string)

  predicate Matches(row: RateRow, key: Key, endpoint: string, now: int, windowMs: int) {
    && row.endpoint == endpoint
    && now - windowMs < row.createdAt
    && match key
       case ByIp(ip) => row.ip == ip
       case BySession(sid) => row.sessionId == Some(sid)
       case ByUser(uid) => row.userId == Some(uid)
  }

  /** The number of rows for `key` and `endpoint` created within the window. */
  function CountRows(rows: seq<RateRow>, key: Key, endpoint: string, now: int, windowMs: int): (n: nat)
    ensures n <= |rows|
  {
    if |rows| == 0 then 0
    else CountRows(rows[..|rows| - 1], key, endpoint, now, windowMs)
         + (if Matches(rows[|rows| - 1], key, endpoint, now, windowMs) then 1 else 0)
  }

  lemma CountRowsAppend(rows: seq<RateRow>, row: RateRow, key: Key, endpoint: string, now: int, windowMs: int)
    ensures CountRows(rows + [row], key, endpoint, now, windowMs)
         == CountRows(rows, key, endpoint, now, windowMs) + (if Matches(row, key, endpoint, now, windowMs) then 1 else 0)
  {
    assert (rows + [row])[..|rows|] == rows;
  }

  /** The value `(count || 0)` the limiter compares, or None when the call raises. */
  function ReadCount(rows: seq<RateRow>, mode: StoreMode, key: Key, endpoint: string, now: int, windowMs: int): Option<nat> {
    match mode
    case Up => Some(CountRows(rows, key, endpoint, now, windowMs))
    case NoData => Some(0)
    case Down => None
  }

  // ---------------------------------------------------------- the checks

  datatype RateLimitResult = RateLimitResult(
    success: bool,
    limit: nat,
    remaining: nat,
    resetTime: int,
    error: Option<string>)

  const DailyLimitError := "已达到每日请求限制，请明天再试"
  const TooFrequentError := "请求过于频繁，请稍后再试"
  const SessionLimitError := "已达到会话请求限制"
  const UserDailyLimitError := "已达到每日请求限制"
  const IpCheckFailed := "限制检查失败"
  const SessionCheckFailed := "会话限制检查失败"
  const UserCheckFailed := "用户限制检查失败"

  /** The result of a check that raised: the request is let through. */
  function FailOpen(now: int, error: string): RateLimitResult {
    RateLimitResult(true, 0, 0, now, Some(error))
  }

  function Max0(x: int): nat {
    if x < 0 then 0 else x
  }

  /** `checkIPRateLimit`: for guests the 24-hour count first, then the
      one-minute count; any raised error fails open. */
  function CheckIPRateLimit(rows: seq<RateRow>, mode: StoreMode, ip: string, endpoint: string,
                            isAuthenticated: bool, now: int, nextMidnight: int): (r: RateLimitResult)
    ensures mode == Down ==> r == FailOpen(now, IpCheckFailed)
    ensures mode != Down && !isAuthenticated && ReadCount(rows, mode, ByIp(ip), endpoint, now, DayMs).value >= 5 ==>
      !r.success && r.limit == 5 && r.remaining == 0 && r.resetTime == nextMidnight
    ensures mode != Down ==> (r.success <==>
      (isAuthenticated || ReadCount(rows, mode, ByIp(ip), endpoint, now, DayMs).value < GuestDailyRequestsPerIp)
      && ReadCount(rows, mode, ByIp(ip), endpoint, now, 60000).value < 2)
    ensures mode != Down && r.success ==>
      r.limit == 2 && r.remaining == 2 - ReadCount(rows, mode, ByIp(ip), endpoint, now, 60000).value
      && r.resetTime == now + 60000 && r.error.None?
    ensures (mode != Down && !r.success
             && (isAuthenticated || ReadCount(rows, mode, ByIp(ip), endpoint, now, DayMs).value < GuestDailyRequestsPerIp)) ==>
      r.limit == 2 && r.resetTime == now + 60000 && r.error == Some(TooFrequentError)
    ensures !r.success ==> r.remaining == 0 && r.error.Some?
  {
    var window := if isAuthenticated then UserRateWindowMs else GuestRateWindowMs;
    var rateLimit := if isAuthenticated then UserRateMaxRequests else GuestRateMaxRequests;
    if mode == Down then FailOpen(now, IpCheckFailed)
    else
      var daily := ReadCount(rows, mode, ByIp(ip), endpoint, now, DayMs).value;
      if !isAuthenticated && daily >= GuestDailyRequestsPerIp then
        RateLimitResult(false, GuestDailyRequestsPerIp, 0, nextMidnight, Some(DailyLimitError))
      else
        var recent := ReadCount(rows, mode, ByIp(ip), endpoint, now, window).value;
        if recent >= rateLimit then
          RateLimitResult(false, rateLimit, 0, now + window, Some(TooFrequentError))
        else
          RateLimitResult(true, rateLimit, Max0(rateLimit - recent), now + window, None)
  }

  /** `checkSessionRateLimit`: the 24-hour session count against 2. */
  function CheckSessionRateLimit(rows: seq<RateRow>, mode: StoreMode, sessionId: string, endpoint: string,
                                 now: int, nextMidnight: int): (r: RateLimitResult)
    ensures mode == Down ==> r == FailOpen(now, SessionCheckFailed)
    ensures mode != Down ==>
      && (r.success <==> ReadCount(rows, mode, BySession(sessionId), endpoint, now, DayMs).value < 2)
      && r.limit == 2 && r.resetTime == nextMidnight
      && r.remaining == (if r.success then 2 - ReadCount(rows, mode, BySession(sessionId), endpoint, now, DayMs).value else 0)
  {
    if mode == Down then FailOpen(now, SessionCheckFailed)
    else
      var count := ReadCount(rows, mode, BySession(sessionId), endpoint, now, DayMs).value;
      if count >= GuestRequestsPerSession then
        RateLimitResult(false, GuestRequestsPerSession, 0, nextMidnight, Some(SessionLimitError))
      else
        RateLimitResult(true, GuestRequestsPerSession, Max0(GuestRequestsPerSession - count), nextMidnight, None)
  }

  /** `checkUserRateLimit`: the 24-hour count against 10, then the one-minute
      count against 2; success reports the daily limit and what is left of it. */
  function CheckUserRateLimit(rows: seq<RateRow>, mode: StoreMode, userId: string, endpoint: string,
                              now: int, nextMidnight: int): (r: RateLimitResult)
    ensures mode == Down ==> r == FailOpen(now, UserCheckFailed)
    ensures mode != Down ==>
      var daily := ReadCount(rows, mode, ByUser(userId), endpoint, now, DayMs).value;
      var recent := ReadCount(rows, mode, ByUser(userId), endpoint, now, 60000).value;
      && (r.success <==> daily < 10 && recent < 2)
      && (r.success ==> r.limit == 10 && r.remaining == 10 - daily && r.resetTime == nextMidnight)
      && (daily >= 10 ==> !r.success && r.limit == 10 && r.remaining == 0 && r.resetTime == nextMidnight)
      && (daily < 10 && recent >= 2 ==> !r.success && r.limit == 2 && r.remaining == 0 && r.resetTime == now + 60000)
  {
    if mode == Down then FailOpen(now, UserCheckFailed)
    else
      var daily := ReadCount(rows, mode, ByUser(userId), endpoint, now, DayMs).value;
      if daily >= UserDailyRequests then
        RateLimitResult(false, UserDailyRequests, 0, nextMidnight, Some(UserDailyLimitError))
      else
        var recent := ReadCount(rows, mode, ByUser(userId), endpoint, now, UserRateWindowMs).value;
        if recent >= UserRateMaxRequests then
          RateLimitResult(false, UserRateMaxRequests, 0, now + UserRateWindowMs, Some(TooFrequentError))
        else
          RateLimitResult(true, UserDailyRequests, Max0(UserDailyRequests - daily), nextMidnight, None)
  }

  /** The outcome of `checkRateLimit` and whether it records the request. */
  datatype Decision = Decision(result: RateLimitResult, record: bool)

  /** `checkRateLimit`: the IP check first; then the user check when signed in,
      else the session check; the first failure is returned as is. When all
      pass the request is recorded and the IP check's remaining count and reset
      time are returned with the daily limit of the caller's kind. */
  function DecideRateLimit(rows: seq<RateRow>, mode: StoreMode, req: Request, endpoint: string,
                           userId: Option<string>, now: int, nextMidnight: int): (d: Decision)
    ensures var ipCheck := CheckIPRateLimit(rows, mode, GetClientIP(req), endpoint, Truthy(userId), now, nextMidnight);
      && (!ipCheck.success ==> d == Decision(ipCheck, false))
      && (d.record <==> d.result.success)
      && (d.result.success ==> d.result.remaining == ipCheck.remaining && d.result.resetTime == ipCheck.resetTime
                               && d.result.limit == (if Truthy(userId) then 10 else 5))
      && (Truthy(userId) && ipCheck.success ==>
            (d.record <==> CheckUserRateLimit(rows, mode, userId.value, endpoint, now, nextMidnight).success))
      && (!Truthy(userId) && ipCheck.success ==>
            (d.record <==> CheckSessionRateLimit(rows, mode, GetSessionId(req), endpoint, now, nextMidnight).success))
  {
    var ip := GetClientIP(req);
    var isAuthenticated := Truthy(userId);
    var ipCheck := CheckIPRateLimit(rows, mode, ip, endpoint, isAuthenticated, now, nextMidnight);
    if !ipCheck.success then Decision(ipCheck, false)
    else
      var second := if isAuthenticated then CheckUserRateLimit(rows, mode, userId.value, endpoint, now, nextMidnight)
                    else CheckSessionRateLimit(rows, mode, GetSessionId(req), endpoint, now, nextMidnight);
      if !second.success then Decision(second, false)
      else
        var limit := if isAuthenticated then UserDailyRequests else GuestDailyRequestsPerIp;
        Decision(RateLimitResult(true, limit, ipCheck.remaining, ipCheck.resetTime, None), true)
  }

  /** The row `recordAPIRequest` inserts; empty strings are stored as null. */
  function RowFor(req: Request, endpoint: string, userId: Option<string>, now: int): RateRow {
    RateRow(GetClientIP(req), endpoint,
      if Truthy(userId) then userId else None,
      Some(GetSessionId(req)),
      if Truthy(req.userAgent) then req.userAgent else None,
      now)
  }

  /** With a working store, a request a guest gets admitted for keeps the
      guest's IP within 5 requests a day and 2 a minute, and its session within
      2 a day, counting the request just recorded. */
  lemma GuestAdmissionWithinLimits(rows: seq<RateRow>, req: Request, endpoint: string, now: int, nextMidnight: int)
    requires DecideRateLimit(rows, Up, req, endpoint, None, now, nextMidnight).record
    ensures var after := rows + [RowFor(req, endpoint, None, now)];
      && CountRows(after, ByIp(GetClientIP(req)), endpoint, now, DayMs) <= GuestDailyRequestsPerIp
      && CountRows(after, ByIp(GetClientIP(req)), endpoint, now, GuestRateWindowMs) <= GuestRateMaxRequests
      && CountRows(after, BySession(GetSessionId(req)), endpoint, now, DayMs) <= GuestRequestsPerSession
  {
    var row := RowFor(req, endpoint, None, now);
    CountRowsAppend(rows, row, ByIp(GetClientIP(req)), endpoint, now, DayMs);
    CountRowsAppend(rows, row, ByIp(GetClientIP(req)), endpoint, now, GuestRateWindowMs);
    CountRowsAppend(rows, row, BySession(GetSessionId(req)), endpoint, now, DayMs);
  }

  /** The same for a signed-in user: at most 10 requests a day and 2 a minute. */
  lemma UserAdmissionWithinLimits(rows: seq<RateRow>, req: Request, endpoint: string, userId: string,
                                  now: int, nextMidnight: int)
    requires userId != ""
    requires DecideRateLimit(rows, Up, req, endpoint, Some(userId), now, nextMidnight).record
    ensures var after := rows + [RowFor(req, endpoint, Some(userId), now)];
      && CountRows(after, ByUser(userId), endpoint, now, DayMs) <= UserDailyRequests
      && CountRows(after, ByUser(userId), endpoint, now, UserRateWindowMs) <= UserRateMaxRequests
  {
    var row := RowFor(req, endpoint, Some(userId), now);
    CountRowsAppend(rows, row, ByUser(userId), endpoint, now, DayMs);
    CountRowsAppend(rows, row, ByUser(userId), endpoint, now, UserRateWindowMs);
  }

  /** The `rate_limiting` table. */
  class RateLimitStore {
    var rows: seq<RateRow>
    var mode: StoreMode

    constructor(mode: StoreMode)
      ensures this.rows == [] && this.mode == mode
    {
      rows := [];
      this.mode := mode;
    }

    /** `recordAPIRequest`: inserts a row; a failing store loses it silently. */
    method RecordAPIRequest(row: RateRow)
      modifies this`rows
      ensures rows == if mode == Up then old(rows) + [row] else old(rows)
    {
      if mode == Up {
        rows := rows + [row];
      }
    }

    /** `checkRateLimit`. */
    method CheckRateLimit(req: Request, endpoint: string, userId: Option<string>, now: int, nextMidnight: int)
      returns (r: RateLimitResult)
      modifies this`rows
      ensures r == DecideRateLimit(old(rows), mode, req, endpoint, userId, now, nextMidnight).result
      ensures rows == if DecideRateLimit(old(rows), mode, req, endpoint, userId, now, nextMidnight).record && mode == Up
                      then old(rows) + [RowFor(req, endpoint, userId, now)] else old(rows)
    {
      var d := DecideRateLimit(rows, mode, req, endpoint, userId, now, nextMidnight);
      if d.record {
        RecordAPIRequest(RowFor(req, endpoint, userId, now));
      }
      r := d.result;
    }
  }
}
