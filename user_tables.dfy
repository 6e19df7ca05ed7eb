/** What the favorites and history endpoints share
    (apps/web/src/app/api/v1/favorites/route.ts and
    apps/web/src/app/api/v1/history/route.ts): the signed-in check, the reply
    shape, `Number.parseInt` of the query parameters, the pagination
    arithmetic, the `ids` parameter, and the rows a PostgREST `range` returns
    from a listing ordered newest first. */
module UserTables {
  import opened Strings
  import Encoding
  import Sorting

  const MaxPageSize := 100
  const DefaultPageText := "1"

  const StatusOk := 200
  const StatusCreated := 201
  const StatusBadRequest := 400
  const StatusUnauthorized := 401
  const StatusInternalError := 500

  const UnauthorizedCode := "UNAUTHORIZED"
  const SignInMessage := "请先登录"
  const InvalidRequestCode := "INVALID_REQUEST"
  const DatabaseErrorCode := "DATABASE_ERROR"
  const ValidationErrorCode := "VALIDATION_ERROR"
  const ValidationMessage := "请求参数验证失败"
  const InternalErrorCode := "INTERNAL_ERROR"
  const InternalErrorMessage := "服务器内部错误"

  /** A handler's JSON reply: `{ success: true, data }` with a status, or
      `{ success: false, error: { code, message } }`. */
  datatype Reply<T> = Success(status: int, data: T) | Failure(status: int, code: string, message: string)

  /** What `supabase.auth.getUser()` resolved to: an error flag and the user's id. */
  datatype Session = Session(authError: bool, user: Option<string>)

  predicate SignedIn(s: Session) {
    !s.authError && s.user.Some?
  }

  function Unauthorized<T>(): Reply<T> {
    Failure(StatusUnauthorized, UnauthorizedCode, SignInMessage)
  }

  /** The catch-all reply for an error that is not a ZodError (here: a body
      that is not JSON). */
  function InternalError<T>(): Reply<T> {
    Failure(StatusInternalError, InternalErrorCode, InternalErrorMessage)
  }

  function ValidationError<T>(): Reply<T> {
    Failure(StatusBadRequest, ValidationErrorCode, ValidationMessage)
  }

  // ------------------------------------------------------------ parseInt

  /** `c` is a digit of the radix, in either case. */
  predicate IsDigitIn(c: char, radix: nat) {
    (('0' <= c <= '9') || ('a' <= c <= 'z') || ('A' <= c <= 'Z')) && Encoding.DigitValue(c) < radix
  }

  predicate AllDigitsIn(s: string, radix: nat) {
    forall k :: 0 <= k < |s| ==> IsDigitIn(s[k], radix)
  }

  /** The longest prefix made of digits of the radix. */
  function DigitPrefix(s: string, radix: nat): (r: string)
    ensures |r| <= |s| && r == s[..|r|]
    ensures AllDigitsIn(r, radix)
    ensures |r| < |s| ==> !IsDigitIn(s[|r|], radix)
  {
    if |s| == 0 || !IsDigitIn(s[0], radix) then ""
    else [s[0]] + DigitPrefix(s[1..], radix)
  }

  /** The text after a leading sign, if there is one. */
  function Unsigned(t: string): string {
    if |t| > 0 && (t[0] == '-' || t[0] == '+') then t[1..] else t
  }

  /** Without a radix argument, `0x` or `0X` after the sign selects base 16. */
  predicate HexPrefixed(u: string) {
    |u| >= 2 && u[0] == '0' && (u[1] == 'x' || u[1] == 'X')
  }

  function Radix(u: string): nat {
    if HexPrefixed(u) then 16 else 10
  }

  /** The text the digits are read from: after the `0x` prefix, if any. */
  function Body(u: string): string {
    if HexPrefixed(u) then u[2..] else u
  }

  /** `Number.parseInt(s)` with no radix: leading white space skipped, an
      optional sign, then the digits of base 16 after a `0x`/`0X` prefix or
      of base 10 otherwise, as many as there are; no digit at all is NaN
      (`None`). */
  function ParseInt(s: string): (r: Option<int>)
    ensures var u := Unsigned(TrimStart(s));
      r.None? <==> |DigitPrefix(Body(u), Radix(u))| == 0
  {
    var t := TrimStart(s);
    var u := Unsigned(t);
    var digits := DigitPrefix(Body(u), Radix(u));
    if |digits| == 0 then None
    else
      var n: int := Encoding.FromRadix(digits, Radix(u));
      Some(if |t| > 0 && t[0] == '-' then -n else n)
  }

  lemma {:induction false} DigitPrefixOfDigits(digits: string, rest: string, radix: nat)
    requires AllDigitsIn(digits, radix)
    requires rest == "" || !IsDigitIn(rest[0], radix)
    ensures DigitPrefix(digits + rest, radix) == digits
  {
    if |digits| > 0 {
      assert (digits + rest)[1..] == digits[1..] + rest;
      DigitPrefixOfDigits(digits[1..], rest, radix);
    } else {
      assert digits + rest == rest;
    }
  }

  /** Whitespace-trimming leaves a string that starts with a sign or a digit alone. */
  lemma TrimStartKeeps(s: string)
    requires |s| > 0 && (s[0] == '-' || IsDigitIn(s[0], 10))
    ensures TrimStart(s) == s
  {
    assert !IsJsWhitespace(s[0]);
  }

  /** The value is the digit run read in the radix the prefix selects,
      negated after a minus sign. */
  lemma ParseIntOf(s: string, digits: string, v: nat)
    requires TrimStart(s) == s
    requires DigitPrefix(Body(Unsigned(s)), Radix(Unsigned(s))) == digits && |digits| > 0
    requires Encoding.FromRadix(digits, Radix(Unsigned(s))) == v
    ensures |s| > 0 && ParseInt(s).Some?
    ensures s[0] == '-' ==> ParseInt(s).value == 0 - v
    ensures s[0] != '-' ==> ParseInt(s).value == v
  {
  }

  /** Decimal digits and a tail make no `0x` prefix unless the digits are a
      lone zero and the tail starts with an x. */
  lemma NotHex(digits: string, rest: string)
    requires |digits| > 0 && AllDigitsIn(digits, 10)
    requires digits != "0" || rest == "" || (rest[0] != 'x' && rest[0] != 'X')
    ensures !HexPrefixed(digits + rest)
  {
    if |digits| >= 2 {
      assert (digits + rest)[1] == digits[1];
    } else if digits == "0" && rest != "" {
      assert (digits + rest)[1] == rest[0];
    }
  }

  /** `parseInt` of a minus sign, decimal digits, and a tail that neither
      continues the digits nor turns a lone zero into a `0x` prefix. */
  lemma ParseNegative(digits: string, rest: string, v: nat)
    requires |digits| > 0 && AllDigitsIn(digits, 10) && Encoding.FromRadix(digits, 10) == v
    requires rest == "" || !IsDigitIn(rest[0], 10)
    requires digits != "0" || rest == "" || (rest[0] != 'x' && rest[0] != 'X')
    ensures ParseInt("-" + (digits + rest)).Some? && ParseInt("-" + (digits + rest)).value == 0 - v
  {
    NegativeText(digits, rest);
    ParseIntOf("-" + (digits + rest), digits, v);
  }

  /** A minus sign before digits and a tail: nothing to trim, and the digits
      after the sign are the given ones, read in base 10. */
  lemma NegativeText(digits: string, rest: string)
    requires |digits| > 0 && AllDigitsIn(digits, 10)
    requires rest == "" || !IsDigitIn(rest[0], 10)
    requires digits != "0" || rest == "" || (rest[0] != 'x' && rest[0] != 'X')
    ensures var s := "-" + (digits + rest);
      |s| > 0 && s[0] == '-' && TrimStart(s) == s
      && Radix(Unsigned(s)) == 10 && DigitPrefix(Body(Unsigned(s)), 10) == digits
  {
    var body := digits + rest;
    DigitPrefixOfDigits(digits, rest, 10);
    NotHex(digits, rest);
    MinusSign(body);
    TrimStartKeeps("-" + body);
  }

  lemma MinusSign(body: string)
    ensures |"-" + body| > 0 && ("-" + body)[0] == '-' && Unsigned("-" + body) == body
  {
    assert ("-" + body)[1..] == body;
  }

  /** `parseInt` of decimal digits and a tail that neither continues the
      digits nor turns a lone zero into a `0x` prefix. */
  lemma ParseNonNegative(digits: string, rest: string, v: nat)
    requires |digits| > 0 && AllDigitsIn(digits, 10) && Encoding.FromRadix(digits, 10) == v
    requires rest == "" || !IsDigitIn(rest[0], 10)
    requires digits != "0" || rest == "" || (rest[0] != 'x' && rest[0] != 'X')
    ensures ParseInt(digits + rest).Some? && ParseInt(digits + rest).value == v
  {
    var body := digits + rest;
    DigitPrefixOfDigits(digits, rest, 10);
    NotHex(digits, rest);
    assert body[0] == digits[0];
    TrimStartKeeps(body);
    ParseIntOf(body, digits, v);
  }

  /** `parseInt` of `0x` or `0X` and hex digits, in either case, reads them
      in base 16 up to the first character that is not one: `parseInt('0x1F')`
      is 31. */
  lemma ParseHex(x: char, digits: string, rest: string, v: nat)
    requires x == 'x' || x == 'X'
    requires |digits| > 0 && AllDigitsIn(digits, 16) && Encoding.FromRadix(digits, 16) == v
    requires rest == "" || !IsDigitIn(rest[0], 16)
    ensures ParseInt(['0', x] + (digits + rest)).Some? && ParseInt(['0', x] + (digits + rest)).value == v
  {
    var s := ['0', x] + (digits + rest);
    HexText(x, digits + rest);
    DigitPrefixOfDigits(digits, rest, 16);
    ParseIntOf(s, digits, v);
  }

  /** A `0x` prefix with no hex digit after it is NaN: `parseInt('0x')` and
      `parseInt('0xg')` are NaN, not 0. */
  lemma HexWithoutDigits(x: char, rest: string)
    requires x == 'x' || x == 'X'
    requires rest == "" || !IsDigitIn(rest[0], 16)
    ensures ParseInt(['0', x] + rest).None?
  {
    HexText(x, rest);
    DigitPrefixOfDigits("", rest, 16);
  }

  lemma HexText(x: char, body: string)
    requires x == 'x' || x == 'X'
    ensures var s := ['0', x] + body;
      TrimStart(s) == s && Unsigned(s) == s && Radix(s) == 16 && Body(s) == body
  {
    var s := ['0', x] + body;
    TrimStartKeeps(s);
    assert s[2..] == body;
  }

  /** `String(m)` is decimal digits that read back as `m`, and is "0" only for zero. */
  lemma DecimalText(m: nat)
    ensures var digits := Encoding.ToRadix(m, 10);
      && |digits| > 0 && AllDigitsIn(digits, 10) && Encoding.FromRadix(digits, 10) == m
      && (digits == "0" ==> m == 0)
  {
    var digits := Encoding.ToRadix(m, 10);
    Encoding.FromRadixToRadix(m, 10);
    forall k | 0 <= k < |digits| ensures IsDigitIn(digits[k], 10) {
      assert Encoding.IsRadixDigit(digits[k], 10);
    }
    if m > 0 {
      assert digits[0] != '0';
    }
  }

  lemma SignedConcat(digits: string, rest: string)
    ensures ("-" + digits) + rest == "-" + (digits + rest)
  {
  }

  /** `parseInt` reads back what `String(n)` wrote, and stops at the first
      character that is not a digit: `parseInt('20abc')` is 20. Only zero
      followed by an x would be read as a `0x` prefix instead. */
  lemma ParseIntToString(n: int, rest: string)
    requires rest == "" || !IsDigitIn(rest[0], 10)
    requires n == 0 ==> rest == "" || (rest[0] != 'x' && rest[0] != 'X')
    ensures ParseInt(Encoding.IntToString(n) + rest).Some?
    ensures ParseInt(Encoding.IntToString(n) + rest).value == n
  {
    var m: nat := if n < 0 then -n else n;
    var digits := Encoding.ToRadix(m, 10);
    DecimalText(m);
    if n < 0 {
      ParseNegative(digits, rest, m);
      var w := Encoding.IntToString(n);
      assert w == "-" + digits;
      SignedConcat(digits, rest);
    } else {
      ParseNonNegative(digits, rest, m);
      assert Encoding.IntToString(n) + rest == digits + rest;
    }
  }

  // ------------------------------------------------------------ pagination

  /** `searchParams.get(name) || fallback`: an absent or empty parameter
      takes the fallback text. */
  function ParamOr(param: Option<string>, fallback: string): (r: string)
    ensures Truthy(param) ==> r == param.value
    ensures !Truthy(param) ==> r == fallback
  {
    if Truthy(param) then param.value else fallback
  }

  /** `Number.parseInt(searchParams.get('page') || '1')`. */
  function PageNumber(pageParam: Option<string>): Option<int> {
    ParseInt(ParamOr(pageParam, DefaultPageText))
  }

  /** `Math.min(Number.parseInt(searchParams.get('limit') || fallback), 100)`;
      NaN stays NaN. */
  function PageSize(limitParam: Option<string>, fallback: string): (r: Option<int>)
    ensures r.Some? ==> r.value <= MaxPageSize
    ensures r.None? <==> ParseInt(ParamOr(limitParam, fallback)).None?
  {
    match ParseInt(ParamOr(limitParam, fallback))
    case None => None
    case Some(n) => Some(if n < MaxPageSize then n else MaxPageSize)
  }

  /** The first row of a page: `(page - 1) * limit`. */
  function Offset(page: int, limit: int): int {
    (page - 1) * limit
  }

  /** `Math.ceil(total / limit)`; a zero limit divides to Infinity or NaN,
      which the JSON reply carries as null (`None`). */
  function TotalPages(total: nat, limit: int): (r: Option<int>)
    ensures limit > 0 ==> r.Some? && r.value >= 0
    ensures limit > 0 ==> (r.value - 1) * limit < total <= r.value * limit || (total == 0 && r.value == 0)
    ensures limit == 0 <==> r.None?
  {
    if limit > 0 then Some((total + limit - 1) / limit)
    else if limit == 0 then None
    else Some(-(total / -limit))
  }

  datatype Pagination = Pagination(page: int, limit: int, total: nat, totalPages: Option<int>)

  /** The `pagination` object; an unavailable count counts as 0 (`count || 0`). */
  function PaginationOf(page: int, limit: int, count: Option<nat>): Pagination {
    var total := if count.Some? then count.value else 0;
    Pagination(page, limit, total, TotalPages(total, limit))
  }

  /** The rows `range(offset, offset + limit - 1)` returns from a listing:
      `limit` rows from `offset` on, fewer at the end. A negative offset or
      limit is a request the database refuses (`None`). */
  function Window<T>(listing: seq<T>, offset: int, limit: int): (r: Option<seq<T>>)
    ensures r.Some? <==> offset >= 0 && limit >= 0
    ensures r.Some? ==> |r.value| <= limit
    ensures r.Some? ==> forall k :: 0 <= k < |r.value| ==> offset + k < |listing| && r.value[k] == listing[offset + k]
    ensures r.Some? && offset + limit <= |listing| ==> |r.value| == limit
  {
    if offset < 0 || limit < 0 then None
    else
      var lo := if offset < |listing| then offset else |listing|;
      var hi := if offset + limit < |listing| then offset + limit else |listing|;
      Some(listing[lo..hi])
  }

  /** The pages 1..n of a listing, one after the other. */
  function Pages<T>(listing: seq<T>, limit: nat, n: nat): seq<T>
    requires limit > 0
  {
    if n == 0 then [] else Pages(listing, limit, n - 1) + Window(listing, Offset(n, limit), limit).value
  }

  /** Reading pages 1 to n gives the first n * limit rows of the listing. */
  lemma {:induction false} PagesPrefix<T>(listing: seq<T>, limit: nat, n: nat)
    requires limit > 0
    ensures Pages(listing, limit, n) == listing[..if n * limit < |listing| then n * limit else |listing|]
  {
    if n > 0 {
      PagesPrefix(listing, limit, n - 1);
      var lo := (n - 1) * limit;
      var hi := n * limit;
      assert Offset(n, limit) == lo;
      assert hi == lo + limit;
      var a := if lo < |listing| then lo else |listing|;
      var b := if hi < |listing| then hi else |listing|;
      assert Window(listing, lo, limit).value == listing[a..b];
      assert listing[..a] + listing[a..b] == listing[..b];
    }
  }

  /** The pages `TotalPages` announces hold every row of the listing, and the
      page after them is empty. */
  lemma PagesCoverListing<T>(listing: seq<T>, limit: nat)
    requires limit > 0
    ensures Pages(listing, limit, TotalPages(|listing|, limit).value) == listing
    ensures Window(listing, Offset(TotalPages(|listing|, limit).value + 1, limit), limit) == Some([])
  {
    var n := TotalPages(|listing|, limit).value;
    PagesPrefix(listing, limit, n);
    assert n * limit >= |listing|;
  }

  // ------------------------------------------------------------ listings

  /** The rows a filter keeps, in table order. */
  function Where<T>(rows: seq<T>, keep: T -> bool): (r: seq<T>)
    ensures |r| <= |rows|
    ensures forall k :: 0 <= k < |r| ==> r[k] in rows && keep(r[k])
    ensures forall k :: 0 <= k < |rows| && keep(rows[k]) ==> rows[k] in r
  {
    if |rows| == 0 then []
    else
      var init, last := rows[..|rows| - 1], rows[|rows| - 1];
      assert rows == init + [last];
      Where(init, keep) + (if keep(last) then [last] else [])
  }

  /** A filter that keeps nothing gives nothing. */
  lemma {:induction false} WhereNone<T>(rows: seq<T>, keep: T -> bool)
    requires forall k :: 0 <= k < |rows| ==> !keep(rows[k])
    ensures Where(rows, keep) == []
  {
    if |rows| > 0 {
      WhereNone(rows[..|rows| - 1], keep);
    }
  }

  lemma {:induction false} WhereAll<T>(rows: seq<T>, keep: T -> bool)
    requires forall k :: 0 <= k < |rows| ==> keep(rows[k])
    ensures Where(rows, keep) == rows
  {
    if |rows| > 0 {
      var init := rows[..|rows| - 1];
      WhereAll(init, keep);
      assert rows == init + [rows[|rows| - 1]];
    }
  }

  /** The positions of the rows that satisfy a condition. */
  function Matching<T>(rows: seq<T>, keep: T -> bool): set<int> {
    set k | 0 <= k < |rows| && keep(rows[k])
  }

  /** The filter keeps one row per matching position. */
  lemma {:induction false} WhereCountsMatching<T>(rows: seq<T>, keep: T -> bool)
    ensures |Where(rows, keep)| == |Matching(rows, keep)|
  {
    if |rows| > 0 {
      var init, last := rows[..|rows| - 1], rows[|rows| - 1];
      WhereCountsMatching(init, keep);
      var m := |rows| - 1;
      assert Matching(rows, keep) == Matching(init, keep) + (if keep(last) then {m} else {}) by {
        forall k | k in Matching(rows, keep)
          ensures k in Matching(init, keep) + (if keep(last) then {m} else {})
        {
          if k < m { assert rows[k] == init[k]; }
        }
        forall k | k in Matching(init, keep)
          ensures k in Matching(rows, keep)
        {
          assert rows[k] == init[k];
        }
      }
      assert m !in Matching(init, keep);
    }
  }

  /** How many rows satisfy a condition: what a `count: 'exact'` query answers. */
  function Count<T>(rows: seq<T>, keep: T -> bool): (n: nat)
    ensures n <= |rows|
    ensures n == |set k | 0 <= k < |rows| && keep(rows[k])|
  {
    WhereCountsMatching(rows, keep);
    |Where(rows, keep)|
  }

  /** `.single()`: the row, when exactly one row matches; with none or with
      several the query errors and its `data` is null. */
  function Single<T>(rows: seq<T>, keep: T -> bool): (r: Option<T>)
    ensures r.Some? <==> |Where(rows, keep)| == 1
    ensures r.Some? ==> r.value in rows && keep(r.value)
  {
    var hits := Where(rows, keep);
    if |hits| == 1 then assert hits[0] in hits; Some(hits[0]) else None
  }

  /** `.order('created_at', { ascending: false })`; rows created at the same
      time keep the table's order. */
  function NewestFirst<T>(rows: seq<T>, createdAt: T -> int): (r: seq<T>)
    ensures |r| == |rows| && multiset(r) == multiset(rows)
  {
    Sorting.Sort(rows, (a: T, b: T) => createdAt(a) >= createdAt(b))
  }

  lemma NewestFirstOrdered<T(!new)>(rows: seq<T>, createdAt: T -> int)
    ensures forall i, j :: 0 <= i < j < |rows| ==> createdAt(NewestFirst(rows, createdAt)[i]) >= createdAt(NewestFirst(rows, createdAt)[j])
  {
    var le := (a: T, b: T) => createdAt(a) >= createdAt(b);
    Sorting.SortSorted(rows, le);
  }

  // ------------------------------------------------------------ ids

  /** `searchParams.get('ids')?.split(',').filter(Boolean)`. */
  function IdList(idsParam: Option<string>): (r: Option<seq<string>>)
    ensures r.None? <==> idsParam.None?
    ensures r.Some? ==> forall k :: 0 <= k < |r.value| ==> r.value[k] != ""
    ensures r.Some? ==> forall id :: id in r.value <==> id != "" && id in Split(idsParam.value, ',')
  {
    match idsParam
    case None => None
    case Some(p) => Some(NonEmpty(Split(p, ',')))
  }

  /** The ids the list names contain no comma: each is one piece of the parameter. */
  lemma IdsHaveNoComma(idsParam: string, id: string)
    requires IdList(Some(idsParam)).Some? && id in IdList(Some(idsParam)).value
    ensures ',' !in id
  {
    SplitPiecesAvoidSeparator(idsParam, ',');
  }
}
