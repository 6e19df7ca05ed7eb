/** The browser-side API client (apps/web/src/lib/api-client.ts): the query
    strings the favorites and history calls build with `URLSearchParams`,
    and `handleApiError`. Each builder is checked against what the route
    handlers read back from the query: the page, limit and filters arrive
    as they were given, and the ids survive the comma join. Sending the
    request is not modelled: the handler sees the pairs the client set. */
module ApiClient {
  import opened Strings
  import Encoding
  import Generation
  import UserTables
  import Favorites
  import History

  const FallbackErrorMessage := "操作失败，请稍后重试"

  /** The first value stored under `name`: `searchParams.get(name)`. */
  function Get(entries: seq<(string, string)>, name: string): (r: Option<string>)
    ensures r.None? <==> forall k :: 0 <= k < |entries| ==> entries[k].0 != name
  {
    if |entries| == 0 then None
    else if entries[0].0 == name then Some(entries[0].1)
    else Get(entries[1..], name)
  }

  /** A value `get` returns is the value of the first pair with that name. */
  lemma {:induction false} GetFirst(entries: seq<(string, string)>, name: string)
    requires Get(entries, name).Some?
    ensures exists k :: 0 <= k < |entries| && entries[k] == (name, Get(entries, name).value)
                        && forall j :: 0 <= j < k ==> entries[j].0 != name
  {
    if entries[0].0 != name {
      GetFirst(entries[1..], name);
      var k :| 0 <= k < |entries[1..]| && entries[1..][k] == (name, Get(entries, name).value)
               && forall j :: 0 <= j < k ==> entries[1..][j].0 != name;
      assert entries[k + 1] == (name, Get(entries, name).value);
      forall j | 0 <= j < k + 1 ensures entries[j].0 != name {
        if j > 0 { assert entries[j] == entries[1..][j - 1]; }
      }
    } else {
      assert entries[0] == (name, Get(entries, name).value);
    }
  }

  /** The pairs with the given name removed. */
  function Without(entries: seq<(string, string)>, name: string): (r: seq<(string, string)>)
    ensures forall k :: 0 <= k < |r| ==> r[k].0 != name
    ensures forall k :: 0 <= k < |r| ==> r[k] in entries
  {
    if |entries| == 0 then []
    else if entries[0].0 == name then Without(entries[1..], name)
    else [entries[0]] + Without(entries[1..], name)
  }

  /** `set(name, value)`: the first pair with that name takes the value and the
      others with that name go; with none, the pair is appended. */
  function SetParam(entries: seq<(string, string)>, name: string, value: string): seq<(string, string)> {
    if |entries| == 0 then [(name, value)]
    else if entries[0].0 == name then [(name, value)] + Without(entries[1..], name)
    else [entries[0]] + SetParam(entries[1..], name, value)
  }

  lemma {:induction false} GetWithout(entries: seq<(string, string)>, name: string, other: string)
    requires other != name
    ensures Get(Without(entries, name), other) == Get(entries, other)
  {
    if |entries| > 0 {
      GetWithout(entries[1..], name, other);
    }
  }

  /** After `set`, `get` of that name returns the value and every other name
      reads as before: the model of `URLSearchParams` is a map. */
  lemma {:induction false} GetSetParam(entries: seq<(string, string)>, name: string, value: string, other: string)
    ensures Get(SetParam(entries, name, value), name) == Some(value)
    ensures other != name ==> Get(SetParam(entries, name, value), other) == Get(entries, other)
  {
    if |entries| > 0 {
      if entries[0].0 == name {
        if other != name {
          GetWithout(entries[1..], name, other);
        }
      } else {
        GetSetParam(entries[1..], name, value, other);
      }
    }
  }

  /** A fresh `URLSearchParams`, filled by `set` calls. */
  class SearchParams {
    var entries: seq<(string, string)>

    constructor()
      ensures entries == []
    {
      entries := [];
    }

    method Set(name: string, value: string)
      modifies this
      ensures entries == SetParam(old(entries), name, value)
    {
      entries := SetParam(entries, name, value);
    }
  }

  /** `value.toString()` of a JavaScript boolean. */
  function BoolText(b: bool): string {
    if b then "true" else "false"
  }

  /** A JavaScript truthiness test on an optional number: present and not 0. */
  predicate TruthyNumber(n: Option<int>) {
    n.Some? && n.value != 0
  }

  /** The text a numeric parameter is sent as: `String(n)` when truthy, else
      nothing. */
  function SentNumber(n: Option<int>): (r: Option<string>)
    ensures r.Some? <==> TruthyNumber(n)
  {
    if TruthyNumber(n) then Some(Encoding.IntToString(n.value)) else None
  }

  /** `if (n) params.set(name, n.toString())`. */
  function SetNumber(entries: seq<(string, string)>, name: string, n: Option<int>): seq<(string, string)> {
    if TruthyNumber(n) then SetParam(entries, name, Encoding.IntToString(n.value)) else entries
  }

  /** `if (t) params.set(name, t)`. */
  function SetText(entries: seq<(string, string)>, name: string, t: Option<string>): seq<(string, string)> {
    if Truthy(t) then SetParam(entries, name, t.value) else entries
  }

  /** A conditional numeric `set` is read back as the text sent, or as before
      when the number is not truthy; other names are untouched. */
  lemma GetSetNumber(entries: seq<(string, string)>, name: string, n: Option<int>, other: string)
    requires Get(entries, name).None?
    ensures Get(SetNumber(entries, name, n), name) == SentNumber(n)
    ensures other != name ==> Get(SetNumber(entries, name, n), other) == Get(entries, other)
  {
    if TruthyNumber(n) {
      GetSetParam(entries, name, Encoding.IntToString(n.value), other);
    }
  }

  /** A conditional text `set` is read back as the text when it is not empty,
      and as before otherwise; other names are untouched. */
  lemma GetSetText(entries: seq<(string, string)>, name: string, t: Option<string>, other: string)
    requires Get(entries, name).None?
    ensures Get(SetText(entries, name, t), name) == if Truthy(t) then t else None
    ensures other != name ==> Get(SetText(entries, name, t), other) == Get(entries, other)
  {
    if Truthy(t) {
      GetSetParam(entries, name, t.value, other);
    }
  }

  /** The query `getFavorites` builds, one conditional `set` after another. */
  function FavoritesQuery(page: Option<int>, limit: Option<int>, search: Option<string>, available: Option<bool>)
    : seq<(string, string)>
  {
    var q := SetText(SetNumber(SetNumber([], "page", page), "limit", limit), "search", search);
    if available.Some? then SetParam(q, "available", BoolText(available.value)) else q
  }

  /** The query `getHistory` builds. */
  function HistoryQuery(page: Option<int>, limit: Option<int>, search: Option<string>, searchType: Option<string>)
    : seq<(string, string)>
  {
    SetText(SetText(SetNumber(SetNumber([], "page", page), "limit", limit), "search", search), "search_type", searchType)
  }

  /** The page, limit and search parameters shared by both list calls read
      back as they were sent. */
  lemma ListQueryReads(page: Option<int>, limit: Option<int>, search: Option<string>)
    ensures var q := SetText(SetNumber(SetNumber([], "page", page), "limit", limit), "search", search);
      && Get(q, "page") == SentNumber(page)
      && Get(q, "limit") == SentNumber(limit)
      && Get(q, "search") == (if Truthy(search) then search else None)
      && Get(q, "available").None? && Get(q, "search_type").None?
  {
    var q1 := SetNumber([], "page", page);
    GetSetNumber([], "page", page, "limit");
    GetSetNumber([], "page", page, "search");
    GetSetNumber([], "page", page, "available");
    GetSetNumber([], "page", page, "search_type");
    var q2 := SetNumber(q1, "limit", limit);
    GetSetNumber(q1, "limit", limit, "page");
    GetSetNumber(q1, "limit", limit, "search");
    GetSetNumber(q1, "limit", limit, "available");
    GetSetNumber(q1, "limit", limit, "search_type");
    GetSetText(q2, "search", search, "page");
    GetSetText(q2, "search", search, "limit");
    GetSetText(q2, "search", search, "available");
    GetSetText(q2, "search", search, "search_type");
  }

  lemma FavoritesQueryReads(page: Option<int>, limit: Option<int>, search: Option<string>, available: Option<bool>)
    ensures var q := FavoritesQuery(page, limit, search, available);
      && Get(q, "page") == SentNumber(page)
      && Get(q, "limit") == SentNumber(limit)
      && Get(q, "search") == (if Truthy(search) then search else None)
      && Get(q, "available") == (if available.Some? then Some(BoolText(available.value)) else None)
  {
    ListQueryReads(page, limit, search);
    var q := SetText(SetNumber(SetNumber([], "page", page), "limit", limit), "search", search);
    if available.Some? {
      var v := BoolText(available.value);
      GetSetParam(q, "available", v, "page");
      GetSetParam(q, "available", v, "limit");
      GetSetParam(q, "available", v, "search");
    }
  }

  lemma HistoryQueryReads(page: Option<int>, limit: Option<int>, search: Option<string>, searchType: Option<string>)
    ensures var q := HistoryQuery(page, limit, search, searchType);
      && Get(q, "page") == SentNumber(page)
      && Get(q, "limit") == SentNumber(limit)
      && Get(q, "search") == (if Truthy(search) then search else None)
      && Get(q, "search_type") == (if Truthy(searchType) then searchType else None)
  {
    ListQueryReads(page, limit, search);
    var q := SetText(SetNumber(SetNumber([], "page", page), "limit", limit), "search", search);
    GetSetText(q, "search_type", searchType, "page");
    GetSetText(q, "search_type", searchType, "limit");
    GetSetText(q, "search_type", searchType, "search");
  }

  /** `favoritesApi.getFavorites(params)`: page, limit and search only when
      truthy, `available` whenever it is given, `false` included. */
  method GetFavoritesQuery(page: Option<int>, limit: Option<int>, search: Option<string>, available: Option<bool>)
    returns (query: seq<(string, string)>)
    ensures Get(query, "page") == SentNumber(page)
    ensures Get(query, "limit") == SentNumber(limit)
    ensures Get(query, "search") == if Truthy(search) then search else None
    ensures Get(query, "available") == if available.Some? then Some(BoolText(available.value)) else None
  {
    var sp := new SearchParams();
    if TruthyNumber(page) {
      sp.Set("page", Encoding.IntToString(page.value));
    }
    if TruthyNumber(limit) {
      sp.Set("limit", Encoding.IntToString(limit.value));
    }
    if Truthy(search) {
      sp.Set("search", search.value);
    }
    if available.Some? {
      sp.Set("available", BoolText(available.value));
    }
    query := sp.entries;
    assert query == FavoritesQuery(page, limit, search, available);
    FavoritesQueryReads(page, limit, search, available);
  }

  /** `historyApi.getHistory(params)`: only the truthy parameters. */
  method GetHistoryQuery(page: Option<int>, limit: Option<int>, search: Option<string>, searchType: Option<string>)
    returns (query: seq<(string, string)>)
    ensures Get(query, "page") == SentNumber(page)
    ensures Get(query, "limit") == SentNumber(limit)
    ensures Get(query, "search") == if Truthy(search) then search else None
    ensures Get(query, "search_type") == if Truthy(searchType) then searchType else None
  {
    var sp := new SearchParams();
    if TruthyNumber(page) {
      sp.Set("page", Encoding.IntToString(page.value));
    }
    if TruthyNumber(limit) {
      sp.Set("limit", Encoding.IntToString(limit.value));
    }
    if Truthy(search) {
      sp.Set("search", search.value);
    }
    if Truthy(searchType) {
      sp.Set("search_type", searchType.value);
    }
    query := sp.entries;
    assert query == HistoryQuery(page, limit, search, searchType);
    HistoryQueryReads(page, limit, search, searchType);
  }

  /** `favoritesApi.deleteFavorites(ids)`: the ids joined by commas. */
  method DeleteFavoritesQuery(ids: seq<string>) returns (query: seq<(string, string)>)
    ensures Get(query, "ids") == Some(Join(ids, ","))
  {
    var sp := new SearchParams();
    sp.Set("ids", Join(ids, ","));
    query := sp.entries;
  }

  /** `historyApi.deleteHistory(params)`: `ids` only when there are some,
      `clear_all=true` only when asked for. */
  method DeleteHistoryQuery(ids: Option<seq<string>>, clearAll: Option<bool>) returns (query: seq<(string, string)>)
    ensures Get(query, "ids") == if ids.Some? && |ids.value| > 0 then Some(Join(ids.value, ",")) else None
    ensures Get(query, "clear_all") == if clearAll == Some(true) then Some("true") else None
    ensures query == DeleteHistoryParams(ids, clearAll)
  {
    var sp := new SearchParams();
    if ids.Some? && |ids.value| > 0 {
      sp.Set("ids", Join(ids.value, ","));
    }
    if clearAll == Some(true) {
      GetSetParam(sp.entries, "clear_all", "true", "ids");
      sp.Set("clear_all", "true");
    }
    query := sp.entries;
  }

  /** The query `deleteHistory` builds. */
  function DeleteHistoryParams(ids: Option<seq<string>>, clearAll: Option<bool>): seq<(string, string)> {
    var q := if ids.Some? && |ids.value| > 0 then SetParam([], "ids", Join(ids.value, ",")) else [];
    if clearAll == Some(true) then SetParam(q, "clear_all", "true") else q
  }

  // ------------------------------------------------------------ what the handlers read

  /** The page a handler reads back from what the client sent: the page
      given, or 1 when it was omitted or zero. */
  lemma PageReadBack(page: Option<int>)
    ensures UserTables.PageNumber(SentNumber(page)).Some?
    ensures UserTables.PageNumber(SentNumber(page)).value == if TruthyNumber(page) then page.value else 1
  {
    if TruthyNumber(page) {
      SentTextParses(page.value);
    } else {
      assert UserTables.ParamOr(SentNumber(page), UserTables.DefaultPageText) == Encoding.IntToString(1) by {
        Encoding.FromRadixToRadix(1, 10);
      }
      SentTextParses(1);
    }
  }

  /** The limit a handler reads back: the limit given, capped at 100, or the
      route's default when it was omitted or zero. */
  lemma LimitReadBack(limit: Option<int>, fallback: nat)
    ensures UserTables.PageSize(SentNumber(limit), Encoding.IntToString(fallback)).Some?
    ensures UserTables.PageSize(SentNumber(limit), Encoding.IntToString(fallback)).value
         == Cap(if TruthyNumber(limit) then limit.value else fallback)
  {
    var m := if TruthyNumber(limit) then limit.value else fallback;
    var text := UserTables.ParamOr(SentNumber(limit), Encoding.IntToString(fallback));
    assert text == Encoding.IntToString(m);
    SentTextParses(m);
    PageSizeOf(SentNumber(limit), Encoding.IntToString(fallback), m);
  }

  lemma PageSizeOf(param: Option<string>, fallback: string, m: int)
    requires UserTables.ParseInt(UserTables.ParamOr(param, fallback)).Some?
    requires UserTables.ParseInt(UserTables.ParamOr(param, fallback)).value == m
    ensures UserTables.PageSize(param, fallback).Some? && UserTables.PageSize(param, fallback).value == Cap(m)
  {
  }

  /** `Math.min(n, 100)`. */
  function Cap(n: int): int {
    if n < UserTables.MaxPageSize then n else UserTables.MaxPageSize
  }

  /** The routes' default limits are the texts of 20 and 50, so
      `LimitReadBack` gives 20 rows of favorites and 50 of history. */
  lemma DefaultLimits()
    ensures Favorites.DefaultLimitText == Encoding.IntToString(20)
    ensures History.DefaultLimitText == Encoding.IntToString(50)
  {
  }

  lemma SentTextParses(n: int)
    ensures UserTables.ParseInt(Encoding.IntToString(n)).Some?
    ensures UserTables.ParseInt(Encoding.IntToString(n)).value == n
  {
    UserTables.ParseIntToString(n, "");
    assert Encoding.IntToString(n) + "" == Encoding.IntToString(n);
  }

  /** The favorites handler sees the search when it is not empty and the
      availability filter exactly when `available` was given. */
  lemma FavoritesFiltersReadBack(user: string, search: Option<string>, available: Option<bool>)
    ensures Favorites.RequestedQuery(user, if Truthy(search) then search else None,
                                     if available.Some? then Some(BoolText(available.value)) else None)
         == Favorites.Query(user, if Truthy(search) then search else None, available)
  {
  }

  /** The history handler sees the search and the search type when they are
      not empty. */
  lemma HistoryFiltersReadBack(user: string, search: Option<string>, searchType: Option<string>)
    ensures History.RequestedQuery(user, if Truthy(search) then search else None,
                                   if Truthy(searchType) then searchType else None)
         == History.Query(user, if Truthy(search) then search else None, if Truthy(searchType) then searchType else None)
  {
  }

  /** The ids `deleteFavorites` joins come back out of the handler's split,
      empty ones dropped, as long as no id contains a comma; an empty list
      arrives as no id at all, which the handler refuses. */
  lemma IdsReadBack(ids: seq<string>)
    requires forall k :: 0 <= k < |ids| ==> ',' !in ids[k]
    ensures UserTables.IdList(Some(Join(ids, ","))) == Some(NonEmpty(ids))
  {
    if |ids| == 0 {
      assert Split("", ',') == [""];
    } else {
      SplitJoin(ids, ',');
    }
  }

  /** `deleteHistory` with neither ids nor `clearAll` sends a query the
      handler refuses with INVALID_REQUEST, and with `clearAll` one it never
      refuses, whatever the ids. */
  lemma EmptyHistoryDeleteRefused(ids: Option<seq<string>>, clearAll: Option<bool>)
    ensures var q := DeleteHistoryParams(ids, clearAll);
      (ids.None? || |ids.value| == 0) && clearAll != Some(true) ==>
        History.DeleteRefused(Get(q, "ids"), Get(q, "clear_all"))
    ensures var q := DeleteHistoryParams(ids, clearAll);
      clearAll == Some(true) ==> !History.DeleteRefused(Get(q, "ids"), Get(q, "clear_all"))
  {
    var q := if ids.Some? && |ids.value| > 0 then SetParam([], "ids", Join(ids.value, ",")) else [];
    if clearAll == Some(true) {
      GetSetParam(q, "clear_all", "true", "ids");
    }
  }

  // ------------------------------------------------------------ handleApiError

  /** JavaScript truthiness of a JSON value. */
  predicate JsonTruthy(j: Generation.Json) {
    match j
    case JNull => false
    case JBool(b) => b
    case JNum(n) => n != 0.0
    case JStr(s) => s != ""
    case JArr(_) => true
    case JObj(_) => true
  }

  /** The `error.message` an error object carries, when its `error` field is
      an object with a truthy `message`. */
  function NestedMessage(e: Generation.Json): Option<Generation.Json> {
    if e.JObj? && "error" in e.fields && e.fields["error"].JObj? && "message" in e.fields["error"].fields
       && JsonTruthy(e.fields["error"].fields["message"])
    then Some(e.fields["error"].fields["message"])
    else None
  }

  /** `handleApiError(error)`: the nested `error.message` when truthy, else
      the object's own `message` (whatever it holds, present being enough),
      else the generic message. Error instances are objects with a
      `message` field. */
  function HandleApiError(e: Generation.Json): (r: Generation.Json)
    ensures NestedMessage(e).Some? ==> r == NestedMessage(e).value
    ensures NestedMessage(e).None? && e.JObj? && "message" in e.fields ==> r == e.fields["message"]
    ensures NestedMessage(e).None? && !(e.JObj? && "message" in e.fields) ==> r == Generation.JStr(FallbackErrorMessage)
  {
    if e.JObj? && "error" in e.fields && NestedMessage(e).Some? then NestedMessage(e).value
    else if e.JObj? && "message" in e.fields then e.fields["message"]
    else Generation.JStr(FallbackErrorMessage)
  }

  /** The message is never empty unless the object itself carries an empty
      `message`: the nested one is truthy, and the fallback is not empty. */
  lemma HandleApiErrorNonEmpty(e: Generation.Json)
    requires !(e.JObj? && "message" in e.fields)
    ensures JsonTruthy(HandleApiError(e))
  {
  }
}
