/** The search history endpoint (apps/web/src/app/api/v1/history/route.ts):
    the signed-in user's rows of the `search_history` table, listed a page at
    a time with an optional search and type filter, recorded with the same
    search skipped when it was recorded in the last hour, and deleted by id
    or all at once. The table is a class over its rows; database failures,
    the new row's id and the clock are parameters. */
module History {
  import opened Strings
  import Encoding
  import Generation
  import opened UserTables

  const SearchTermMaxLength := 255
  const DefaultLimitText := "50"
  const DedupeWindowMs := 60 * 60 * 1000
  const SearchTypes: seq<string> := ["keyword", "domain", "company"]
  const DefaultSearchType := "keyword"

  const QueryFailedMessage := "查询搜索历史失败"
  const InsertFailedMessage := "添加搜索记录失败"
  const DeleteFailedMessage := "删除搜索历史失败"
  const MissingIdsMessage := "请提供要删除的记录ID或设置清空标志"
  const SkippedMessage := "搜索记录已存在，跳过重复添加"
  const ClearedMessage := "所有搜索历史已清空"
  const DeletedMessage := "指定搜索记录已删除"

  /** One row of `search_history`; `domainResults` and `filters` are stored
      JSON, absent when the client sent none. Times are milliseconds. */
  datatype Entry = Entry(
    id: string,
    userId: string,
    searchTerm: string,
    domainResults: Option<Generation.Json>,
    resultCount: int,
    searchType: string,
    filters: Option<Generation.Json>,
    createdAt: int)

  // ------------------------------------------------------------ POST body

  /** What `createHistorySchema` produces, defaults filled in. */
  datatype NewEntry = NewEntry(
    searchTerm: string,
    domainResults: Option<Generation.Json>,
    resultCount: int,
    searchType: string,
    filters: Option<Generation.Json>)

  predicate WellFormed(e: NewEntry) {
    && 1 <= |Encoding.Utf16(e.searchTerm)| <= SearchTermMaxLength
    && e.resultCount >= 0
    && e.searchType in SearchTypes
  }

  /** `z.number().int()`: a number with no fractional part. */
  predicate IsInteger(n: real) {
    n.Floor as real == n
  }

  /** An optional `z.any()` field: any JSON value. */
  function AnyField(f: map<string, Generation.Json>, key: string): (r: Option<Generation.Json>)
    ensures r.Some? <==> key in f
    ensures r.Some? ==> r.value == f[key]
  {
    if key in f then Some(f[key]) else None
  }

  /** `createHistorySchema.parse(body)`: a term of 1..255 units; a result
      count that is a whole number >= 0, 0 when absent; a type from the three,
      'keyword' when absent; results and filters taken as they are. */
  function ParseNewEntry(body: Generation.Json): (r: Generation.Checked<NewEntry>)
    ensures r.Accepted? ==> WellFormed(r.value)
    ensures r.Accepted? && body.JObj? && "result_count" !in body.fields ==> r.value.resultCount == 0
    ensures r.Accepted? && body.JObj? && "search_type" !in body.fields ==> r.value.searchType == DefaultSearchType
  {
    if !body.JObj? || "search_term" !in body.fields || !body.fields["search_term"].JStr? then Generation.Rejected
    else
      var f := body.fields;
      var term := f["search_term"].s;
      var count := if "result_count" !in f then Generation.Accepted(0)
        else if f["result_count"].JNum? && IsInteger(f["result_count"].n) && f["result_count"].n >= 0.0
        then Generation.Accepted(f["result_count"].n.Floor) else Generation.Rejected;
      var kind := if "search_type" !in f then Generation.Accepted(DefaultSearchType)
        else if f["search_type"].JStr? && f["search_type"].s in SearchTypes
        then Generation.Accepted(f["search_type"].s) else Generation.Rejected;
      if 1 <= |Encoding.Utf16(term)| <= SearchTermMaxLength && count.Accepted? && kind.Accepted?
      then Generation.Accepted(NewEntry(term, AnyField(f, "domain_results"), count.value, kind.value, AnyField(f, "filters")))
      else Generation.Rejected
  }

  /** The body a client sends for an entry, every field written out. */
  function ToJson(e: NewEntry): Generation.Json {
    var m := map["search_term" := Generation.JStr(e.searchTerm), "result_count" := Generation.JNum(e.resultCount as real),
                 "search_type" := Generation.JStr(e.searchType)];
    var m := if e.domainResults.Some? then m["domain_results" := e.domainResults.value] else m;
    var m := if e.filters.Some? then m["filters" := e.filters.value] else m;
    Generation.JObj(m)
  }

  /** The schema accepts every well-formed entry and gives it back unchanged. */
  lemma ParseToJson(e: NewEntry)
    requires WellFormed(e)
    ensures ParseNewEntry(ToJson(e)) == Generation.Accepted(e)
  {
    assert (e.resultCount as real).Floor == e.resultCount;
  }

  /** A fractional or negative count, or a type outside the three, is refused. */
  lemma ParseRejects(term: string, fields: map<string, Generation.Json>, n: real, kind: string)
    ensures (!IsInteger(n) || n < 0.0) ==>
      ParseNewEntry(Generation.JObj(fields["search_term" := Generation.JStr(term)]["result_count" := Generation.JNum(n)])).Rejected?
    ensures kind !in SearchTypes ==>
      ParseNewEntry(Generation.JObj(fields["search_term" := Generation.JStr(term)]["search_type" := Generation.JStr(kind)])).Rejected?
  {
  }

  function NewRow(id: string, user: string, e: NewEntry, now: int): (row: Entry)
    ensures row.userId == user && row.searchTerm == e.searchTerm && row.searchType == e.searchType
    ensures row.resultCount == e.resultCount && row.createdAt == now
  {
    Entry(id, user, e.searchTerm, e.domainResults, e.resultCount, e.searchType, e.filters, now)
  }

  // ------------------------------------------------------------ dedupe

  /** A row the duplicate lookup matches: the caller's, same term and type,
      created no earlier than an hour before `now`. */
  function RecentSame(user: string, term: string, kind: string, now: int): Entry -> bool {
    (h: Entry) => h.userId == user && h.searchTerm == term && h.searchType == kind && h.createdAt >= now - DedupeWindowMs
  }

  /** The `existing` lookup, a `.single()` query: it finds a row only when
      exactly one matches. */
  function Existing(rows: seq<Entry>, user: string, term: string, kind: string, now: int): Option<Entry> {
    Single(rows, RecentSame(user, term, kind, now))
  }

  /** Same user, term and type: the key the hourly dedupe works on. */
  predicate SameSearch(a: Entry, b: Entry) {
    a.userId == b.userId && a.searchTerm == b.searchTerm && a.searchType == b.searchType
  }

  /** Two records of the same search are always more than an hour apart. */
  predicate Spaced(rows: seq<Entry>) {
    forall i, j :: 0 <= i < j < |rows| && SameSearch(rows[i], rows[j]) ==>
      rows[j].createdAt - rows[i].createdAt > DedupeWindowMs
  }

  /** Nothing in the table is newer than `now`: the clock never runs back. */
  predicate NotAfter(rows: seq<Entry>, now: int) {
    forall k :: 0 <= k < |rows| ==> rows[k].createdAt <= now
  }

  /** In a spaced table written by a clock that never ran back, at most one
      row falls in any hour's window. */
  lemma {:induction false} AtMostOneRecent(rows: seq<Entry>, user: string, term: string, kind: string, now: int)
    requires Spaced(rows) && NotAfter(rows, now)
    ensures |Where(rows, RecentSame(user, term, kind, now))| <= 1
  {
    if |rows| > 0 {
      var init, last := rows[..|rows| - 1], rows[|rows| - 1];
      var p := RecentSame(user, term, kind, now);
      assert rows == init + [last];
      assert Spaced(init) && NotAfter(init, now);
      AtMostOneRecent(init, user, term, kind, now);
      if p(last) {
        forall k | 0 <= k < |init| ensures !p(init[k]) {
          if SameSearch(rows[k], rows[|rows| - 1]) {
            assert rows[|rows| - 1].createdAt - rows[k].createdAt > DedupeWindowMs;
          }
        }
        WhereNone(init, p);
      }
    }
  }

  /** So in such a table the `.single()` lookup is exact: it finds a row
      precisely when the same search was recorded in the last hour. */
  lemma ExistingIffRecent(rows: seq<Entry>, user: string, term: string, kind: string, now: int)
    requires Spaced(rows) && NotAfter(rows, now)
    ensures Existing(rows, user, term, kind, now).Some? <==>
      exists k :: 0 <= k < |rows| && RecentSame(user, term, kind, now)(rows[k])
  {
    AtMostOneRecent(rows, user, term, kind, now);
    var hits := Where(rows, RecentSame(user, term, kind, now));
    if k :| 0 <= k < |rows| && RecentSame(user, term, kind, now)(rows[k]) {
      assert rows[k] in hits;
    }
    if |hits| == 1 {
      assert hits[0] in rows;
    }
  }

  /** Recording at `now` a search with no recent record keeps the table spaced. */
  /** With the lookup failing, a search repeated within the hour is inserted
      again, and the table is no longer spaced. */
  lemma FailedLookupRepeats(rows: seq<Entry>, id: string, user: string, e: NewEntry, now: int, k: nat)
    requires k < |rows| && RecentSame(user, e.searchTerm, e.searchType, now)(rows[k])
    ensures !Spaced(rows + [NewRow(id, user, e, now)])
  {
    var r := rows + [NewRow(id, user, e, now)];
    assert r[k] == rows[k] && SameSearch(r[k], r[|rows|]);
    assert r[|rows|].createdAt - r[k].createdAt <= DedupeWindowMs;
  }

  lemma AppendKeepsSpaced(rows: seq<Entry>, row: Entry, now: int)
    requires Spaced(rows) && NotAfter(rows, now) && row.createdAt == now
    requires forall k :: 0 <= k < |rows| ==> !RecentSame(row.userId, row.searchTerm, row.searchType, now)(rows[k])
    ensures Spaced(rows + [row]) && NotAfter(rows + [row], now)
  {
    var r := rows + [row];
    forall i, j | 0 <= i < j < |r| && SameSearch(r[i], r[j]) ensures r[j].createdAt - r[i].createdAt > DedupeWindowMs {
      if j == |rows| {
        assert !RecentSame(row.userId, row.searchTerm, row.searchType, now)(rows[i]);
      } else {
        assert r[i] == rows[i] && r[j] == rows[j];
      }
    }
  }

  // ------------------------------------------------------------ GET

  /** The conditions the GET query puts on rows. */
  datatype Query = Query(userId: string, search: Option<string>, searchType: Option<string>)

  /** A row the query keeps: the caller's, its term containing the search
      (`ilike '%search%'`), and of the requested type exactly. */
  predicate Selects(q: Query, h: Entry) {
    && h.userId == q.userId
    && (q.search.Some? ==> ContainsIgnoreCase(h.searchTerm, q.search.value))
    && (q.searchType.Some? ==> h.searchType == q.searchType.value)
  }

  /** The query a GET request builds: each filter only when its parameter is
      not empty. */
  function RequestedQuery(user: string, search: Option<string>, searchType: Option<string>): (q: Query)
    ensures q.userId == user
    ensures q.search.Some? <==> Truthy(search)
    ensures q.searchType.Some? <==> Truthy(searchType)
    ensures q.search.Some? ==> q.search == search
    ensures q.searchType.Some? ==> q.searchType == searchType
  {
    Query(user, if Truthy(search) then search else None, if Truthy(searchType) then searchType else None)
  }

  function Listing(rows: seq<Entry>, q: Query): seq<Entry> {
    NewestFirst(Where(rows, (h: Entry) => Selects(q, h)), (h: Entry) => h.createdAt)
  }

  /** The listing holds exactly the rows the query keeps, newest first. */
  lemma ListingContents(rows: seq<Entry>, q: Query)
    ensures forall k :: 0 <= k < |Listing(rows, q)| ==> Listing(rows, q)[k] in rows && Selects(q, Listing(rows, q)[k])
    ensures forall k :: 0 <= k < |rows| && Selects(q, rows[k]) ==> rows[k] in Listing(rows, q)
    ensures forall i, j :: 0 <= i < j < |Listing(rows, q)| ==> Listing(rows, q)[i].createdAt >= Listing(rows, q)[j].createdAt
  {
    var kept := Where(rows, (h: Entry) => Selects(q, h));
    var l := Listing(rows, q);
    NewestFirstOrdered(kept, (h: Entry) => h.createdAt);
    forall k | 0 <= k < |l| ensures l[k] in rows && Selects(q, l[k]) {
      assert l[k] in multiset(kept);
    }
    forall k | 0 <= k < |rows| && Selects(q, rows[k]) ensures rows[k] in l {
      assert rows[k] in multiset(l);
    }
  }

  function PageRows(rows: seq<Entry>, q: Query, pageParam: Option<string>, limitParam: Option<string>): Option<seq<Entry>> {
    var page, limit := PageNumber(pageParam), PageSize(limitParam, DefaultLimitText);
    if page.Some? && limit.Some? then Window(Listing(rows, q), Offset(page.value, limit.value), limit.value) else None
  }

  function OwnedBy(user: string): Entry -> bool {
    (h: Entry) => h.userId == user
  }

  datatype HistoryPage = HistoryPage(history: seq<Entry>, pagination: Pagination)

  // ------------------------------------------------------------ POST and DELETE replies

  /** What a successful POST answers: the new row, or the note that the
      search was already recorded. */
  datatype Recorded = Inserted(row: Entry) | Skipped(message: string)

  /** What a successful DELETE answers: `deleted_count` is null for clear-all. */
  datatype Deleted = Deleted(message: string, deletedCount: Option<nat>)

  /** What remains after a delete: with clear-all nothing of the caller's,
      otherwise the caller's rows whose id is not listed, and every other
      user's rows either way. */
  function AfterDelete(rows: seq<Entry>, user: string, clearAll: bool, ids: seq<string>): seq<Entry> {
    Where(rows, (h: Entry) => !(h.userId == user && (clearAll || h.id in ids)))
  }

  lemma AfterDeleteContents(rows: seq<Entry>, user: string, clearAll: bool, ids: seq<string>)
    ensures forall k :: 0 <= k < |rows| && rows[k].userId != user ==> rows[k] in AfterDelete(rows, user, clearAll, ids)
    ensures clearAll ==> forall h :: h in AfterDelete(rows, user, clearAll, ids) ==> h.userId != user
    ensures !clearAll ==> forall k :: 0 <= k < |rows| && rows[k].id !in ids ==> rows[k] in AfterDelete(rows, user, clearAll, ids)
    ensures forall h :: h in AfterDelete(rows, user, clearAll, ids) ==> h in rows
  {
    var r := AfterDelete(rows, user, clearAll, ids);
    forall h | h in r ensures h in rows && (clearAll ==> h.userId != user) {
      var k :| 0 <= k < |r| && r[k] == h;
    }
  }

  /** Deleting never puts a row in the future. */
  lemma WhereKeepsNotAfter(rows: seq<Entry>, keep: Entry -> bool, now: int)
    requires NotAfter(rows, now)
    ensures NotAfter(Where(rows, keep), now)
  {
    var w := Where(rows, keep);
    forall k | 0 <= k < |w| ensures w[k].createdAt <= now {
      var j :| 0 <= j < |rows| && rows[j] == w[k];
    }
  }

  /** Deleting keeps the table spaced. */
  lemma {:induction false} WhereKeepsSpaced(rows: seq<Entry>, keep: Entry -> bool)
    requires Spaced(rows)
    ensures Spaced(Where(rows, keep))
  {
    if |rows| > 0 {
      var init, last := rows[..|rows| - 1], rows[|rows| - 1];
      assert rows == init + [last];
      assert Spaced(init);
      WhereKeepsSpaced(init, keep);
      var wi := Where(init, keep);
      var w := Where(rows, keep);
      if keep(last) {
        assert w == wi + [last];
        LastSpacedFromInit(rows);
        forall k | 0 <= k < |wi| && SameSearch(wi[k], last) ensures last.createdAt - wi[k].createdAt > DedupeWindowMs {
          assert wi[k] in init;
        }
        SpacedSnoc(wi, last);
      }
    }
  }

  /** The last row of a spaced table is spaced from every row before it. */
  lemma LastSpacedFromInit(rows: seq<Entry>)
    requires Spaced(rows) && |rows| > 0
    ensures forall e :: e in rows[..|rows| - 1] && SameSearch(e, rows[|rows| - 1]) ==>
      rows[|rows| - 1].createdAt - e.createdAt > DedupeWindowMs
  {
    var init := rows[..|rows| - 1];
    forall e | e in init && SameSearch(e, rows[|rows| - 1])
      ensures rows[|rows| - 1].createdAt - e.createdAt > DedupeWindowMs
    {
      var a :| 0 <= a < |init| && init[a] == e;
      assert rows[a] == e;
    }
  }

  /** A row spaced from every row of a spaced table can follow them. */
  lemma SpacedSnoc(w: seq<Entry>, last: Entry)
    requires Spaced(w)
    requires forall k :: 0 <= k < |w| && SameSearch(w[k], last) ==> last.createdAt - w[k].createdAt > DedupeWindowMs
    ensures Spaced(w + [last])
  {
    var v := w + [last];
    forall i, j | 0 <= i < j < |v| && SameSearch(v[i], v[j]) ensures v[j].createdAt - v[i].createdAt > DedupeWindowMs {
      if j == |w| {
        assert v[i] == w[i] && v[j] == last;
      } else {
        assert v[i] == w[i] && v[j] == w[j];
      }
    }
  }

  // ------------------------------------------------------------ the table

  /** The DELETE handler's 400: no `clear_all=true` and no id listed. */
  predicate DeleteRefused(idsParam: Option<string>, clearAllParam: Option<string>) {
    clearAllParam != Some("true") && (IdList(idsParam).None? || |IdList(idsParam).value| == 0)
  }

  class HistoryTable {
    var rows: seq<Entry>

    constructor()
      ensures rows == []
    {
      rows := [];
    }

    /** `GET`: one page of the caller's history, filtered, newest first; the
        total counts all of the caller's entries, whatever the filters. */
    method List(session: Session, pageParam: Option<string>, limitParam: Option<string>,
                search: Option<string>, searchType: Option<string>, queryFails: bool, countFails: bool)
      returns (reply: Reply<HistoryPage>)
      ensures !SignedIn(session) ==> reply == Unauthorized()
      ensures SignedIn(session) ==>
        var found := PageRows(rows, RequestedQuery(session.user.value, search, searchType), pageParam, limitParam);
        if queryFails || found.None? then reply == Failure(StatusInternalError, DatabaseErrorCode, QueryFailedMessage)
        else reply == Success(StatusOk, HistoryPage(found.value,
          PaginationOf(PageNumber(pageParam).value, PageSize(limitParam, DefaultLimitText).value,
                       if countFails then None else Some(Count(rows, OwnedBy(session.user.value))))))
    {
      if !SignedIn(session) {
        return Unauthorized();
      }
      var user := session.user.value;
      var page := PageNumber(pageParam);
      var limit := PageSize(limitParam, DefaultLimitText);
      var query := Query(user, None, None);
      if Truthy(search) {
        query := query.(search := search);
      }
      if Truthy(searchType) {
        query := query.(searchType := searchType);
      }
      assert query == RequestedQuery(user, search, searchType);
      var found := None;
      if page.Some? && limit.Some? {
        found := Window(Listing(rows, query), Offset(page.value, limit.value), limit.value);
      }
      if queryFails || found.None? {
        return Failure(StatusInternalError, DatabaseErrorCode, QueryFailedMessage);
      }
      var count := if countFails then None else Some(Count(rows, OwnedBy(user)));
      reply := Success(StatusOk, HistoryPage(found.value, PaginationOf(page.value, limit.value, count)));
    }

    /** `POST`: records the search unless the lookup finds the same one from
        the last hour, in which case it succeeds without inserting. Only the
        lookup's `data` is read, so a lookup that fails (`lookupFails`) reads
        as "not found" and the insert goes ahead. Only a successful insert
        changes the table; with a clock that never runs back and a lookup that
        succeeds it keeps the same search at most once an hour. */
    method Record(session: Session, body: Generation.BodyRead, newId: string, now: int,
                  lookupFails: bool, insertFails: bool)
      returns (reply: Reply<Recorded>)
      modifies this
      ensures !SignedIn(session) ==> reply == Unauthorized() && rows == old(rows)
      ensures SignedIn(session) && body.Unparseable? ==> reply == InternalError() && rows == old(rows)
      ensures SignedIn(session) && body.Parsed? && ParseNewEntry(body.json).Rejected? ==>
        reply == ValidationError() && rows == old(rows)
      ensures SignedIn(session) && body.Parsed? && ParseNewEntry(body.json).Accepted? ==>
        var e := ParseNewEntry(body.json).value;
        var user := session.user.value;
        if !lookupFails && Existing(old(rows), user, e.searchTerm, e.searchType, now).Some? then
          reply == Success(StatusOk, Skipped(SkippedMessage)) && rows == old(rows)
        else if insertFails then
          reply == Failure(StatusInternalError, DatabaseErrorCode, InsertFailedMessage) && rows == old(rows)
        else
          reply == Success(StatusCreated, Inserted(NewRow(newId, user, e, now)))
          && rows == old(rows) + [NewRow(newId, user, e, now)]
      ensures NotAfter(old(rows), now) ==> NotAfter(rows, now)
      ensures !lookupFails && Spaced(old(rows)) && NotAfter(old(rows), now) ==> Spaced(rows)
    {
      if !SignedIn(session) {
        return Unauthorized();
      }
      var user := session.user.value;
      if body.Unparseable? {
        return InternalError();
      }
      var parsed := ParseNewEntry(body.json);
      if parsed.Rejected? {
        return ValidationError();
      }
      var e := parsed.value;
      var existing := if lookupFails then None else Existing(rows, user, e.searchTerm, e.searchType, now);
      if existing.Some? {
        return Success(StatusOk, Skipped(SkippedMessage));
      }
      if insertFails {
        return Failure(StatusInternalError, DatabaseErrorCode, InsertFailedMessage);
      }
      var row := NewRow(newId, user, e, now);
      if !lookupFails && Spaced(rows) && NotAfter(rows, now) {
        ExistingIffRecent(rows, user, e.searchTerm, e.searchType, now);
        AppendKeepsSpaced(rows, row, now);
      }
      rows := rows + [row];
      reply := Success(StatusCreated, Inserted(row));
    }

    /** `DELETE`: with `clear_all=true` removes all of the caller's entries;
        otherwise removes the caller's entries whose id is listed, and with
        no id listed refuses the request. */
    method Remove(session: Session, idsParam: Option<string>, clearAllParam: Option<string>, deleteFails: bool, now: int)
      returns (reply: Reply<Deleted>)
      modifies this
      ensures !SignedIn(session) ==> reply == Unauthorized() && rows == old(rows)
      ensures SignedIn(session) ==>
        var clearAll := clearAllParam == Some("true");
        var ids := IdList(idsParam);
        if !clearAll && (ids.None? || |ids.value| == 0) then
          reply == Failure(StatusBadRequest, InvalidRequestCode, MissingIdsMessage) && rows == old(rows)
        else if deleteFails then
          reply == Failure(StatusInternalError, DatabaseErrorCode, DeleteFailedMessage) && rows == old(rows)
        else if clearAll then
          reply == Success(StatusOk, Deleted(ClearedMessage, None))
          && rows == AfterDelete(old(rows), session.user.value, true, [])
        else
          reply == Success(StatusOk, Deleted(DeletedMessage, Some(|ids.value|)))
          && rows == AfterDelete(old(rows), session.user.value, false, ids.value)
      ensures SignedIn(session) && DeleteRefused(idsParam, clearAllParam) ==>
        reply == Failure(StatusBadRequest, InvalidRequestCode, MissingIdsMessage) && rows == old(rows)
      ensures Spaced(old(rows)) ==> Spaced(rows)
      ensures NotAfter(old(rows), now) ==> NotAfter(rows, now)
    {
      if !SignedIn(session) {
        return Unauthorized();
      }
      var user := session.user.value;
      var ids := IdList(idsParam);
      var clearAll := clearAllParam == Some("true");
      var selected: seq<string> := [];
      if clearAll {
      } else if ids.Some? && |ids.value| > 0 {
        selected := ids.value;
      } else {
        return Failure(StatusBadRequest, InvalidRequestCode, MissingIdsMessage);
      }
      if deleteFails {
        return Failure(StatusInternalError, DatabaseErrorCode, DeleteFailedMessage);
      }
      var keep := (h: Entry) => !(h.userId == user && (clearAll || h.id in selected));
      if Spaced(rows) {
        WhereKeepsSpaced(rows, keep);
      }
      if NotAfter(rows, now) {
        WhereKeepsNotAfter(rows, keep, now);
      }
      rows := AfterDelete(rows, user, clearAll, selected);
      if clearAll {
        reply := Success(StatusOk, Deleted(ClearedMessage, None));
      } else {
        reply := Success(StatusOk, Deleted(DeletedMessage, Some(|selected|)));
      }
    }
  }
}
