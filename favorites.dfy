/** The favorites endpoint (apps/web/src/app/api/v1/favorites/route.ts): the
    signed-in user's rows of the `domain_favorites` table, listed a page at a
    time with optional search and availability filters, added one domain at a
    time and never twice, and deleted by id. The table is a class over its
    rows; database failures, the new row's id and the clock are parameters. */
module Favorites {
  import opened Strings
  import Encoding
  import Generation
  import opened UserTables

  const DomainMaxLength := 255
  const NotesMaxLength := 500
  const DefaultLimitText := "20"

  const AlreadyExistsCode := "ALREADY_EXISTS"
  const AlreadyExistsMessage := "该域名已在收藏列表中"
  const QueryFailedMessage := "查询收藏失败"
  const InsertFailedMessage := "添加收藏失败"
  const DeleteFailedMessage := "删除收藏失败"
  const MissingIdsMessage := "请提供要删除的收藏ID"

  /** One row of `domain_favorites`; times are milliseconds. */
  datatype Favorite = Favorite(
    id: string,
    userId: string,
    domain: string,
    tags: seq<string>,
    notes: Option<string>,
    isAvailable: Option<bool>,
    lastCheckedAt: Option<int>,
    createdAt: int)

  // ------------------------------------------------------------ POST body

  /** What `createFavoriteSchema` lets through. */
  datatype NewFavorite = NewFavorite(domain: string, tags: Option<seq<string>>, notes: Option<string>, isAvailable: Option<bool>)

  /** The schema's bounds, in UTF-16 code units as JavaScript counts them. */
  predicate WellFormed(f: NewFavorite) {
    && 1 <= |Encoding.Utf16(f.domain)| <= DomainMaxLength
    && (f.notes.Some? ==> |Encoding.Utf16(f.notes.value)| <= NotesMaxLength)
  }

  /** `createFavoriteSchema.parse(body)`: `domain` required, the other fields
      optional but of the right type when present; other keys are dropped. */
  function ParseNewFavorite(body: Generation.Json): (r: Generation.Checked<NewFavorite>)
    ensures r.Accepted? ==> WellFormed(r.value)
    ensures r.Accepted? ==> body.JObj? && "domain" in body.fields && body.fields["domain"] == Generation.JStr(r.value.domain)
  {
    if !body.JObj? || "domain" !in body.fields || !body.fields["domain"].JStr? then Generation.Rejected
    else
      var f := body.fields;
      var domain := f["domain"].s;
      var tags := if "tags" !in f then Generation.Accepted(None)
        else if f["tags"].JArr? && Generation.StringItems(f["tags"].items).Some?
        then Generation.Accepted(Generation.StringItems(f["tags"].items)) else Generation.Rejected;
      var notes := if "notes" !in f then Generation.Accepted(None)
        else if f["notes"].JStr? && |Encoding.Utf16(f["notes"].s)| <= NotesMaxLength
        then Generation.Accepted(Some(f["notes"].s)) else Generation.Rejected;
      var available := if "is_available" !in f then Generation.Accepted(None)
        else if f["is_available"].JBool? then Generation.Accepted(Some(f["is_available"].b)) else Generation.Rejected;
      if 1 <= |Encoding.Utf16(domain)| <= DomainMaxLength && tags.Accepted? && notes.Accepted? && available.Accepted?
      then Generation.Accepted(NewFavorite(domain, tags.value, notes.value, available.value))
      else Generation.Rejected
  }

  /** The body a client sends for a favorite, absent fields left out. */
  function ToJson(f: NewFavorite): Generation.Json {
    var m := map["domain" := Generation.JStr(f.domain)];
    var m := if f.tags.Some? then m["tags" := Generation.JArr(Generation.StringsToJson(f.tags.value))] else m;
    var m := if f.notes.Some? then m["notes" := Generation.JStr(f.notes.value)] else m;
    var m := if f.isAvailable.Some? then m["is_available" := Generation.JBool(f.isAvailable.value)] else m;
    Generation.JObj(m)
  }

  /** The schema accepts every well-formed favorite and gives it back unchanged. */
  lemma ParseToJson(f: NewFavorite)
    requires WellFormed(f)
    ensures ParseNewFavorite(ToJson(f)) == Generation.Accepted(f)
  {
    if f.tags.Some? {
      Generation.StringItemsOfStrings(f.tags.value);
    }
  }

  /** A domain outside 1..255 units or notes over 500 units are refused. */
  lemma ParseRejectsOutOfRange(fields: map<string, Generation.Json>, domain: string, notes: string)
    ensures !(1 <= |Encoding.Utf16(domain)| <= DomainMaxLength) ==>
      ParseNewFavorite(Generation.JObj(fields["domain" := Generation.JStr(domain)])).Rejected?
    ensures |Encoding.Utf16(notes)| > NotesMaxLength ==>
      ParseNewFavorite(Generation.JObj(fields["domain" := Generation.JStr(domain)]["notes" := Generation.JStr(notes)])).Rejected?
  {
  }

  /** The row the insert writes: tags default to none, and `last_checked_at`
      is set exactly when the client said whether the domain is available. */
  function NewRow(id: string, user: string, f: NewFavorite, now: int): (row: Favorite)
    ensures row.userId == user && row.domain == f.domain && row.notes == f.notes && row.isAvailable == f.isAvailable
    ensures row.tags == (if f.tags.Some? then f.tags.value else [])
    ensures row.lastCheckedAt.Some? <==> f.isAvailable.Some?
    ensures row.lastCheckedAt.Some? ==> row.lastCheckedAt.value == now
  {
    Favorite(id, user, f.domain, if f.tags.Some? then f.tags.value else [], f.notes, f.isAvailable,
             if f.isAvailable.Some? then Some(now) else None, now)
  }

  // ------------------------------------------------------------ GET

  /** The conditions the GET query puts on rows. */
  datatype Query = Query(userId: string, search: Option<string>, available: Option<bool>)

  /** A row the query keeps: the caller's, matching the search in its domain or
      its notes (`ilike '%search%'`; null notes never match), and with the
      requested availability (a null availability never matches). */
  predicate Selects(q: Query, f: Favorite) {
    && f.userId == q.userId
    && (q.search.Some? ==>
          ContainsIgnoreCase(f.domain, q.search.value)
          || (f.notes.Some? && ContainsIgnoreCase(f.notes.value, q.search.value)))
    && (q.available.Some? ==> f.isAvailable == Some(q.available.value))
  }

  /** The `available` parameter: a filter only for 'true' or 'false'. */
  function AvailabilityFilter(available: Option<string>): (r: Option<bool>)
    ensures r.Some? <==> available == Some("true") || available == Some("false")
    ensures r.Some? ==> (r.value <==> available == Some("true"))
  {
    if available == Some("true") then Some(true)
    else if available == Some("false") then Some(false)
    else None
  }

  /** The rows the query keeps, newest first. */
  function Listing(rows: seq<Favorite>, q: Query): seq<Favorite> {
    NewestFirst(Where(rows, (f: Favorite) => Selects(q, f)), (f: Favorite) => f.createdAt)
  }

  /** The listing holds exactly the rows the query keeps, newest first. */
  lemma ListingContents(rows: seq<Favorite>, q: Query)
    ensures forall k :: 0 <= k < |Listing(rows, q)| ==> Listing(rows, q)[k] in rows && Selects(q, Listing(rows, q)[k])
    ensures forall k :: 0 <= k < |rows| && Selects(q, rows[k]) ==> rows[k] in Listing(rows, q)
    ensures forall i, j :: 0 <= i < j < |Listing(rows, q)| ==> Listing(rows, q)[i].createdAt >= Listing(rows, q)[j].createdAt
  {
    var kept := Where(rows, (f: Favorite) => Selects(q, f));
    var l := Listing(rows, q);
    NewestFirstOrdered(kept, (f: Favorite) => f.createdAt);
    forall k | 0 <= k < |l| ensures l[k] in rows && Selects(q, l[k]) {
      assert l[k] in multiset(kept);
    }
    forall k | 0 <= k < |rows| && Selects(q, rows[k]) ensures rows[k] in l {
      assert rows[k] in multiset(l);
    }
  }

  /** The query a GET request builds: the search only when it is not empty,
      the availability only for 'true' or 'false'. */
  function RequestedQuery(user: string, search: Option<string>, available: Option<string>): (q: Query)
    ensures q.userId == user
    ensures q.search.Some? <==> Truthy(search)
    ensures q.search.Some? ==> q.search == search
    ensures q.available == AvailabilityFilter(available)
  {
    Query(user, if Truthy(search) then search else None, AvailabilityFilter(available))
  }

  /** The rows a page request returns; `None` when the page or the limit is
      NaN or the range is negative, which the database refuses. */
  function PageRows(rows: seq<Favorite>, q: Query, pageParam: Option<string>, limitParam: Option<string>): Option<seq<Favorite>> {
    var page, limit := PageNumber(pageParam), PageSize(limitParam, DefaultLimitText);
    if page.Some? && limit.Some? then Window(Listing(rows, q), Offset(page.value, limit.value), limit.value) else None
  }

  /** The rows the caller owns: what the count query counts. */
  function OwnedBy(user: string): Favorite -> bool {
    (f: Favorite) => f.userId == user
  }

  datatype FavoritesPage = FavoritesPage(favorites: seq<Favorite>, pagination: Pagination)

  // ------------------------------------------------------------ DELETE

  /** What remains after the caller deletes the listed ids: every other
      user's row, and the caller's rows whose id is not listed. */
  function AfterDelete(rows: seq<Favorite>, user: string, ids: seq<string>): seq<Favorite> {
    Where(rows, (f: Favorite) => !(f.userId == user && f.id in ids))
  }

  lemma AfterDeleteContents(rows: seq<Favorite>, user: string, ids: seq<string>)
    ensures forall k :: 0 <= k < |rows| && rows[k].userId != user ==> rows[k] in AfterDelete(rows, user, ids)
    ensures forall k :: 0 <= k < |rows| && rows[k].id !in ids ==> rows[k] in AfterDelete(rows, user, ids)
    ensures forall f :: f in AfterDelete(rows, user, ids) ==> f in rows && !(f.userId == user && f.id in ids)
  {
    var r := AfterDelete(rows, user, ids);
    forall f | f in r ensures f in rows && !(f.userId == user && f.id in ids) {
      var k :| 0 <= k < |r| && r[k] == f;
    }
  }

  /** The DELETE handler's reply: it depends on the session, the `ids`
      parameter and the database outcome, never on the rows. */
  function DeleteReply(session: Session, idsParam: Option<string>, deleteFails: bool): Reply<nat> {
    if !SignedIn(session) then Unauthorized()
    else if IdList(idsParam).None? || |IdList(idsParam).value| == 0 then
      Failure(StatusBadRequest, InvalidRequestCode, MissingIdsMessage)
    else if deleteFails then Failure(StatusInternalError, DatabaseErrorCode, DeleteFailedMessage)
    else Success(StatusOk, |IdList(idsParam).value|)
  }

  /** `deleted_count` is the number of ids sent, not the number of rows
      removed: a delete whose ids match none of the caller's rows leaves the
      table as it was and still reports every id as deleted. */
  lemma DeletedCountCountsIds(rows: seq<Favorite>, session: Session, idsParam: Option<string>)
    requires SignedIn(session) && IdList(idsParam).Some? && |IdList(idsParam).value| > 0
    requires forall k :: 0 <= k < |rows| ==>
      !(rows[k].userId == session.user.value && rows[k].id in IdList(idsParam).value)
    ensures AfterDelete(rows, session.user.value, IdList(idsParam).value) == rows
    ensures DeleteReply(session, idsParam, false).Success?
    ensures DeleteReply(session, idsParam, false).data == |IdList(idsParam).value| > 0
  {
    var user, ids := session.user.value, IdList(idsParam).value;
    WhereAll(rows, (f: Favorite) => !(f.userId == user && f.id in ids));
  }

  // ------------------------------------------------------------ invariant

  /** The key the POST handler keeps unique: one row per user and domain. */
  predicate SameKey(a: Favorite, b: Favorite) {
    a.userId == b.userId && a.domain == b.domain
  }

  predicate NoDuplicates(rows: seq<Favorite>) {
    forall i, j :: 0 <= i < j < |rows| ==> !SameKey(rows[i], rows[j])
  }

  function KeyIs(user: string, domain: string): Favorite -> bool {
    (f: Favorite) => f.userId == user && f.domain == domain
  }

  /** The `existing` lookup: `.single()` on the caller's rows for the domain. */
  function Existing(rows: seq<Favorite>, user: string, domain: string): Option<Favorite> {
    Single(rows, KeyIs(user, domain))
  }

  lemma {:induction false} AtMostOneMatch(rows: seq<Favorite>, user: string, domain: string)
    requires NoDuplicates(rows)
    ensures |Where(rows, KeyIs(user, domain))| <= 1
  {
    if |rows| > 0 {
      var init, last := rows[..|rows| - 1], rows[|rows| - 1];
      assert rows == init + [last];
      assert NoDuplicates(init);
      AtMostOneMatch(init, user, domain);
      if KeyIs(user, domain)(last) {
        forall k | 0 <= k < |init| ensures !KeyIs(user, domain)(init[k]) {
          assert !SameKey(rows[k], rows[|rows| - 1]);
        }
        WhereNone(init, KeyIs(user, domain));
      }
    }
  }

  /** With no duplicates, the `.single()` lookup finds a row exactly when the
      caller already has the domain: the duplicate check is sound and complete. */
  /** With the lookup failing, a second add of a pair the caller already has
      is inserted, and the pair is no longer unique. */
  lemma FailedLookupDuplicates(rows: seq<Favorite>, id: string, user: string, f: NewFavorite, now: int, k: nat)
    requires k < |rows| && rows[k].userId == user && rows[k].domain == f.domain
    ensures !NoDuplicates(rows + [NewRow(id, user, f, now)])
  {
    var r := rows + [NewRow(id, user, f, now)];
    assert r[k] == rows[k] && SameKey(r[k], r[|rows|]);
  }

  lemma ExistingIffPresent(rows: seq<Favorite>, user: string, domain: string)
    requires NoDuplicates(rows)
    ensures Existing(rows, user, domain).Some? <==>
      exists k :: 0 <= k < |rows| && rows[k].userId == user && rows[k].domain == domain
  {
    AtMostOneMatch(rows, user, domain);
    var hits := Where(rows, KeyIs(user, domain));
    if k :| 0 <= k < |rows| && rows[k].userId == user && rows[k].domain == domain {
      assert KeyIs(user, domain)(rows[k]);
      assert rows[k] in hits;
    }
    if |hits| == 1 {
      assert hits[0] in rows;
    }
  }

  // ------------------------------------------------------------ the table

  class FavoritesTable {
    var rows: seq<Favorite>

    constructor()
      ensures rows == []
    {
      rows := [];
    }

    /** `GET`: one page of the caller's favorites, filtered, newest first; the
        total counts all of the caller's favorites, whatever the filters. A
        NaN page or limit, or a negative offset or limit, is a range the
        database refuses. */
    method List(session: Session, pageParam: Option<string>, limitParam: Option<string>,
                search: Option<string>, available: Option<string>, queryFails: bool, countFails: bool)
      returns (reply: Reply<FavoritesPage>)
      ensures !SignedIn(session) ==> reply == Unauthorized()
      ensures SignedIn(session) ==>
        var found := PageRows(rows, RequestedQuery(session.user.value, search, available), pageParam, limitParam);
        if queryFails || found.None? then reply == Failure(StatusInternalError, DatabaseErrorCode, QueryFailedMessage)
        else reply == Success(StatusOk, FavoritesPage(found.value,
          PaginationOf(PageNumber(pageParam).value, PageSize(limitParam, DefaultLimitText).value,
                       if countFails then None else Some(Count(rows, OwnedBy(session.user.value))))))
    {
      if !SignedIn(session) {
        return Unauthorized();
      }
      var user := session.user.value;
      var page := PageNumber(pageParam);
      var limit := PageSize(limitParam, DefaultLimitText);
      var query := RequestQuery(user, search, available);
      var found := None;
      if page.Some? && limit.Some? {
        found := Window(Listing(rows, query), Offset(page.value, limit.value), limit.value);
      }
      assert found == PageRows(rows, query, pageParam, limitParam);
      if queryFails || found.None? {
        return Failure(StatusInternalError, DatabaseErrorCode, QueryFailedMessage);
      }
      var count := if countFails then None else Some(Count(rows, OwnedBy(user)));
      reply := Success(StatusOk, FavoritesPage(found.value, PaginationOf(page.value, limit.value, count)));
    }

    /** The query the handler builds from the search parameters: the search
        when it is not empty, the availability filter only for the texts
        "true" and "false". */
    static method RequestQuery(user: string, search: Option<string>, available: Option<string>)
      returns (query: Query)
      ensures query == RequestedQuery(user, search, available)
    {
      query := Query(user, None, None);
      if Truthy(search) {
        query := query.(search := search);
      }
      if available.Some? {
        if available.value == "true" {
          query := query.(available := Some(true));
        } else if available.value == "false" {
          query := query.(available := Some(false));
        }
      }
    }

    /** `POST`: adds the domain for the caller unless the lookup finds it.
        Only the lookup's `data` is read, so a lookup that fails
        (`lookupFails`) reads as "not found" and the insert goes ahead. Only a
        successful insert changes the table; it keeps every (user, domain)
        pair unique when the lookup succeeds. */
    method Add(session: Session, body: Generation.BodyRead, newId: string, now: int,
               lookupFails: bool, insertFails: bool)
      returns (reply: Reply<Favorite>)
      modifies this
      ensures !SignedIn(session) ==> reply == Unauthorized() && rows == old(rows)
      ensures SignedIn(session) && body.Unparseable? ==> reply == InternalError() && rows == old(rows)
      ensures SignedIn(session) && body.Parsed? && ParseNewFavorite(body.json).Rejected? ==>
        reply == ValidationError() && rows == old(rows)
      ensures SignedIn(session) && body.Parsed? && ParseNewFavorite(body.json).Accepted? ==>
        var f := ParseNewFavorite(body.json).value;
        var user := session.user.value;
        if !lookupFails && Existing(old(rows), user, f.domain).Some? then
          reply == Failure(StatusBadRequest, AlreadyExistsCode, AlreadyExistsMessage) && rows == old(rows)
        else if insertFails then
          reply == Failure(StatusInternalError, DatabaseErrorCode, InsertFailedMessage) && rows == old(rows)
        else
          reply == Success(StatusCreated, NewRow(newId, user, f, now)) && rows == old(rows) + [NewRow(newId, user, f, now)]
      ensures !lookupFails && NoDuplicates(old(rows)) ==> NoDuplicates(rows)
    {
      if !SignedIn(session) {
        return Unauthorized();
      }
      var user := session.user.value;
      if body.Unparseable? {
        return InternalError();
      }
      var parsed := ParseNewFavorite(body.json);
      if parsed.Rejected? {
        return ValidationError();
      }
      var f := parsed.value;
      var existing := if lookupFails then None else Existing(rows, user, f.domain);
      if existing.Some? {
        return Failure(StatusBadRequest, AlreadyExistsCode, AlreadyExistsMessage);
      }
      if insertFails {
        return Failure(StatusInternalError, DatabaseErrorCode, InsertFailedMessage);
      }
      var row := NewRow(newId, user, f, now);
      if !lookupFails && NoDuplicates(rows) {
        ExistingIffPresent(rows, user, f.domain);
      }
      rows := rows + [row];
      reply := Success(StatusCreated, row);
    }

    /** `DELETE`: removes the caller's rows whose id is listed in `ids` and
        reports how many ids were listed. */
    method Remove(session: Session, idsParam: Option<string>, deleteFails: bool) returns (reply: Reply<nat>)
      modifies this
      ensures !SignedIn(session) ==> reply == Unauthorized() && rows == old(rows)
      ensures SignedIn(session) && (IdList(idsParam).None? || |IdList(idsParam).value| == 0) ==>
        reply == Failure(StatusBadRequest, InvalidRequestCode, MissingIdsMessage) && rows == old(rows)
      ensures SignedIn(session) && IdList(idsParam).Some? && |IdList(idsParam).value| > 0 ==>
        var ids := IdList(idsParam).value;
        if deleteFails then
          reply == Failure(StatusInternalError, DatabaseErrorCode, DeleteFailedMessage) && rows == old(rows)
        else
          reply == Success(StatusOk, |ids|) && rows == AfterDelete(old(rows), session.user.value, ids)
      ensures reply == DeleteReply(session, idsParam, deleteFails)
      ensures NoDuplicates(old(rows)) ==> NoDuplicates(rows)
    {
      if !SignedIn(session) {
        return Unauthorized();
      }
      var ids := IdList(idsParam);
      if ids.None? || |ids.value| == 0 {
        return Failure(StatusBadRequest, InvalidRequestCode, MissingIdsMessage);
      }
      if deleteFails {
        return Failure(StatusInternalError, DatabaseErrorCode, DeleteFailedMessage);
      }
      WhereKeepsNoDuplicates(rows, (f: Favorite) => !(f.userId == session.user.value && f.id in ids.value));
      rows := AfterDelete(rows, session.user.value, ids.value);
      reply := Success(StatusOk, |ids.value|);
    }
  }

  /** Dropping rows never creates a duplicate. */
  lemma {:induction false} WhereKeepsNoDuplicates(rows: seq<Favorite>, keep: Favorite -> bool)
    ensures NoDuplicates(rows) ==> NoDuplicates(Where(rows, keep))
  {
    if |rows| > 0 && NoDuplicates(rows) {
      var init, last := rows[..|rows| - 1], rows[|rows| - 1];
      assert rows == init + [last];
      assert NoDuplicates(init);
      WhereKeepsNoDuplicates(init, keep);
      var w := Where(init, keep);
      if keep(last) {
        forall i | 0 <= i < |w| ensures !SameKey(w[i], last) {
          assert w[i] in init;
          var j :| 0 <= j < |init| && init[j] == w[i];
          assert rows[j] == w[i];
        }
      }
    }
  }
}
