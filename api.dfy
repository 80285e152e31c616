/**
 * The decisions of the v1 HTTP handlers: which repository call each one
 * makes, which status it answers with, and what the Page listing holds.
 *
 * Reading the request body and decoding its JSON are not part of this
 * model: their outcome is the `Body` parameter. Response writing, JSON
 * encoding and tracing are left out; a response is its status, its body
 * and the three pagination headers.
 */
module Api {
  import opened Records
  import opened Repository

  const StatusOK: nat := 200
  const StatusBadRequest: nat := 400
  const StatusNotFound: nat := 404
  const StatusInternalServerError: nat := 500

  /**
   * The wire form of a login: the row without its internal id. The wire
   * type spells the flag `Banned` while the handlers write `Ban`; the
   * model keeps the single flag `banned`.
   */
  datatype View = View(uuid: Uuid, login: string, banned: bool, createdAt: Option<Time>, updateAt: Option<Time>)

  /** The `meta` object of a listing; the same three values go into the pagination headers. */
  datatype Meta = Meta(count: nat, page: Uint, limit: Uint)

  datatype Payload = NoPayload | One(login: View) | Paged(meta: Meta, records: seq<View>) | CountText(count: nat)

  /** `pagination` holds the values of the Pagination-Count, -Page and -Limit headers when they are set. */
  datatype Response = Response(status: nat, payload: Payload, pagination: Option<Meta>)

  /** The outcome of reading and decoding a request body. */
  datatype Body = ReadFailed | Malformed | Decoded(login: View)

  function ToView(row: Row): View {
    View(row.uuid, row.login, row.banned, row.createdAt, row.updateAt)
  }

  /** The repository record a handler builds from a decoded body (its id is Go's zero value). */
  function FromView(v: View): Row {
    Row(0, v.uuid, v.login, v.banned, v.createdAt, v.updateAt)
  }

  function Failure(status: nat): Response {
    Response(status, NoPayload, None)
  }

  /**
   * The error branch shared by UpdateByUuid, FindByUuid, BanByUuid and
   * FindByLogin: `RecordNotFoundError` is 404, every other error 500.
   */
  function ErrorStatus(err: Error): (code: nat)
    ensures code == StatusNotFound <==> err == RecordNotFound
    ensures code == StatusInternalServerError <==> err != RecordNotFound
  {
    if err == RecordNotFound then StatusNotFound else StatusInternalServerError
  }

  /** The answer of FindByUuid and FindByLogin to a lookup result. */
  function LookupResponse(r: Result<Row>): (resp: Response)
    ensures resp.status == StatusOK <==> r.Ok?
    ensures r.Ok? ==> resp.payload == One(ToView(r.value))
    ensures r.Err? ==> resp.status == ErrorStatus(r.error) && resp.payload == NoPayload
  {
    match r
    case Ok(row) => Response(StatusOK, One(ToView(row)), None)
    case Err(e) => Failure(ErrorStatus(e))
  }

  // ---------------------------------------------------------------------
  // The Page join

  function ErrorOf<T>(r: Result<T>): Option<Error> {
    if r.Err? then Some(r.error) else None
  }

  /**
   * `errgroup.Group.Wait`: the error of whichever task failed first, or
   * none. `countFirst` says whether the Count task's error, when both
   * failed, was recorded before the Page task's; the order depends on
   * scheduling.
   */
  function Join(countErr: Option<Error>, pageErr: Option<Error>, countFirst: bool): (e: Option<Error>)
    ensures e.None? <==> countErr.None? && pageErr.None?
    ensures countErr.Some? && pageErr.None? ==> e == countErr
    ensures countErr.None? && pageErr.Some? ==> e == pageErr
    ensures countErr.Some? && pageErr.Some? ==> e == (if countFirst then countErr else pageErr)
  {
    if countErr.Some? && (countFirst || pageErr.None?) then countErr else pageErr
  }

  /** The wire records of a page, in the page's order. */
  function Views(rows: seq<Row>): (vs: seq<View>)
    ensures |vs| == |rows|
    ensures forall i :: 0 <= i < |rows| ==> vs[i] == ToView(rows[i])
  {
    if rows == [] then []
    else
      assert forall i :: 1 <= i < |rows| ==> rows[i] == rows[1..][i - 1];
      [ToView(rows[0])] + Views(rows[1..])
  }

  /**
   * The Page handler's answer, given what Count and Page returned: a
   * join error other than `io.EOF` is 500; otherwise a listing whose
   * count is what Count returned (0 when it failed), whose page and
   * limit are the 1-based request values, and whose records are the
   * page's rows (none on `io.EOF`).
   */
  function PageResponse(count: Result<nat>, models: Result<seq<Row>>, page: Uint, limit: Uint, countFirst: bool): (resp: Response)
    ensures resp.status == StatusOK || resp.status == StatusInternalServerError
    ensures resp.status == StatusInternalServerError <==>
              var err := Join(ErrorOf(count), ErrorOf(models), countFirst); err.Some? && err.value != EndOfPage
    ensures resp.status == StatusInternalServerError ==> resp.payload == NoPayload && resp.pagination.None?
    ensures resp.status == StatusOK ==> resp.payload.Paged? && resp.pagination == Some(resp.payload.meta)
  {
    var err := Join(ErrorOf(count), ErrorOf(models), countFirst);
    if err.Some? && err.value != EndOfPage then Failure(StatusInternalServerError)
    else
      var meta := Meta(if count.Ok? then count.value else 0, page, limit);
      var records := if models.Ok? then Views(models.value) else [];
      Response(StatusOK, Paged(meta, records), Some(meta))
  }

  // ---------------------------------------------------------------------
  // The handlers

  class Handlers {
    const repository: SqlRepository

    constructor (repository: SqlRepository)
      ensures this.repository == repository
    {
      this.repository := repository;
    }

    /**
     * Add: a body that cannot be read is 500, one that does not decode is
     * 400; the decoded login is inserted and any Insert error is 500.
     */
    method Add(body: Body, freshUuid: Uuid, newId: nat, now: Time, fault: WriteFault) returns (resp: Response)
      requires repository.Valid()
      requires repository.nextId <= newId
      modifies repository
      ensures repository.Valid()
      ensures body.ReadFailed? ==> resp == Failure(StatusInternalServerError) && unchanged(repository)
      ensures body.Malformed? ==> resp == Failure(StatusBadRequest) && unchanged(repository)
      ensures body.Decoded? && (fault.Unbuilt? || (fault.ExecFails? && !fault.applied)) ==>
                && resp == Failure(StatusInternalServerError)
                && repository.rows == old(repository.rows)
                && repository.nextId == old(repository.nextId)
      ensures body.Decoded? && fault.ExecFails? && fault.applied ==>
                var stored := FromView(body.login).(uuid := freshUuid, createdAt := Some(now));
                && resp == Failure(StatusInternalServerError)
                && repository.rows == old(repository.rows) + [stored.(id := newId)]
                && repository.nextId == newId + 1
      ensures body.Decoded? && !fault.Unbuilt? && !fault.ExecFails? ==>
                var stored := FromView(body.login).(uuid := freshUuid, createdAt := Some(now));
                && resp == Response(StatusOK, One(ToView(stored)), None)
                && repository.rows == old(repository.rows) + [stored.(id := newId)]
                && repository.nextId == newId + 1
    {
      match body
      case ReadFailed =>
        return Failure(StatusInternalServerError);
      case Malformed =>
        return Failure(StatusBadRequest);
      case Decoded(login) =>
        var _, returned, err := repository.Insert(FromView(login), freshUuid, newId, now, fault);
        if err.Some? {
          return Failure(StatusInternalServerError);
        }
        return Response(StatusOK, One(ToView(returned.value)), None);
    }

    /**
     * UpdateByUuid: the uuid comes from the path, the other columns from
     * the body; RecordNotFound is 404, any other error 500.
     */
    method UpdateByUuid(key: Uuid, body: Body, now: Time, fault: WriteFault) returns (resp: Response)
      requires repository.Valid()
      requires !fault.ExecFails?
      modifies repository
      ensures repository.Valid() && repository.nextId == old(repository.nextId)
      ensures body.ReadFailed? ==> resp == Failure(StatusInternalServerError) && unchanged(repository)
      ensures body.Malformed? ==> resp == Failure(StatusBadRequest) && unchanged(repository)
      ensures body.Decoded? && fault.Unbuilt? ==>
                resp == Failure(StatusInternalServerError) && repository.rows == old(repository.rows)
      ensures body.Decoded? && fault.AffectedFails? ==>
                var stamped := FromView(body.login).(uuid := key, updateAt := Some(now));
                resp == Failure(StatusInternalServerError) && repository.rows == Updated(old(repository.rows), stamped)
      ensures body.Decoded? && fault == WriteClean && MatchCount(old(repository.rows), key) == 0 ==>
                resp == Failure(StatusNotFound) && repository.rows == old(repository.rows)
      ensures body.Decoded? && fault == WriteClean && MatchCount(old(repository.rows), key) > 0 ==>
                var stamped := FromView(body.login).(uuid := key, updateAt := Some(now));
                && resp == Response(StatusOK, One(ToView(stamped)), None)
                && repository.rows == Updated(old(repository.rows), stamped)
    {
      match body
      case ReadFailed =>
        return Failure(StatusInternalServerError);
      case Malformed =>
        return Failure(StatusBadRequest);
      case Decoded(login) =>
        var _, r := repository.Update(FromView(login).(uuid := key), now, fault);
        if r.Err? {
          return Failure(ErrorStatus(r.error));
        }
        return Response(StatusOK, One(ToView(r.value)), None);
    }

    /**
     * FindByUuid: 200 with the first row carrying the uuid, 404 when the
     * cursor yields none, 500 on a store error.
     */
    method FindByUuid(key: Uuid, fault: ReadFault) returns (resp: Response)
      ensures resp == LookupResponse(LookupOutcome(repository.rows, ByUuid(key), fault))
      ensures resp.status == StatusNotFound <==>
                fault == CursorStops(0) ||
                (!fault.Refused? && forall i :: 0 <= i < |repository.rows| ==> repository.rows[i].uuid != key)
      ensures resp.status == StatusInternalServerError <==>
                fault.Refused? ||
                (fault.ScanFails? && fault.index == 0 &&
                 exists i :: 0 <= i < |repository.rows| && repository.rows[i].uuid == key)
      ensures resp.status == StatusOK ==>
                exists i :: 0 <= i < |repository.rows| && repository.rows[i].uuid == key &&
                            resp.payload == One(ToView(repository.rows[i]))
    {
      var r := repository.FindByUuid(key, fault);
      resp := LookupResponse(r);
    }

    /**
     * FindByLogin: 200 with the first row carrying the login, 404 when the
     * cursor yields none, 500 on a store error.
     */
    method FindByLogin(login: string, fault: ReadFault) returns (resp: Response)
      ensures resp == LookupResponse(LookupOutcome(repository.rows, ByLogin(login), fault))
      ensures resp.status == StatusNotFound <==>
                fault == CursorStops(0) ||
                (!fault.Refused? && forall i :: 0 <= i < |repository.rows| ==> repository.rows[i].login != login)
      ensures resp.status == StatusInternalServerError <==>
                fault.Refused? ||
                (fault.ScanFails? && fault.index == 0 &&
                 exists i :: 0 <= i < |repository.rows| && repository.rows[i].login == login)
      ensures resp.status == StatusOK ==>
                exists i :: 0 <= i < |repository.rows| && repository.rows[i].login == login &&
                            resp.payload == One(ToView(repository.rows[i]))
    {
      var r := repository.FindByLogin(login, fault);
      resp := LookupResponse(r);
    }

    /**
     * BanByUuid: 200 with no body when a row was banned, 404 when none
     * matched, 500 on a store error, including one raised after the rows
     * were already banned.
     */
    method BanByUuid(key: Uuid, now: Time, fault: WriteFault) returns (resp: Response)
      requires repository.Valid()
      modifies repository
      ensures repository.Valid() && repository.nextId == old(repository.nextId)
      ensures fault.Unbuilt? || (fault.ExecFails? && !fault.applied) ==>
                resp == Failure(StatusInternalServerError) && repository.rows == old(repository.rows)
      ensures fault.AffectedFails? || (fault.ExecFails? && fault.applied) ==>
                resp == Failure(StatusInternalServerError) && repository.rows == Banned(old(repository.rows), key, now)
      ensures fault == WriteClean && MatchCount(old(repository.rows), key) == 0 ==>
                resp == Failure(StatusNotFound) && repository.rows == old(repository.rows)
      ensures fault == WriteClean && MatchCount(old(repository.rows), key) > 0 ==>
                resp == Response(StatusOK, NoPayload, None) && repository.rows == Banned(old(repository.rows), key, now)
    {
      var _, err := repository.BanByUuid(key, now, fault);
      if err.Some? {
        return Failure(ErrorStatus(err.value));
      }
      return Response(StatusOK, NoPayload, None);
    }

    /** Count: 200 with the number of rows as text, 500 on a store error. */
    method Count(fault: ReadFault) returns (resp: Response)
      ensures CountOutcome(repository.rows, fault).Err? ==> resp == Failure(StatusInternalServerError)
      ensures CountOutcome(repository.rows, fault).Ok? ==>
                resp == Response(StatusOK, CountText(CountOutcome(repository.rows, fault).value), None)
      ensures fault == ReadClean ==> resp == Response(StatusOK, CountText(|repository.rows|), None)
      ensures fault == CursorStops(0) ==> resp == Response(StatusOK, CountText(0), None)
    {
      var r := repository.Count(fault);
      if r.Err? {
        return Failure(StatusInternalServerError);
      }
      return Response(StatusOK, CountText(r.value), None);
    }

    /**
     * Page: runs Count and the repository's Page for the zero-based page
     * `page - 1`, joins them (the two tasks run one after the other here;
     * `countFirst` decides whose error the join reports when both fail),
     * and copies the rows into the listing one index at a time.
     */
    method Page(page: Uint, limit: Uint, countFault: ReadFault, pageFault: ReadFault, countFirst: bool)
      returns (resp: Response)
      requires repository.Valid()
      requires page >= 1
      requires NoWrap(page - 1, limit)
      ensures resp == PageResponse(CountOutcome(repository.rows, countFault),
                                   PageOutcome(repository.rows, page - 1, limit, pageFault),
                                   page, limit, countFirst)
      ensures resp.status == StatusOK ==> |resp.payload.records| <= limit
      ensures resp.status == StatusOK ==> AllOnApiPage(resp.payload.records, repository.rows, page, limit)
    {
      var count := repository.Count(countFault);
      var totalCount := if count.Ok? then count.value else 0;
      var models := repository.Page(page - 1, limit, pageFault);
      var err := Join(ErrorOf(count), ErrorOf(models), countFirst);
      if err.Some? && err.value != EndOfPage {
        return Failure(StatusInternalServerError);
      }
      var rows := if models.Ok? then models.value else [];
      var logins := new View[|rows|];
      for index := 0 to |rows|
        invariant forall i :: 0 <= i < index ==> logins[i] == ToView(rows[i])
      {
        logins[index] := ToView(rows[index]);
      }
      var meta := Meta(totalCount, page, limit);
      assert logins[..] == Views(rows);
      ApiPageWindow(repository.rows, count, page, limit, pageFault, countFirst);
      return Response(StatusOK, Paged(meta, logins[..]), Some(meta));
    }
  }

  // ---------------------------------------------------------------------
  // Properties of the handlers

  /** `io.EOF` from Page is an empty listing, not a failure, when Count succeeded. */
  lemma EmptyPageIsEmptyListing(n: nat, page: Uint, limit: Uint, countFirst: bool)
    ensures PageResponse(Ok(n), Err(EndOfPage), page, limit, countFirst) ==
            Response(StatusOK, Paged(Meta(n, page, limit), []), Some(Meta(n, page, limit)))
  {
  }

  /** A Page error other than `io.EOF` is 500, whatever Count returned and whichever task failed first. */
  lemma PageFailureIs500(count: Result<nat>, e: Error, page: Uint, limit: Uint, countFirst: bool)
    requires count.Err? ==> count.error != EndOfPage
    requires e != EndOfPage
    ensures PageResponse(count, Err(e), page, limit, countFirst).status == StatusInternalServerError
  {
  }

  /**
   * When Page's `io.EOF` is recorded before Count's error, the Count
   * failure is hidden: the answer is 200 with a count of 0. When Count's
   * error is recorded first, the answer is 500.
   */
  lemma CountErrorMaskedByEmptyPage(reason: string, page: Uint, limit: Uint)
    ensures PageResponse(Err(Store(reason)), Err(EndOfPage), page, limit, false) ==
            Response(StatusOK, Paged(Meta(0, page, limit), []), Some(Meta(0, page, limit)))
    ensures PageResponse(Err(Store(reason)), Err(EndOfPage), page, limit, true).status == StatusInternalServerError
  {
  }

  /**
   * A successful listing echoes the 1-based page, the limit and the count
   * in its meta object and in the pagination headers, and its records are
   * the repository page's rows in the same order.
   */
  lemma ListingEchoesRequest(count: Result<nat>, models: Result<seq<Row>>, page: Uint, limit: Uint, countFirst: bool)
    requires PageResponse(count, models, page, limit, countFirst).status == StatusOK
    ensures var resp := PageResponse(count, models, page, limit, countFirst);
            && resp.payload.Paged?
            && resp.pagination == Some(resp.payload.meta)
            && resp.payload.meta == Meta(if count.Ok? then count.value else 0, page, limit)
            && |resp.payload.records| == (if models.Ok? then |models.value| else 0)
            && (models.Ok? ==> forall i :: 0 <= i < |models.value| ==> resp.payload.records[i] == ToView(models.value[i]))
  {
  }

  /** `v` is the wire form of a table row whose id lies on API page `n` (1-based). */
  predicate OnApiPage(v: View, rows: seq<Row>, n: nat, limit: nat) {
    exists x :: x in rows && (n - 1) * limit + 1 <= x.id <= n * limit && v == ToView(x)
  }

  /** Every record is the wire form of a table row whose id lies on API page `n`. */
  predicate AllOnApiPage(records: seq<View>, rows: seq<Row>, n: nat, limit: nat) {
    forall i :: 0 <= i < |records| ==> OnApiPage(records[i], rows, n, limit)
  }

  /**
   * Every record of a 200 listing for API page `n` is the wire form of a
   * table row with id in `[(n - 1) * limit + 1, n * limit]`, whatever
   * Count returned and whatever the cursor did.
   */
  lemma ApiPageWindow(rows: seq<Row>, count: Result<nat>, n: Uint, limit: Uint, fault: ReadFault, countFirst: bool)
    requires n >= 1
    ensures var resp := PageResponse(count, PageOutcome(rows, n - 1, limit, fault), n, limit, countFirst);
            resp.status == StatusOK ==> AllOnApiPage(resp.payload.records, rows, n, limit)
  {
    var models := PageOutcome(rows, n - 1, limit, fault);
    var resp := PageResponse(count, models, n, limit, countFirst);
    if resp.status == StatusOK && models.Ok? {
      var w := Window(rows, n - 1, limit);
      assert (n - 1 + 1) * limit == n * limit;
      forall i | 0 <= i < |resp.payload.records|
        ensures OnApiPage(resp.payload.records[i], rows, n, limit)
      {
        var x := models.value[i];
        assert x == w[i] && x in w;
        assert resp.payload.records[i] == ToView(x);
      }
    }
  }

  /** Every non-200 answer of a lookup is 404 for RecordNotFound and 500 otherwise; none is 400. */
  lemma LookupStatuses(r: Result<Row>)
    ensures LookupResponse(r).status in {StatusOK, StatusNotFound, StatusInternalServerError}
  {
  }
}
