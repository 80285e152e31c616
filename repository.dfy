/**
 * The SQL-backed login repository: lookups by uuid or login, ban, count,
 * id-window paging, update and insert, over an abstract `logins` table.
 *
 * The table is the sequence of rows in store order. Each operation that
 * sends one statement to the store is stated through a function on that
 * sequence (the rows a WHERE clause selects, the table an UPDATE leaves
 * behind), and the lemmas below the functions state what the source
 * promises about them. Where the SQL driver fails, if anywhere, is the
 * `fault` parameter of each call: a `ReadFault` for the statements that
 * read through a cursor, a `WriteFault` for those that execute.
 */
module Repository {
  import opened Records

  /** The WHERE clause of a single-row lookup: `uuid = ?` or `login = ?`. */
  datatype Key = ByUuid(uuid: Uuid) | ByLogin(login: string)

  /**
   * Where the driver fails while a lookup, Count or Page runs.
   * `Refused`: building the statement or `QueryContext` returns an error.
   * `ScanFails(k, _)`: `rows.Scan` fails on row `k` (from 0) of the result set.
   * `CursorStops(k)`: the cursor fails after delivering `k` rows; `rows.Next`
   * then reports false, and the source never asks `rows.Err` for the cause.
   */
  datatype ReadFault =
    | ReadClean
    | Refused(reason: string)
    | ScanFails(index: nat, reason: string)
    | CursorStops(index: nat)

  /**
   * Where the driver fails while BanByUuid, Update or Insert runs.
   * `Unbuilt`: building the statement fails, so nothing is sent.
   * `ExecFails(_, applied)`: `ExecContext` returns an error. The source
   * cannot tell whether the store applied the statement: a deadline or a
   * dropped connection can report an error after the commit; `applied`
   * says which happened.
   * `AffectedFails`: `RowsAffected` returns an error after the statement was applied.
   */
  datatype WriteFault =
    | WriteClean
    | Unbuilt(reason: string)
    | ExecFails(reason: string, applied: bool)
    | AffectedFails(reason: string)

  predicate Matches(row: Row, key: Key) {
    match key
    case ByUuid(u) => row.uuid == u
    case ByLogin(l) => row.login == l
  }

  /** Ids strictly increase along the table: the store's auto-increment order. */
  ghost predicate IdsIncreasing(rows: seq<Row>) {
    forall i, j :: 0 <= i < j < |rows| ==> rows[i].id < rows[j].id
  }

  // ---------------------------------------------------------------------
  // Lookup

  /**
   * What a lookup returns: the first row of the result set, in store
   * order, and `RecordNotFound` when the result set is empty. Further
   * matches are ignored.
   */
  function FirstMatch(rows: seq<Row>, key: Key): (r: Result<Row>)
    ensures r.Err? <==> forall i :: 0 <= i < |rows| ==> !Matches(rows[i], key)
    ensures r.Err? ==> r.error == RecordNotFound
    ensures r.Ok? ==> Matches(r.value, key)
    ensures r.Ok? ==> exists i :: 0 <= i < |rows| && rows[i] == r.value &&
                                  forall j :: 0 <= j < i ==> !Matches(rows[j], key)
  {
    if rows == [] then Err(RecordNotFound)
    else if Matches(rows[0], key) then Ok(rows[0])
    else
      var r := FirstMatch(rows[1..], key);
      assert r.Ok? ==> exists i :: 0 <= i < |rows| && rows[i] == r.value &&
                                   forall j :: 0 <= j < i ==> !Matches(rows[j], key) by {
        if r.Ok? {
          var k :| 0 <= k < |rows[1..]| && rows[1..][k] == r.value &&
                   forall j :: 0 <= j < k ==> !Matches(rows[1..][j], key);
          assert rows[k + 1] == r.value;
          assert forall j :: 0 <= j < k + 1 ==> !Matches(rows[j], key) by {
            forall j | 0 <= j < k + 1 ensures !Matches(rows[j], key) {
              if j > 0 { assert rows[j] == rows[1..][j - 1]; }
            }
          }
        }
      }
      r
  }

  /**
   * What `find` returns under a driver fault. Only the first row of the
   * result set is ever scanned, so a scan failure further on is never met;
   * a cursor that fails before the first row reads as an empty result set.
   */
  function LookupOutcome(rows: seq<Row>, key: Key, fault: ReadFault): (r: Result<Row>)
    ensures r.Ok? ==> r == FirstMatch(rows, key)
    ensures r == Err(RecordNotFound) <==>
              fault == CursorStops(0) || (!fault.Refused? && FirstMatch(rows, key).Err?)
    ensures (r.Err? && r.error.Store?) <==>
              fault.Refused? || (fault.ScanFails? && fault.index == 0 && FirstMatch(rows, key).Ok?)
    ensures r.Err? ==> r.error == RecordNotFound || r.error.Store?
  {
    match fault
    case ReadClean => FirstMatch(rows, key)
    case Refused(reason) => Err(Store(reason))
    case ScanFails(k, reason) =>
      if k == 0 && FirstMatch(rows, key).Ok? then Err(Store(reason)) else FirstMatch(rows, key)
    case CursorStops(k) => if k == 0 then Err(RecordNotFound) else FirstMatch(rows, key)
  }

  /** The number of rows an UPDATE ... WHERE uuid = key affects. */
  function MatchCount(rows: seq<Row>, key: Uuid): (n: nat)
    ensures n <= |rows|
    ensures n == 0 <==> forall i :: 0 <= i < |rows| ==> rows[i].uuid != key
  {
    if rows == [] then 0
    else
      var rest := MatchCount(rows[1..], key);
      assert forall i :: 1 <= i < |rows| ==> rows[i] == rows[1..][i - 1];
      (if rows[0].uuid == key then 1 else 0) + rest
  }

  // ---------------------------------------------------------------------
  // Ban

  /** One row after `SET banned = true, update_at = now WHERE uuid = key`. */
  function BanRow(row: Row, key: Uuid, now: Time): Row {
    if row.uuid == key then row.(banned := true, updateAt := Some(now)) else row
  }

  /** The table after BanByUuid's UPDATE statement. */
  function Banned(rows: seq<Row>, key: Uuid, now: Time): (r: seq<Row>)
    ensures |r| == |rows|
    ensures forall i :: 0 <= i < |rows| && rows[i].uuid == key ==>
              r[i] == rows[i].(banned := true, updateAt := Some(now))
    ensures forall i :: 0 <= i < |rows| && rows[i].uuid != key ==> r[i] == rows[i]
  {
    if rows == [] then []
    else
      var rest := Banned(rows[1..], key, now);
      assert forall i :: 1 <= i < |rows| ==> rows[i] == rows[1..][i - 1];
      [BanRow(rows[0], key, now)] + rest
  }

  // ---------------------------------------------------------------------
  // Update

  /**
   * One row after Update's statement: every mapped column (uuid, login,
   * ban, created_at, update_at) is written from `rec`; `id` is not a
   * mapped column and stays.
   */
  function UpdateRow(row: Row, rec: Row): Row {
    if row.uuid == rec.uuid then rec.(id := row.id) else row
  }

  /** The table after Update's statement `UPDATE ... WHERE uuid = rec.uuid`. */
  function Updated(rows: seq<Row>, rec: Row): (r: seq<Row>)
    ensures |r| == |rows|
    ensures forall i :: 0 <= i < |rows| && rows[i].uuid == rec.uuid ==> r[i] == rec.(id := rows[i].id)
    ensures forall i :: 0 <= i < |rows| && rows[i].uuid != rec.uuid ==> r[i] == rows[i]
  {
    if rows == [] then []
    else
      var rest := Updated(rows[1..], rec);
      assert forall i :: 1 <= i < |rows| ==> rows[i] == rows[1..][i - 1];
      [UpdateRow(rows[0], rec)] + rest
  }

  // ---------------------------------------------------------------------
  // Count

  /**
   * What Count returns. `COUNT(uuid)` yields a single row: a failed scan
   * of it is an error, while a cursor that fails before it leaves the
   * count at 0 with no error.
   */
  function CountOutcome(rows: seq<Row>, fault: ReadFault): (r: Result<nat>)
    ensures r.Err? <==> fault.Refused? || (fault.ScanFails? && fault.index == 0)
    ensures r.Err? ==> r.error.Store?
    ensures r.Ok? && fault != CursorStops(0) ==> r.value == |rows|
    ensures r.Ok? && fault == CursorStops(0) ==> r.value == 0
  {
    match fault
    case ReadClean => Ok(|rows|)
    case Refused(reason) => Err(Store(reason))
    case ScanFails(k, reason) => if k == 0 then Err(Store(reason)) else Ok(|rows|)
    case CursorStops(k) => if k == 0 then Ok(0) else Ok(|rows|)
  }

  // ---------------------------------------------------------------------
  // Paging

  /** `id > lo AND id < hi`, the WHERE clause of Page. */
  predicate InRange(row: Row, lo: int, hi: int) {
    lo < row.id < hi
  }

  /** The rows of the table the WHERE clause `id > lo AND id < hi` selects, in store order. */
  function Select(rows: seq<Row>, lo: int, hi: int): (r: seq<Row>)
    ensures |r| <= |rows|
    ensures forall i :: 0 <= i < |r| ==> InRange(r[i], lo, hi)
  {
    if rows == [] then []
    else Select(rows[..|rows| - 1], lo, hi) + (if InRange(rows[|rows| - 1], lo, hi) then [rows[|rows| - 1]] else [])
  }

  /** Select keeps exactly the rows of the table that lie in the range. */
  lemma {:induction false} SelectMembers(rows: seq<Row>, lo: int, hi: int)
    ensures forall x :: x in Select(rows, lo, hi) <==> x in rows && InRange(x, lo, hi)
  {
    if rows != [] {
      var init := rows[..|rows| - 1];
      assert rows == init + [rows[|rows| - 1]];
      SelectMembers(init, lo, hi);
    }
  }

  /** Page's lower bound: `id > page * limit`. */
  function WindowLow(page: nat, limit: nat): nat {
    page * limit
  }

  /** Page's upper bound: `id < (page + 1) * limit + 1`. */
  function WindowHigh(page: nat, limit: nat): nat {
    (page + 1) * limit + 1
  }

  /**
   * The rows of page `page` (zero-based) of size `limit`: a row is on it
   * exactly when its id is in `[page * limit + 1, (page + 1) * limit]`.
   */
  function Window(rows: seq<Row>, page: nat, limit: nat): (w: seq<Row>)
    ensures forall x :: x in w <==> x in rows && page * limit + 1 <= x.id <= (page + 1) * limit
  {
    SelectMembers(rows, WindowLow(page, limit), WindowHigh(page, limit));
    Select(rows, WindowLow(page, limit), WindowHigh(page, limit))
  }

  /** The bounds of Page are computed in Go's `uint`; the model requires they do not wrap. */
  predicate NoWrap(page: nat, limit: nat) {
    (page + 1) * limit + 1 < UintLimit
  }

  /** What Page returns: `io.EOF` for an empty window, else its rows. */
  function PageResult(rows: seq<Row>, page: nat, limit: nat): (r: Result<seq<Row>>)
    ensures r.Err? <==> Window(rows, page, limit) == []
    ensures r.Err? ==> r.error == EndOfPage
    ensures r.Ok? ==> r.value == Window(rows, page, limit) && r.value != []
  {
    var w := Window(rows, page, limit);
    if w == [] then Err(EndOfPage) else Ok(w)
  }

  /**
   * What Page returns under a driver fault. A scan failure on a row of
   * the window discards the rows read so far; a cursor that fails after
   * `k` rows yields the first `k` rows of the window as the whole page.
   */
  function PageOutcome(rows: seq<Row>, page: nat, limit: nat, fault: ReadFault): (r: Result<seq<Row>>)
    ensures fault == ReadClean ==> r == PageResult(rows, page, limit)
    ensures r.Ok? ==> r.value != [] && r.value <= Window(rows, page, limit)
    ensures r.Ok? && !fault.CursorStops? ==> r.value == Window(rows, page, limit)
    ensures (r.Err? && r.error.Store?) <==>
              fault.Refused? || (fault.ScanFails? && fault.index < |Window(rows, page, limit)|)
    ensures r == Err(EndOfPage) <==>
              !fault.Refused? && (Window(rows, page, limit) == [] || fault == CursorStops(0))
    ensures r.Err? ==> r.error == EndOfPage || r.error.Store?
  {
    var w := Window(rows, page, limit);
    match fault
    case ReadClean => PageResult(rows, page, limit)
    case Refused(reason) => Err(Store(reason))
    case ScanFails(k, reason) => if k < |w| then Err(Store(reason)) else PageResult(rows, page, limit)
    case CursorStops(k) =>
      var delivered := if k < |w| then w[..k] else w;
      if delivered == [] then Err(EndOfPage) else Ok(delivered)
  }

  /** The concatenation of pages `0 .. n-1`. */
  function Listing(rows: seq<Row>, n: nat, limit: nat): seq<Row> {
    if n == 0 then [] else Listing(rows, n - 1, limit) + Window(rows, n - 1, limit)
  }

  // ---------------------------------------------------------------------
  // The repository

  /**
   * The `sql` repository together with the table it reads and writes.
   * `nextId` is the store's auto-increment counter for the `id` column.
   */
  class SqlRepository {
    var rows: seq<Row>
    var nextId: nat

    ghost predicate Valid()
      reads this
    {
      && IdsIncreasing(rows)
      && 1 <= nextId
      && (forall i :: 0 <= i < |rows| ==> 1 <= rows[i].id < nextId)
    }

    /** A repository over an empty table. */
    constructor ()
      ensures Valid()
      ensures rows == [] && nextId == 1
    {
      rows := [];
      nextId := 1;
    }

    /**
     * `find`: runs the lookup and returns the first row the result set
     * yields, or `RecordNotFound` when the cursor yields none. The store
     * scans the table in order for that first row.
     */
    method Find(key: Key, fault: ReadFault) returns (r: Result<Row>)
      ensures r == LookupOutcome(rows, key, fault)
    {
      if fault.Refused? {
        return Err(Store(fault.reason));
      }
      if fault == CursorStops(0) {
        return Err(RecordNotFound);
      }
      var i := 0;
      while i < |rows| && !Matches(rows[i], key)
        invariant 0 <= i <= |rows|
        invariant FirstMatch(rows[i..], key) == FirstMatch(rows, key)
      {
        assert rows[i..][1..] == rows[i + 1..];
        i := i + 1;
      }
      if i == |rows| {
        return Err(RecordNotFound);
      }
      if fault.ScanFails? && fault.index == 0 {
        return Err(Store(fault.reason));
      }
      return Ok(rows[i]);
    }

    /** FindByUuid: the first row whose uuid is `key`. */
    method FindByUuid(key: Uuid, fault: ReadFault) returns (r: Result<Row>)
      ensures r == LookupOutcome(rows, ByUuid(key), fault)
      ensures r.Ok? ==> r.value in rows && r.value.uuid == key
      ensures fault == ReadClean ==>
                (r == Err(RecordNotFound) <==> forall i :: 0 <= i < |rows| ==> rows[i].uuid != key)
      ensures (r.Err? && r.error.Store?) <==>
                fault.Refused? || (fault.ScanFails? && fault.index == 0 && exists i :: 0 <= i < |rows| && rows[i].uuid == key)
      ensures fault == CursorStops(0) ==> r == Err(RecordNotFound)
    {
      r := Find(ByUuid(key), fault);
    }

    /** FindByLogin: the first row whose login is `login`. */
    method FindByLogin(login: string, fault: ReadFault) returns (r: Result<Row>)
      ensures r == LookupOutcome(rows, ByLogin(login), fault)
      ensures r.Ok? ==> r.value in rows && r.value.login == login
      ensures fault == ReadClean ==>
                (r == Err(RecordNotFound) <==> forall i :: 0 <= i < |rows| ==> rows[i].login != login)
      ensures (r.Err? && r.error.Store?) <==>
                fault.Refused? || (fault.ScanFails? && fault.index == 0 && exists i :: 0 <= i < |rows| && rows[i].login == login)
      ensures fault == CursorStops(0) ==> r == Err(RecordNotFound)
    {
      r := Find(ByLogin(login), fault);
    }

    /**
     * BanByUuid: sets `banned` and stamps `update_at` on every row with
     * that uuid; succeeds only when at least one row was affected. When
     * the affected-row count cannot be read, or `ExecContext` reports an
     * error after the store applied the statement, the rows are banned
     * but the call still reports the driver's error.
     */
    method BanByUuid(key: Uuid, now: Time, fault: WriteFault) returns (ok: bool, err: Option<Error>)
      requires Valid()
      modifies this
      ensures Valid() && nextId == old(nextId)
      ensures ok <==> err.None?
      ensures fault.Unbuilt? || (fault.ExecFails? && !fault.applied) ==>
                err == Some(Store(fault.reason)) && rows == old(rows)
      ensures fault.AffectedFails? || (fault.ExecFails? && fault.applied) ==>
                err == Some(Store(fault.reason)) && rows == Banned(old(rows), key, now)
      ensures fault == WriteClean && MatchCount(old(rows), key) == 0 ==>
                err == Some(RecordNotFound) && rows == old(rows)
      ensures fault == WriteClean && MatchCount(old(rows), key) > 0 ==>
                ok && rows == Banned(old(rows), key, now)
    {
      if fault.Unbuilt? || (fault.ExecFails? && !fault.applied) {
        return false, Some(Store(fault.reason));
      }
      var affected := MatchCount(rows, key);
      BanNoMatchIsIdentity(rows, key, now);
      rows := Banned(rows, key, now);
      if fault.ExecFails? || fault.AffectedFails? {
        return false, Some(Store(fault.reason));
      }
      if affected == 0 {
        return false, Some(RecordNotFound);
      }
      return true, None;
    }

    /** Count: the number of rows in the table (`COUNT(uuid)`). */
    method Count(fault: ReadFault) returns (r: Result<nat>)
      ensures r == CountOutcome(rows, fault)
    {
      if fault.Refused? {
        return Err(Store(fault.reason));
      }
      if fault == CursorStops(0) {
        return Ok(0);
      }
      if fault.ScanFails? && fault.index == 0 {
        return Err(Store(fault.reason));
      }
      return Ok(|rows|);
    }

    /**
     * Page: reads the rows with `page * limit < id < (page + 1) * limit + 1`
     * off the cursor in store order (there is no ORDER BY) and returns
     * `io.EOF` when none was read.
     */
    method Page(page: Uint, limit: Uint, fault: ReadFault) returns (r: Result<seq<Row>>)
      requires Valid()
      requires NoWrap(page, limit)
      ensures r == PageOutcome(rows, page, limit, fault)
      ensures r.Ok? ==> |r.value| <= limit
    {
      if fault.Refused? {
        return Err(Store(fault.reason));
      }
      var resultSet := Window(rows, page, limit);
      var logins: seq<Row> := [];
      var i := 0;
      while i < |resultSet|
        invariant 0 <= i <= |resultSet|
        invariant logins == resultSet[..i]
        invariant fault.ScanFails? || fault.CursorStops? ==> i <= fault.index
      {
        if fault == CursorStops(i) {
          break;
        }
        if fault.ScanFails? && fault.index == i {
          return Err(Store(fault.reason));
        }
        logins := logins + [resultSet[i]];
        i := i + 1;
      }
      assert resultSet[..|resultSet|] == resultSet;
      PageAtMostLimit(rows, page, limit);
      if |logins| == 0 {
        return Err(EndOfPage);
      }
      return Ok(logins);
    }

    /**
     * Update: stamps the caller's record with `update_at = now`, writes
     * every mapped column of it to the rows with its uuid, and reports
     * `RecordNotFound` when no row was affected. `stamped` is the caller's
     * record after the stamp, which the source writes through its pointer
     * before anything can fail.
     */
    method Update(login: Row, now: Time, fault: WriteFault) returns (stamped: Row, r: Result<Row>)
      requires Valid()
      requires !fault.ExecFails?
      modifies this
      ensures Valid() && nextId == old(nextId)
      ensures stamped == login.(updateAt := Some(now))
      ensures fault.Unbuilt? ==> r == Err(Store(fault.reason)) && rows == old(rows)
      ensures fault.AffectedFails? ==> r == Err(Store(fault.reason)) && rows == Updated(old(rows), stamped)
      ensures fault == WriteClean && MatchCount(old(rows), login.uuid) == 0 ==>
                r == Err(RecordNotFound) && rows == old(rows)
      ensures fault == WriteClean && MatchCount(old(rows), login.uuid) > 0 ==>
                r == Ok(stamped) && rows == Updated(old(rows), stamped)
    {
      stamped := login.(updateAt := Some(now));
      if fault.Unbuilt? {
        return stamped, Err(Store(fault.reason));
      }
      var affected := MatchCount(rows, stamped.uuid);
      UpdateNoMatchIsIdentity(rows, stamped);
      rows := Updated(rows, stamped);
      if fault.AffectedFails? {
        return stamped, Err(Store(fault.reason));
      }
      if affected == 0 {
        return stamped, Err(RecordNotFound);
      }
      return stamped, Ok(stamped);
    }

    /**
     * Insert: overwrites the caller's uuid with a fresh one and its
     * `created_at` with now, and appends the record under the id the
     * store assigns. A statement that cannot be built returns no record;
     * when `ExecContext` reports an error the record is returned together
     * with it, whether or not the store applied the insert.
     * `newId` is the auto-increment value the store hands out, which
     * may skip values a failed insert consumed. Insert never reads the
     * affected-row count, so an `AffectedFails` fault does not reach it.
     */
    method Insert(login: Row, freshUuid: Uuid, newId: nat, now: Time, fault: WriteFault)
      returns (stamped: Row, returned: Option<Row>, err: Option<Error>)
      requires Valid()
      requires nextId <= newId
      modifies this
      ensures Valid()
      ensures stamped == login.(uuid := freshUuid, createdAt := Some(now))
      ensures fault.Unbuilt? ==>
                returned == None && err == Some(Store(fault.reason)) && rows == old(rows) && nextId == old(nextId)
      ensures fault.ExecFails? && !fault.applied ==>
                returned == Some(stamped) && err == Some(Store(fault.reason)) && rows == old(rows) && nextId == old(nextId)
      ensures fault.ExecFails? && fault.applied ==>
                returned == Some(stamped) && err == Some(Store(fault.reason)) &&
                rows == old(rows) + [stamped.(id := newId)] && nextId == newId + 1
      ensures !fault.Unbuilt? && !fault.ExecFails? ==>
                returned == Some(stamped) && err.None? &&
                rows == old(rows) + [stamped.(id := newId)] && nextId == newId + 1
    {
      stamped := login.(uuid := freshUuid, createdAt := Some(now));
      if fault.Unbuilt? {
        return stamped, None, Some(Store(fault.reason));
      }
      if fault.ExecFails? && !fault.applied {
        return stamped, Some(stamped), Some(Store(fault.reason));
      }
      rows := rows + [stamped.(id := newId)];
      nextId := newId + 1;
      if fault.ExecFails? {
        return stamped, Some(stamped), Some(Store(fault.reason));
      }
      return stamped, Some(stamped), None;
    }
  }

  // ---------------------------------------------------------------------
  // Properties of lookup, ban and update

  /** An UPDATE that matches no row leaves the table as it was. */
  lemma BanNoMatchIsIdentity(rows: seq<Row>, key: Uuid, now: Time)
    ensures MatchCount(rows, key) == 0 ==> Banned(rows, key, now) == rows
  {
  }

  /** The same for Update's statement. */
  lemma UpdateNoMatchIsIdentity(rows: seq<Row>, rec: Row)
    ensures MatchCount(rows, rec.uuid) == 0 ==> Updated(rows, rec) == rows
  {
  }

  /** Banning twice at the same instant leaves the same table as banning once. */
  lemma {:induction false} BanIdempotent(rows: seq<Row>, key: Uuid, now: Time)
    ensures Banned(Banned(rows, key, now), key, now) == Banned(rows, key, now)
  {
    var once := Banned(rows, key, now);
    var twice := Banned(once, key, now);
    assert forall i :: 0 <= i < |rows| ==> once[i].uuid == rows[i].uuid;
    assert forall i :: 0 <= i < |rows| ==> twice[i] == once[i];
  }

  /** Ban keeps the number of rows, their ids and their uuids. */
  lemma {:induction false} BanKeepsIdentity(rows: seq<Row>, key: Uuid, now: Time)
    ensures MatchCount(Banned(rows, key, now), key) == MatchCount(rows, key)
    ensures forall i :: 0 <= i < |rows| ==>
              Banned(rows, key, now)[i].id == rows[i].id && Banned(rows, key, now)[i].uuid == rows[i].uuid
  {
    MatchCountByUuids(rows, Banned(rows, key, now), key);
  }

  /** The affected-row count depends on the uuid column only. */
  lemma {:induction false} MatchCountByUuids(a: seq<Row>, b: seq<Row>, key: Uuid)
    requires |a| == |b|
    requires forall i :: 0 <= i < |a| ==> a[i].uuid == b[i].uuid
    ensures MatchCount(a, key) == MatchCount(b, key)
  {
    if a != [] {
      assert forall i :: 1 <= i < |a| ==> a[i] == a[1..][i - 1] && b[i] == b[1..][i - 1];
      MatchCountByUuids(a[1..], b[1..], key);
    }
  }

  /**
   * Ban monotonicity: after a ban that affected a row, looking up the
   * uuid finds a banned row stamped with the ban's time.
   */
  lemma FindAfterBan(rows: seq<Row>, key: Uuid, now: Time)
    requires MatchCount(rows, key) > 0
    ensures FirstMatch(Banned(rows, key, now), ByUuid(key)).Ok?
    ensures FirstMatch(Banned(rows, key, now), ByUuid(key)).value.banned
    ensures FirstMatch(Banned(rows, key, now), ByUuid(key)).value.updateAt == Some(now)
  {
  }

  /**
   * Update writes the caller's record to the row its uuid names: a later
   * lookup of that uuid finds the record with the row's own id.
   */
  lemma {:induction false} FindAfterUpdate(rows: seq<Row>, rec: Row)
    requires MatchCount(rows, rec.uuid) > 0
    ensures FirstMatch(Updated(rows, rec), ByUuid(rec.uuid)).Ok?
    ensures FirstMatch(Updated(rows, rec), ByUuid(rec.uuid)).value ==
            rec.(id := FirstMatch(rows, ByUuid(rec.uuid)).value.id)
  {
    var u := Updated(rows, rec);
    if rows[0].uuid != rec.uuid {
      assert u[1..] == Updated(rows[1..], rec);
      FindAfterUpdate(rows[1..], rec);
    }
  }

  /**
   * Not-found symmetry: for a uuid no row carries, lookup reports
   * `RecordNotFound` and Update and BanByUuid affect no row.
   */
  lemma NotFoundSymmetry(rows: seq<Row>, key: Uuid)
    requires forall i :: 0 <= i < |rows| ==> rows[i].uuid != key
    ensures FirstMatch(rows, ByUuid(key)) == Err(RecordNotFound)
    ensures MatchCount(rows, key) == 0
  {
  }

  /** A row inserted under a fresh uuid is what a lookup of that uuid finds. */
  lemma {:induction false} FindAfterInsert(rows: seq<Row>, row: Row)
    requires forall i :: 0 <= i < |rows| ==> rows[i].uuid != row.uuid
    ensures FirstMatch(rows + [row], ByUuid(row.uuid)) == Ok(row)
  {
    if rows != [] {
      assert (rows + [row])[1..] == rows[1..] + [row];
      FindAfterInsert(rows[1..], row);
    }
  }

  /** Inserting a row adds one to the rows its uuid matches. */
  lemma {:induction false} InsertAddsMatch(rows: seq<Row>, row: Row)
    ensures MatchCount(rows + [row], row.uuid) == MatchCount(rows, row.uuid) + 1
  {
    if rows != [] {
      assert (rows + [row])[1..] == rows[1..] + [row];
      InsertAddsMatch(rows[1..], row);
    }
  }

  // ---------------------------------------------------------------------
  // Properties of paging

  /**
   * Page `page` followed by page `page + 1` is the single id window that
   * spans both: consecutive pages neither overlap nor leave a gap.
   */
  lemma ConsecutivePages(rows: seq<Row>, page: nat, limit: nat)
    requires IdsIncreasing(rows)
    ensures Window(rows, page, limit) + Window(rows, page + 1, limit) ==
            Select(rows, WindowLow(page, limit), WindowHigh(page + 1, limit))
  {
    MulMonotone(page, page + 1, limit);
    assert (page + 1 + 1) * limit == (page + 1) * limit + limit;
    SelectSplit(rows, WindowLow(page, limit), WindowHigh(page, limit) - 1, WindowHigh(page + 1, limit));
  }

  /** Windows of distinct pages are disjoint. */
  lemma WindowsDisjoint(rows: seq<Row>, p: nat, q: nat, limit: nat)
    requires p != q
    ensures forall x :: x in Window(rows, p, limit) ==> x !in Window(rows, q, limit)
  {
    if p < q {
      MulMonotone(p + 1, q, limit);
    } else {
      MulMonotone(q + 1, p, limit);
    }
  }

  lemma MulMonotone(a: nat, b: nat, c: nat)
    requires a <= b
    ensures a * c <= b * c
  {
  }

  /** Dropping the last row keeps ids increasing. */
  lemma InitIncreasing(rows: seq<Row>)
    requires IdsIncreasing(rows) && rows != []
    ensures IdsIncreasing(rows[..|rows| - 1])
    ensures forall i :: 0 <= i < |rows| - 1 ==> rows[i].id < rows[|rows| - 1].id
  {
  }

  /** Select keeps the store order, so it keeps ids increasing. */
  lemma {:induction false} SelectIncreasing(rows: seq<Row>, lo: int, hi: int)
    requires IdsIncreasing(rows)
    ensures IdsIncreasing(Select(rows, lo, hi))
  {
    if rows != [] {
      var init := rows[..|rows| - 1];
      var last := rows[|rows| - 1];
      InitIncreasing(rows);
      SelectIncreasing(init, lo, hi);
      SelectMembers(init, lo, hi);
      var s := Select(init, lo, hi);
      if InRange(last, lo, hi) {
        forall i | 0 <= i < |s| ensures s[i].id < last.id {
          assert s[i] in init;
          var k :| 0 <= k < |init| && init[k] == s[i];
          assert rows[k] == s[i];
        }
        var r := s + [last];
        assert Select(rows, lo, hi) == r;
        forall i, j | 0 <= i < j < |r| ensures r[i].id < r[j].id {
          if j < |s| {
            assert r[i] == s[i] && r[j] == s[j];
          } else {
            assert r[i] == s[i];
          }
        }
      } else {
        assert Select(rows, lo, hi) == s;
      }
    }
  }

  /** Rows with strictly increasing ids inside `(lo, hi)` number at most `hi - lo - 1`. */
  lemma {:induction false} IncreasingInRangeBound(s: seq<Row>, lo: int, hi: int)
    requires lo < hi
    requires IdsIncreasing(s)
    requires forall i :: 0 <= i < |s| ==> InRange(s[i], lo, hi)
    ensures |s| <= hi - lo - 1
  {
    if s != [] {
      assert forall i :: 1 <= i < |s| ==> s[i] == s[1..][i - 1];
      IncreasingInRangeBound(s[1..], s[0].id, hi);
    }
  }

  /** With increasing ids (hence unique ones) a page holds at most `limit` rows. */
  lemma PageAtMostLimit(rows: seq<Row>, page: nat, limit: nat)
    requires IdsIncreasing(rows)
    ensures |Window(rows, page, limit)| <= limit
  {
    var w := Window(rows, page, limit);
    SelectIncreasing(rows, WindowLow(page, limit), WindowHigh(page, limit));
    SelectMembers(rows, WindowLow(page, limit), WindowHigh(page, limit));
    assert forall i :: 0 <= i < |w| ==> w[i] in w;
    IncreasingInRangeBound(Window(rows, page, limit), WindowLow(page, limit), WindowHigh(page, limit));
  }

  /** Nothing is selected above a bound that every id stays under. */
  lemma {:induction false} SelectEmptyAbove(rows: seq<Row>, m: int, hi: int)
    requires forall i :: 0 <= i < |rows| ==> rows[i].id <= m
    ensures Select(rows, m, hi) == []
  {
    if rows != [] {
      SelectEmptyAbove(rows[..|rows| - 1], m, hi);
    }
  }

  /** With increasing ids, `(lo, m]` followed by `(m, hi)` is `(lo, hi)`. */
  lemma {:induction false} SelectSplit(rows: seq<Row>, lo: int, m: int, hi: int)
    requires IdsIncreasing(rows)
    requires lo <= m < hi
    ensures Select(rows, lo, m + 1) + Select(rows, m, hi) == Select(rows, lo, hi)
  {
    if rows != [] {
      var init := rows[..|rows| - 1];
      var last := rows[|rows| - 1];
      InitIncreasing(rows);
      SelectSplit(init, lo, m, hi);
      var a, b, c := Select(init, lo, m + 1), Select(init, m, hi), Select(init, lo, hi);
      assert a + b == c;
      var tail := if InRange(last, lo, hi) then [last] else [];
      assert Select(rows, lo, hi) == c + tail;
      if last.id <= m {
        SelectEmptyAbove(init, m, hi);
        assert Select(rows, lo, m + 1) == a + tail;
        assert Select(rows, m, hi) == b + [];
      } else {
        assert Select(rows, lo, m + 1) == a + [];
        assert Select(rows, m, hi) == b + tail;
        assert a + (b + tail) == (a + b) + tail;
      }
    }
  }

  /** Pages `0 .. n-1` joined are the rows with ids in `[1, n * limit]`, in store order. */
  lemma {:induction false} ListingIsPrefix(rows: seq<Row>, n: nat, limit: nat)
    requires IdsIncreasing(rows)
    ensures Listing(rows, n, limit) == Select(rows, 0, n * limit + 1)
  {
    if n == 0 {
      SelectEmptyAboveZero(rows);
    } else {
      ListingIsPrefix(rows, n - 1, limit);
      assert Listing(rows, n, limit) == Listing(rows, n - 1, limit) + Window(rows, n - 1, limit);
      assert Window(rows, n - 1, limit) == Select(rows, (n - 1) * limit, n * limit + 1);
      assert n * limit == (n - 1) * limit + limit;
      SelectSplit(rows, 0, (n - 1) * limit, n * limit + 1);
    }
  }

  /** Rows with ids of at least 1 are never above the bound 0 and below 1. */
  lemma {:induction false} SelectEmptyAboveZero(rows: seq<Row>)
    ensures Select(rows, 0, 1) == []
  {
    if rows != [] {
      SelectEmptyAboveZero(rows[..|rows| - 1]);
    }
  }

  /** A window holding every id selects the whole table. */
  lemma {:induction false} SelectAll(rows: seq<Row>, lo: int, hi: int)
    requires forall i :: 0 <= i < |rows| ==> InRange(rows[i], lo, hi)
    ensures Select(rows, lo, hi) == rows
  {
    if rows != [] {
      SelectAll(rows[..|rows| - 1], lo, hi);
      assert rows[..|rows| - 1] + [rows[|rows| - 1]] == rows;
    }
  }

  /**
   * Pagination completeness: on a valid table whose ids are all at most
   * `n * limit`, pages `0 .. n-1` joined give every row exactly once, in
   * store order, their total length is the count, and page `n` is `io.EOF`.
   */
  lemma PaginationComplete(rows: seq<Row>, n: nat, limit: nat)
    requires IdsIncreasing(rows)
    requires forall i :: 0 <= i < |rows| ==> 1 <= rows[i].id <= n * limit
    ensures Listing(rows, n, limit) == rows
    ensures |Listing(rows, n, limit)| == |rows|
    ensures PageResult(rows, n, limit) == Err(EndOfPage)
  {
    ListingIsPrefix(rows, n, limit);
    SelectAll(rows, 0, n * limit + 1);
    MulMonotone(n, n, limit);
    SelectEmptyAbove(rows, WindowLow(n, limit), WindowHigh(n, limit));
  }

  /**
   * An id gap can swallow a whole page: with rows of ids 1 and
   * `2 * limit + 1`, page 1 is `io.EOF` although page 2 still holds a row,
   * so paging until the first empty page misses rows.
   */
  lemma GapPageIsEmpty(a: Row, b: Row, limit: nat)
    requires limit >= 1
    requires a.id == 1 && b.id == 2 * limit + 1
    ensures PageResult([a, b], 1, limit) == Err(EndOfPage)
    ensures PageResult([a, b], 2, limit) == Ok([b])
  {
    assert [a, b][..1] == [a] && [a][..0] == [];
    assert Select([a], limit, 2 * limit + 1) == [];
    assert Select([a, b], limit, 2 * limit + 1) == [];
    assert (2 + 1) * limit + 1 == 3 * limit + 1;
    assert Select([a], 2 * limit, 3 * limit + 1) == [];
    assert Select([a, b], 2 * limit, 3 * limit + 1) == [b];
  }

  /** Three rows with ids 1, 2 and 3 and a limit of 2: page 0 holds the first two, page 1 the third, page 2 none. */
  lemma ThreeRowsPaging(alice: Row, bob: Row, carol: Row)
    requires alice.id == 1 && bob.id == 2 && carol.id == 3
    ensures PageResult([alice, bob, carol], 0, 2) == Ok([alice, bob])
    ensures PageResult([alice, bob, carol], 1, 2) == Ok([carol])
    ensures PageResult([alice, bob, carol], 2, 2) == Err(EndOfPage)
  {
    var t := [alice, bob, carol];
    assert t[..2] == [alice, bob] && [alice, bob][..1] == [alice] && [alice][..0] == [];
    assert Select([alice], 0, 3) == [alice] && Select([alice], 2, 5) == [] && Select([alice], 4, 7) == [];
    assert Select([alice, bob], 0, 3) == [alice, bob];
    assert Select([alice, bob], 2, 5) == [] && Select([alice, bob], 4, 7) == [];
    assert Select(t, 0, 3) == [alice, bob];
    assert Select(t, 2, 5) == [carol];
    assert Select(t, 4, 7) == [];
  }

  /**
   * Three logins inserted into an empty repository under ids 1, 2 and 3,
   * then paged with a limit of 2: page 0 holds the first two logins,
   * page 1 the third, page 2 is `io.EOF`, and Count reports 3.
   */
  method ThreeLoginsScenario(alice: Row, bob: Row, carol: Row, u1: Uuid, u2: Uuid, u3: Uuid, now: Time)
    returns (first: Result<seq<Row>>, second: Result<seq<Row>>, third: Result<seq<Row>>, count: Result<nat>)
    ensures first.Ok? && |first.value| == 2
    ensures first.value[0].login == alice.login && first.value[0].uuid == u1
    ensures first.value[1].login == bob.login && first.value[1].uuid == u2
    ensures second.Ok? && |second.value| == 1
    ensures second.value[0].login == carol.login && second.value[0].uuid == u3
    ensures third == Err(EndOfPage)
    ensures count == Ok(3)
  {
    var repository := new SqlRepository();
    var a, _, _ := repository.Insert(alice, u1, 1, now, WriteClean);
    var b, _, _ := repository.Insert(bob, u2, 2, now, WriteClean);
    var c, _, _ := repository.Insert(carol, u3, 3, now, WriteClean);
    assert repository.rows == [a.(id := 1), b.(id := 2), c.(id := 3)];
    ThreeRowsPaging(a.(id := 1), b.(id := 2), c.(id := 3));
    first := repository.Page(0, 2, ReadClean);
    second := repository.Page(1, 2, ReadClean);
    third := repository.Page(2, 2, ReadClean);
    count := repository.Count(ReadClean);
  }
}
