# Logins directory service: repository and v1 handler decisions

This project models the data-access core of the logins service and the decision logic of
its v1 HTTP layer, and proves properties of the model.

- `records.dfy` (module `Records`): the stored login row (`id`, `uuid`, `login`, `banned`,
  `createdAt`, `updateAt`), Go's 64-bit `uint`, and the error taxonomy: `RecordNotFound`,
  `EndOfPage` (the `io.EOF` sentinel of an empty page) and `Store` (any SQL driver error).
- `repository.dfy` (module `Repository`): the `sql` repository as a class over the `logins`
  table, a sequence of rows in store order, with an auto-increment counter for `id`. Find by
  uuid or login returns the first matching row. BanByUuid and Update rewrite the matching rows
  and report not-found when none was affected. Count counts the rows. Page reads the id window
  `page*limit < id < (page+1)*limit + 1` off the cursor in a loop and turns an empty page into
  `io.EOF`. Insert assigns a fresh uuid and `created_at` and appends the row. Each statement's
  effect is a function on the row sequence, and what each call returns under each driver
  failure is a function too (`LookupOutcome`, `CountOutcome`, `PageOutcome`). The lemmas cover
  not-found symmetry, ban idempotence and monotonicity, lookups after insert, update and ban,
  and the window arithmetic: consecutive windows join without gap or overlap, windows are
  disjoint, a page holds at most `limit` rows, and pages `0..n-1` joined give every row once
  and in order.
- `middlewares.dfy` (module `Middlewares`): the request-parameter middlewares as pure
  functions returning "next handler with this value" or "400". The precedence is query, then
  header, then default. An unparseable value is rejected, page 0 becomes `PageDefault` and
  limit 0 becomes `LimitDefault = 20`.
- `api.dfy` (module `Api`): the v1 handlers. Each one calls the repository and maps
  `RecordNotFound` to 404 and any other error to 500; Add maps every Insert error to 500. The
  Page handler asks for zero-based page `page - 1`, joins Count and Page, treats `io.EOF` as
  an empty listing, and copies the page into the response one index at a time.

The clock (`time.NowUTC`), the UUID generator (`uuid.New`) and the id the store's
auto-increment hands to an inserted row are method parameters (`now`, `freshUuid`, `newId`).
Where the SQL driver fails is the parameter `fault`, staged as the code observes it:

- A read (lookup, Count, Page) takes a `ReadFault`. `Refused` is an error from building the
  statement or from `QueryContext`. `ScanFails(k, _)` is a failing `rows.Scan` on result row
  `k`. `CursorStops(k)` is a cursor that fails after `k` rows, so that `rows.Next` reports
  false.
- A write takes a `WriteFault`. `Unbuilt` is an error from building the statement, so nothing
  is sent. `ExecFails(_, applied)` is an error from `ExecContext`. The code cannot tell
  whether the store applied the statement, since a deadline or a dropped connection can report
  an error after the commit, so `applied` says which happened. `AffectedFails` is an error
  from `RowsAffected`, after the statement was applied.

The number parser `cast.ToUintE` and the UUID parser `uuid.Parse` are function parameters,
and nothing is assumed about the text they accept. `PageDefault` is used at
`interface/http/api/v1/middlewares.go:68` and by the router, but unlike `LimitDefault` it is
not defined in `interface/http/api/v1/params.go:3-15`, so it is a parameter
`pageDefault >= 1`.

The source is mid-refactor and names the ban flag in several ways. The repository record
calls it `Ban` with column tag `"ban"` (`infrastructure/repository/model.go:12`). The scans
write `Banned` (`infrastructure/repository/sql.go:80`, `:186`). BanByUuid sets the column
`"banned"` (`infrastructure/repository/sql.go:100`). The v1 wire type has `Banned *bool` while
the handlers fill `Ban`. The model has one flag, `banned`.

The code behaves as follows in places where a reader might expect otherwise; the model
states each behaviour as written:
- Page selects an id range, not an offset, and has no ORDER BY. Rows come in store order, and
  a gap in the ids gives a short page. When a whole window falls inside a gap, that page is
  `io.EOF`, and the handler answers 200 with an empty listing, although later pages still
  hold rows. A client that pages until the first empty listing then misses rows
  (`Repository.GapPageIsEmpty`). The model's table keeps insertion order, and `Valid()`
  states that ids increase along it.
- Update writes every mapped column, `created_at` included, from the caller's record. So a
  caller who does not round-trip a stored record overwrites `created_at` (`Repository.Updated`).
- BanByUuid's UPDATE affects every row with the uuid, and a lookup returns the first match.
  Uniqueness of uuid and login is not checked by the code and is not assumed.
- BanByUuid and Update report the driver's error when `RowsAffected` fails, although their
  statement was already applied: the rows are banned or updated and the handler answers 500.
- No read asks `rows.Err()`. A cursor that fails before the first row makes a lookup report
  `RecordNotFound`, so the handler answers 404 for a row that exists. It makes Count answer
  0 with no error. It makes Page return the rows read so far as if they were the whole page,
  or `io.EOF` when there are none (`Repository.LookupOutcome`, `Repository.CountOutcome`,
  `Repository.PageOutcome`).
- Insert returns no record when its statement cannot be built. When the store rejects the
  statement, it returns the caller's record together with the error.
- Add answers 500 for every Insert error, including a duplicate login. There is no
  client-error path.
- The Page join reports whichever task failed first. If Page's `io.EOF` is recorded before
  Count's error, the Count failure is hidden, and the answer is 200 with count 0
  (`Api.CountErrorMaskedByEmptyPage`).

## Model

| member | source | states |
|---|---|---|
| Repository.FirstMatch | infrastructure/repository/sql.go:62-88 | a lookup returns a matching row with no matching row before it in store order, and RecordNotFound exactly when no row matches |
| Repository.LookupOutcome | infrastructure/repository/sql.go:62-88 | under a driver fault a lookup still returns only the true first match; it is RecordNotFound exactly when the cursor fails before the first row or, short of a refused query, no row matches; it is a driver error exactly for a refused query or a failed scan of an existing first row |
| Repository.MatchCount | infrastructure/repository/sql.go:111-118 | the affected-row count is zero exactly when no row carries the uuid, and never exceeds the table size |
| Repository.Banned | infrastructure/repository/sql.go:99-101 | after the ban statement every row with the uuid is banned and stamped with now; every other row is unchanged; the row count is kept |
| Repository.Updated | infrastructure/repository/sql.go:212 | after Update's statement every row with the record's uuid holds the record's columns and keeps its own id; every other row is unchanged |
| Repository.CountOutcome | infrastructure/repository/sql.go:131-153 | Count fails exactly for a refused query or a failed scan of the single COUNT row; otherwise it is the number of rows, or 0 when the cursor fails before that row |
| Repository.Select | infrastructure/repository/sql.go:166-169 | the WHERE clause yields only rows with lo < id < hi, and no more rows than the table has |
| Repository.Window | infrastructure/repository/sql.go:166-169 | a row is on page p of size L exactly when it is in the table and its id is in [p*L+1, (p+1)*L] |
| Repository.PageResult | infrastructure/repository/sql.go:193-197 | Page answers io.EOF exactly when its window holds no row, and otherwise the window's rows |
| Repository.PageOutcome | infrastructure/repository/sql.go:166-197 | without a fault it is PageResult; any rows it returns are a non-empty prefix of the window, the whole window unless the cursor failed; a driver error exactly for a refused query or a failed scan of a window row; io.EOF exactly when the window is empty or the cursor fails before the first row |
| Repository.SqlRepository.Find | infrastructure/repository/sql.go:62-88 | the scan returns what LookupOutcome says for the table, the key and the fault |
| Repository.SqlRepository.FindByUuid | infrastructure/repository/sql.go:28-43 | returns a table row carrying the uuid; without a fault RecordNotFound exactly when no row carries it; a driver error exactly for a refused query or a failed first scan of an existing row; RecordNotFound when the cursor fails at once |
| Repository.SqlRepository.FindByLogin | infrastructure/repository/sql.go:45-60 | returns a table row carrying the login; without a fault RecordNotFound exactly when no row carries it; a driver error exactly for a refused query or a failed first scan of an existing row; RecordNotFound when the cursor fails at once |
| Repository.SqlRepository.BanByUuid | infrastructure/repository/sql.go:90-121 | (true, nil) and every matching row banned and stamped when a row is affected; (false, RecordNotFound) and the table unchanged when none is; (false, driver error) with the table unchanged when the statement fails to build or is not applied, and with the rows banned when ExecContext errs after the store applied it or the affected-row count fails |
| Repository.SqlRepository.Count | infrastructure/repository/sql.go:123-154 | returns what CountOutcome says for the table and the fault |
| Repository.SqlRepository.Page | infrastructure/repository/sql.go:156-198 | the cursor loop returns what PageOutcome says for the table, the page, the limit and the fault, and never more than limit rows on a valid table |
| Repository.SqlRepository.Update | infrastructure/repository/sql.go:200-227 | stamps the caller's record with now; on a clean run writes it to every row with its uuid and returns it, or RecordNotFound and the table unchanged when no row is affected; a build failure is a driver error with the table unchanged; a failed affected-row count is a driver error after the rows were written |
| Repository.SqlRepository.Insert | infrastructure/repository/sql.go:229-252 | the caller's record gets a fresh uuid and created_at = now; a build failure returns no record and changes nothing; an ExecContext error returns the record with the error, with the table unchanged when the store did not apply the insert and the row appended under the store's new id when it did; otherwise the record is returned and appended with the store's new id, and ids stay increasing |
| Repository.BanNoMatchIsIdentity | infrastructure/repository/sql.go:116-118 | a ban statement that affects no row leaves the table as it was |
| Repository.UpdateNoMatchIsIdentity | infrastructure/repository/sql.go:222-223 | an update statement that affects no row leaves the table as it was |
| Repository.BanIdempotent | infrastructure/repository/sql.go:99-101 | banning again at the same instant leaves the same table |
| Repository.BanKeepsIdentity | infrastructure/repository/sql.go:99-101 | a ban keeps every row's id and uuid, so a repeated ban affects the same rows and succeeds again |
| Repository.FindAfterBan | infrastructure/repository/sql.go:99-101 | after a ban that affected a row, a lookup of the uuid finds a banned row whose update_at is the ban's time |
| Repository.FindAfterUpdate | infrastructure/repository/sql.go:209-212 | after an update that affected a row, a lookup of the uuid finds the caller's record with the first matching row's id |
| Repository.NotFoundSymmetry | infrastructure/repository/sql.go:77-88 | for a uuid no row carries, lookup is RecordNotFound and ban and update affect no row |
| Repository.FindAfterInsert | infrastructure/repository/sql.go:238-249 | a row appended under a uuid no other row carries is what a lookup of that uuid returns |
| Repository.InsertAddsMatch | infrastructure/repository/sql.go:243-249 | appending a row adds exactly one to the rows its uuid matches |
| Repository.SelectMembers | infrastructure/repository/sql.go:166-169 | the WHERE clause selects exactly the table rows with lo < id < hi |
| Repository.ConsecutivePages | infrastructure/repository/sql.go:166-169 | with increasing ids, page p followed by page p+1 is exactly the rows of the window spanning both: no gap and no overlap |
| Repository.WindowsDisjoint | infrastructure/repository/sql.go:167-168 | no row lies on two different pages |
| Repository.PageAtMostLimit | infrastructure/repository/sql.go:166-169 | with increasing (hence unique) ids a page holds at most limit rows |
| Repository.ListingIsPrefix | infrastructure/repository/sql.go:166-191 | with increasing ids, pages 0..n-1 joined are the rows with ids in [1, n*limit], in store order |
| Repository.PaginationComplete | infrastructure/repository/sql.go:166-197 | when every id is in [1, n*limit], pages 0..n-1 joined are the whole table in order, as many rows as the count, and page n is io.EOF |
| Repository.GapPageIsEmpty | infrastructure/repository/sql.go:166-197 | with rows of ids 1 and 2*limit+1, page 1 is io.EOF while page 2 holds the second row: an id gap can empty a page in the middle of the table |
| Repository.ThreeRowsPaging | infrastructure/repository/sql.go:166-197 | with ids 1, 2, 3 and limit 2, page 0 is the first two rows, page 1 the third, page 2 io.EOF |
| Repository.ThreeLoginsScenario | infrastructure/repository/sql.go:123-252 | three logins inserted into an empty repository and paged with limit 2 through the repository's own methods: page 0 holds the first two, page 1 the third, page 2 is io.EOF, and Count is 3 |
| Middlewares.Pick | interface/http/api/v1/middlewares.go:51-59 | a non-empty query value wins, else a non-empty header value, else the default |
| Middlewares.UuidField | interface/http/api/v1/middlewares.go:20-33 | 400 exactly when the uuid parser rejects the path segment, otherwise the parsed uuid |
| Middlewares.LoginField | interface/http/api/v1/middlewares.go:35-47 | 400 exactly for an empty login segment, otherwise the segment unchanged |
| Middlewares.PageField | interface/http/api/v1/middlewares.go:49-74 | 400 exactly when the chosen value does not parse; otherwise the page is at least 1: the parsed value, or pageDefault for 0 |
| Middlewares.LimitField | interface/http/api/v1/middlewares.go:76-101 | 400 exactly when the chosen value does not parse; otherwise the limit is at least 1: the parsed value, or 20 for 0 |
| Middlewares.QueryOverridesHeader | interface/http/api/v1/middlewares.go:53-59 | with a non-empty query value the header does not affect page or limit |
| Middlewares.LimitDefaultsTo20 | interface/http/api/v1/middlewares.go:78-97 | without query and header the limit is LimitDefault = 20 when "0" parses as 0 |
| Middlewares.PageDefaultsToFirst | interface/http/api/v1/middlewares.go:51-69 | without query and header the page is 1 when "1" parses as 1 |
| Api.ErrorStatus | interface/http/api/v1/api.go:106-114 | RecordNotFound is 404, every other error 500 |
| Api.LookupResponse | interface/http/api/v1/api.go:141-168 | a found row is 200 with its wire form; an error is its ErrorStatus with no body |
| Api.Join | interface/http/api/v1/api.go:234-250 | the join fails exactly when a task failed, with the only error, or with the first one recorded when both failed |
| Api.Views | interface/http/api/v1/api.go:255-264 | the wire records have the page's length and order, one per row |
| Api.PageResponse | interface/http/api/v1/api.go:250-283 | the Page answer is 200 or 500; 500 with no body exactly when the join reports an error other than io.EOF; a 200 is a listing whose meta is also set as the pagination headers |
| Api.Handlers.Add | interface/http/api/v1/api.go:33-80 | unreadable body 500, undecodable body 400, any Insert error 500, with the table and the id counter unchanged unless ExecContext erred after the store applied the insert, in which case the row is appended and the counter passes the new id; otherwise 200 with the inserted record (fresh uuid, created_at = now) appended to the table under the store's new id, which the counter then passes |
| Api.Handlers.UpdateByUuid | interface/http/api/v1/api.go:82-134 | unreadable body 500, undecodable 400; with the path's uuid, 404 and no change when no row matches, else 200 with the stamped record written to the matching rows; 500 on a store error, after the write when only the affected-row count failed; the id counter is never changed |
| Api.Handlers.FindByUuid | interface/http/api/v1/api.go:136-169 | 404 exactly when the cursor fails at once or, short of a refused query, no row carries the uuid; 500 exactly for a refused query or a failed scan of an existing row; 200 with a row carrying the uuid otherwise |
| Api.Handlers.BanByUuid | interface/http/api/v1/api.go:171-187 | 200 and the rows banned when one matched, 404 and no change when none did, 500 on a store error, with the rows banned when ExecContext erred after the store applied the statement or only the affected-row count failed; the id counter is never changed |
| Api.Handlers.FindByLogin | interface/http/api/v1/api.go:189-222 | 404 exactly when the cursor fails at once or, short of a refused query, no row carries the login; 500 exactly for a refused query or a failed scan of an existing row; 200 with a row carrying the login otherwise |
| Api.Handlers.Count | interface/http/api/v1/api.go:290-305 | 500 when Count fails, else 200 with its value: the number of rows without a fault, 0 when the cursor fails at once |
| Api.Handlers.Page | interface/http/api/v1/api.go:224-288 | the answer is the join of Count and the repository's page page-1, with the rows copied into the listing in order; a 200 listing holds at most limit records, each the wire form of a table row whose id lies on API page page |
| Api.EmptyPageIsEmptyListing | interface/http/api/v1/api.go:250-264 | io.EOF from Page with a successful Count is 200 with an empty record list and the count |
| Api.PageFailureIs500 | interface/http/api/v1/api.go:250-253 | a Page error other than io.EOF is 500 whatever Count returned and whichever task failed first |
| Api.CountErrorMaskedByEmptyPage | interface/http/api/v1/api.go:234-253 | a Count error is hidden (200, count 0) when io.EOF is recorded first, and is 500 when it is recorded first itself |
| Api.ListingEchoesRequest | interface/http/api/v1/api.go:266-282 | a 200 listing carries the 1-based page, the limit and the count in meta and in the pagination headers, with the page's rows in order |
| Api.ApiPageWindow | interface/http/api/v1/api.go:244-264 | every record of a 200 listing for API page n is the wire form of a table row with id in [(n-1)*limit+1, n*limit], whatever Count returned and whatever the cursor did |
| Api.LookupStatuses | interface/http/api/v1/api.go:194-202 | a lookup handler answers only 200, 404 or 500 |

## Left out

- SQL text generation (goqu `ToSQL`) and the driver calls (`QueryContext`, `ExecContext`, `RowsAffected`, `Scan`, `Next`). The table is a sequence of rows, and a driver failure is the staged `fault` parameter: its error text is a parameter, and no query text is produced.
- Repository.SqlRepository.Update and Api.Handlers.UpdateByUuid: require that `ExecContext` does not fail. The source discards Exec's error (`infrastructure/repository/sql.go:218`) and calls `RowsAffected` on the result, which is nil after a failed Exec, so that call panics instead of returning.
- Rows affected are taken to be the rows matched. Both BanByUuid and Update always write a new `update_at`, so the two agree unless the clock repeats an instant.
- Repository.SqlRepository.Page and Api.Handlers.Page: Go's wrapping `uint` arithmetic in `page*limit`, `(page+1)*limit+1` and `page-1` is replaced by the precondition that the bounds do not wrap (`NoWrap`, `page >= 1`). They also require the repository invariant `Valid()` (ids increasing), which is what bounds a page by `limit`.
- Insert and Update write through the caller's `*Login` pointer. The model returns the updated record as a value, so aliasing of that pointer by the caller is not captured.
- Repository.SqlRepository.Insert: the store's id assignment is the parameter `newId`, at least the counter. Which value a failed insert consumes is not modelled; a later `newId` may skip any number of values.
- The concurrency of the Page handler's errgroup: the two tasks run one after the other. The scheduling parameter `countFirst` decides which error the join reports when both fail.
- Login and uuid uniqueness and any other constraint violation: the schema is not part of this model. A store rejection is the `ExecFails` fault of Insert with `applied` false.
- Tracing spans and attributes, logging, JSON encoding and response writing (a failed `json.Marshal` or `Write`), and the wire JSON tags.
- The router (`interface/http/api/api.go`) uses other middlewares and passes the page header for the limit. The server lifecycle, the CLI and migrations, and the dependency container are not part of this model.
