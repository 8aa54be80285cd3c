# Infopanel backend: the event import, the event store and the request checks

The infopanel backend serves a school's timetable events (lessons, with room,
class, subject, teacher, department and building) to display panels. Its data
comes from a CSV export that is imported into a SurrealDB table of events.
This project models the logic that surrounds that table:

- **The CSV import** (`CSVParser`, module `CsvParse`). A parser object loads
  the decoded export, drops CR and LF inside double quotes, and then reads
  every data row into an `Event`. The twelve positional fields are two dates,
  a weekday, two times, six text columns and the id. Every row parses, or the
  whole parse fails.
- **The export format** (module `CsvRoundTrip`). A renderer writes events the
  way the export does: quoted fields, `;` between fields, CR LF between rows,
  a header line. The import turns such a file back into exactly the events it
  was made from.
- **The event table** (class `EventStore.EventTable`). It is a map from event
  id to event. Its methods are the store functions: select by id,
  check-then-create, delete, purge, the listing sorted by start time, and the
  bulk insert. Every database request can fail; which request of a call
  fails, if any, is an explicit `Fault` parameter of that call.
- **The stable sort** that `get_all_events` applies (module `Sorting`). It is
  an insertion sort over an array, proved equal to a functional
  specification. The specification is proved sorted, a permutation, and
  stable.
- **The database refresh** (`update_db`, module `Reconcile`). It reads,
  parses, purges and re-inserts, and reports which stage stopped the run.
  The function `Reconcile.Sync` states its outcome.
- **The read-side filters** (module `Filters`). These are the conjunctive
  optional equality filter and the inclusive time window. Both are written
  once as the source's step-by-step narrowing and once as a direct selection,
  and the two are proved equal.
- **The handlers** of both web generations. `ApiEvent` covers the actix
  handlers with `EventError` and its status codes. `EventRoutes` covers the
  older handlers with fixed status and text answers.
- **Authentication** (module `MwAuth`). This covers the `user-<id>.<exp>.<sign>`
  token grammar, the context resolver with its cookie-removal rule, the gate
  that requires a context, and the extractor.
- **The axum error type** (module `Errors`). It maps each error to its client
  status, converts store errors, and builds the placeholder response.

Shared vocabulary sits in `Basics` (options, results, `u64`), `Types` (dates,
times, `Event`), `Text` (splitting, joining, quote removal, UTF-8 byte length,
decimal digits) and `ChronoParse` (the date and time formats `%d.%m.%Y` and
`%H:%M`).

## Model

| member | source | states |
|---|---|---|
| Types.DaysInMonth | src/csv_parse.rs:84-85 | month lengths lie between 28 and 31; February has 29 days exactly in leap years |
| Types.AtOrBeforeTotal | src/util/db_interactions.rs:217 | the start-time order used as sort key is total and antisymmetric |
| Types.AtOrBeforeTransitive | src/util/db_interactions.rs:217 | the start-time order is transitive |
| Text.SplitAtRoundTrip | src/csv_parse.rs:82 | splitting at `;` is undone by joining with `;`, and no piece contains `;` |
| Text.SplitLinesRoundTrip | src/csv_parse.rs:78 | splitting at CR LF is undone by joining with CR LF, and no line still holds CR LF |
| Text.RemoveChar | src/csv_parse.rs:81 | `replace("\"", "")` leaves no quote and never lengthens the line |
| Text.Utf8Len | src/csv_parse.rs:80 | `len()` is a UTF-8 byte count, between the character count and four times it |
| Text.DecimalRoundTrip | src/web/mw_auth.rs:68-72 | rendering a parsed digit run drops exactly its leading zeros; parsing a rendering gives the number back |
| Text.ParseU64OfDecimal | src/csv_parse.rs:95 | every `u64` is read back by `parse::<u64>()` from its decimal rendering, with or without a leading `+` |
| ChronoParse.ParseDate | src/csv_parse.rs:84-85 | an accepted `%d.%m.%Y` date is a day that exists in the calendar |
| ChronoParse.ParseTime | src/csv_parse.rs:87-88 | an accepted `%H:%M` time is a valid time of day with zero seconds |
| ChronoParse.PaddedValue | src/csv_parse.rs:84-88 | a zero-padded rendering of a number denotes that number |
| ChronoParse.ParseFormatDate | src/csv_parse.rs:84-85 | every valid date with a year of at most four digits parses back from its `dd.mm.yyyy` rendering |
| ChronoParse.ParseFormatTime | src/csv_parse.rs:87-88 | every valid time with zero seconds parses back from its `hh:mm` rendering |
| CsvParse.EraseBreaks | src/csv_parse.rs:60-61 | the reference for "CR/LF dropped": the result holds no CR and no LF |
| CsvParse.CleanedHasNoQuotedBreaks | src/csv_parse.rs:54-63 | after cleaning, no CR or LF is left inside double quotes |
| CsvParse.CleanedKeepsBreakFree | src/csv_parse.rs:54-63 | cleaning leaves a text without quoted line breaks unchanged |
| CsvParse.CleanedFixpoints | src/csv_parse.rs:54-63 | cleaning changes a text exactly when it has quoted line breaks, and cleaning is idempotent |
| CsvParse.CleanedOnlyDropsBreaks | src/csv_parse.rs:54-63 | once all CR/LF are erased, input and output agree: the scan drops only line breaks and keeps the order of the rest |
| CsvParse.CleanedExample | src/csv_parse.rs:49-64 | a title broken across lines inside quotes is joined, and the row separator outside quotes is kept |
| CsvParse.CleanLineBreaks | src/csv_parse.rs:51-64 | the cleaning loop computes the quote-toggle scan started outside quotes |
| CsvParse.ParseRowCharacterised | src/csv_parse.rs:81-110 | a row yields an event exactly when its dates, times and id fields are well formed; the event carries exactly fields 0-1 and 3-11, `visible = true`, no modification time and no modifier |
| CsvParse.ParseRowIgnoresUnusedFields | src/csv_parse.rs:86 | the weekday field and every field after the twelfth never change the result |
| CsvParse.LongLinesSnoc | src/csv_parse.rs:80 | the byte-length filter keeps exactly the lines longer than one byte, in order |
| CsvParse.DataRowsSkipHeader | src/csv_parse.rs:78-80 | the parsed rows are the lines after the header that are longer than one byte |
| CsvParse.AllOrNothingSnoc | src/csv_parse.rs:84-97 | the row loop stops at the first failing row, and otherwise appends that row's event |
| CsvParse.AllOrNothingCharacterised | src/csv_parse.rs:78-114 | the parse succeeds exactly when every row parses, and then event `i` is the parse of row `i` |
| CsvParse.AllOrNothingFailurePersists | src/csv_parse.rs:84-95 | once a prefix of the rows fails, the whole parse fails with that error |
| CsvParse.ParseRowsSnoc | src/csv_parse.rs:84-110 | the row-level loop step for the event parser |
| CsvParse.ParseRowsAllOrNothing | src/csv_parse.rs:78-114 | every data row yields exactly one event, in source order, or the parse fails |
| CsvParse.ParseRowsFailurePersists | src/csv_parse.rs:84-95 | a failing row decides the outcome whatever follows it |
| CsvParse.DataRowsPrefix | src/csv_parse.rs:78-80 | the data rows of a prefix of the lines are a prefix of the data rows |
| CsvParse.DataRowsStep | src/csv_parse.rs:78-80 | line `idx` adds one data row exactly when it is not the header and is longer than one byte |
| CsvParse.ParseLinesStep | src/csv_parse.rs:78-111 | one iteration of the line loop either skips the line, appends its event, or fixes the final error |
| CsvParse.ParseLines | src/csv_parse.rs:75-114 | the line loop computes the all-or-nothing parse of the data rows |
| CsvParse.CsvParser.constructor | src/csv_parse.rs:17-24 | a new parser holds its label and path, and neither text nor events |
| CsvParse.CsvParser.ReadFile | src/csv_parse.rs:40-71 | an unreadable file is an I/O error; an unknown label is "Invalid encoding specified." with `contents` unchanged; otherwise `contents` is the cleaned text |
| CsvParse.CsvParser.ParseContents | src/csv_parse.rs:74-120 | no text gives "No text loaded."; a failing row leaves `parsed_events` unchanged; otherwise `parsed_events` is the events of all data rows |
| CsvParse.FailedFirstParse | src/csv_parse.rs:31-37 | after a first parse that fails, because the file is unreadable or a row does not parse, `get_events` is still `None`; after one that succeeds, it is the parsed events |
| CsvRoundTrip.Quoted | src/csv_parse.rs:81 | quoting keeps one field per input field |
| CsvRoundTrip.RemoveCharConcat | src/csv_parse.rs:81 | quote removal distributes over concatenation |
| CsvRoundTrip.RemoveCharAbsent | src/csv_parse.rs:81 | quote removal leaves quote-free text unchanged |
| CsvRoundTrip.RemoveQuotesJoin | src/csv_parse.rs:81 | removing the quotes of a quoted `;`-joined row gives the plain `;`-joined fields |
| CsvRoundTrip.SplitJoin | src/csv_parse.rs:82 | splitting at a separator recovers the pieces it joined when no piece holds it |
| CsvRoundTrip.SplitLinesJoin | src/csv_parse.rs:78 | splitting at CR LF recovers lines joined with CR LF when no line holds CR LF |
| CsvRoundTrip.ScanConcat | src/csv_parse.rs:54-63 | the quote state and the "no quoted breaks" check compose over concatenation |
| CsvRoundTrip.SettledConcat | src/csv_parse.rs:56-59 | texts with balanced quotes concatenate to a text with balanced quotes |
| CsvRoundTrip.QuoteSettled | src/csv_parse.rs:56-61 | a quoted field with no line break has balanced quotes and no quoted break |
| CsvRoundTrip.JoinSettled | src/csv_parse.rs:56-61 | joining balanced pieces with a balanced separator stays balanced |
| CsvRoundTrip.JoinNoBreaks | src/csv_parse.rs:60-61 | joining break-free pieces with a break-free separator is break-free |
| CsvRoundTrip.QuotedMembers | src/csv_parse.rs:81-82 | every quoted plain field is at least two characters long, balanced, and break-free |
| CsvRoundTrip.FormattedArePlain | src/csv_parse.rs:84-95 | the rendered dates, times and id of an exportable event contain no separator, quote or break |
| CsvRoundTrip.FieldsOfRenderRow | src/csv_parse.rs:81-82 | removing quotes and splitting a rendered row gives back exactly the rendered fields |
| CsvRoundTrip.RenderRowShape | src/csv_parse.rs:80 | a rendered row has no line break, balanced quotes, and more than one byte |
| CsvRoundTrip.ParseFieldsOfParts | src/csv_parse.rs:84-110 | fields that parse to an event's dates, times and id, and equal its text columns, give exactly that event |
| CsvRoundTrip.ParseRowFields | src/csv_parse.rs:84-110 | the positional reading of an exportable event's rendered fields gives that event |
| CsvRoundTrip.RowFieldsAre | src/csv_parse.rs:84-95 | the export puts the dates, times, text columns and id at the positions the import reads |
| CsvRoundTrip.ParseRenderRow | src/csv_parse.rs:81-110 | an exportable event's rendered row parses back to that event |
| CsvRoundTrip.LongLinesAllLong | src/csv_parse.rs:80 | lines of at least two characters all pass the byte-length filter |
| CsvRoundTrip.ParseRowsOf | src/csv_parse.rs:78-114 | rows that each parse to their event parse together to all of them, in order |
| CsvRoundTrip.FileLinesSettled | src/csv_parse.rs:54-63 | the header, the rendered rows and the final empty line are balanced and break-free |
| CsvRoundTrip.CleanerKeepsLines | src/csv_parse.rs:51-64 | cleaning leaves a file of such lines unchanged |
| CsvRoundTrip.DataRowsOfLines | src/csv_parse.rs:78-80 | the header and the empty line after the trailing CR LF are skipped, and every other line is a data row |
| CsvRoundTrip.ImportLines | src/csv_parse.rs:51-114 | a file of header plus parseable rows survives cleaning and parses to their events |
| CsvRoundTrip.ImportRenderedFile | src/csv_parse.rs:51-114 | importing a rendered export gives back exactly the events it was rendered from, and cleaning does not change it |
| CsvRoundTrip.FieldsOfQuotedRow | src/csv_parse.rs:81-82 | a quoted `;`-joined row of plain fields splits back into those fields |
| CsvRoundTrip.ExampleFields | src/csv_parse.rs:81-82 | the sample export row splits into its twelve fields |
| CsvRoundTrip.ExampleIsExport | src/csv_parse.rs:84-95 | the sample row is the export rendering of the sample event |
| CsvRoundTrip.ExampleRow | src/csv_parse.rs:78-110 | the sample row parses to event 555 in room 201 of department SJS, 08:00 to 09:30 on 14.03.2024 |
| Sorting.InsertPermutes | src/util/db_interactions.rs:217 | inserting one event adds exactly that event |
| Sorting.InsertSorted | src/util/db_interactions.rs:217 | inserting into a sorted listing keeps it sorted |
| Sorting.SortByFromPermutes | src/util/db_interactions.rs:217 | the sort is a permutation of the listing |
| Sorting.SortByFromSorted | src/util/db_interactions.rs:217 | the sorted listing is non-decreasing in start time |
| Sorting.StartingAtAppend | src/util/db_interactions.rs:217 | the events with one start time, in order, distribute over concatenation |
| Sorting.InsertStable | src/util/db_interactions.rs:217 | inserting puts the new event after every event with the same start time |
| Sorting.SortByFromStable | src/util/db_interactions.rs:217 | events with equal start times keep their relative order (`sort_by_key` is stable) |
| Sorting.InsertAt | src/util/db_interactions.rs:217 | the insertion position is after the last event not starting later, before the later ones |
| Sorting.ShiftRight | src/util/db_interactions.rs:217 | the shifting loop moves the later-starting tail one place right and stops at the insertion position |
| Sorting.InsertInto | src/util/db_interactions.rs:217 | one in-place insertion step inserts the next element into the sorted prefix and leaves the rest alone |
| Sorting.SortStep | src/util/db_interactions.rs:217 | sorting one more element is inserting it into the sorted prefix |
| Sorting.SortInPlace | src/util/db_interactions.rs:217 | the in-place sort leaves the array as the stable sort by start time of its old contents |
| EventStore.FirstWithId | src/util/db_interactions.rs:145-156 | the first event with an id: none exactly when no event has it; otherwise an event with that id and no earlier one with it |
| EventStore.FirstByIdFirstWins | src/util/db_interactions.rs:145-156 | the rows a bulk insert creates hold, for each id that occurs, its first event |
| EventStore.CreateManyHealthy | src/util/db_interactions.rs:144-159 | without failures `create_many_events` keeps every existing row and adds the first event of each new id; later duplicates are skipped |
| EventStore.CreateManyOk | src/util/db_interactions.rs:144-159 | the bulk insert returns `Ok` exactly when none of the requests it issues fails |
| EventStore.CreateManyPrefix | src/util/db_interactions.rs:144-159 | a failing bulk insert neither removes nor overwrites a row and has added what a fault-free insert of a strict prefix adds; there is no rollback |
| EventStore.CreateManyKeepsRows | src/util/db_interactions.rs:146-153 | existing rows survive the bulk insert unchanged |
| EventStore.CreateManyKeyed | src/util/db_interactions.rs:150-153 | the bulk insert stores every row under its own id |
| EventStore.EventTable.GetEvent | src/db_interactions.rs:102-106 | a select by id returns the row if present, else `None`, or the store error; it changes nothing |
| EventStore.EventTable.CreateEvent | src/util/db_interactions.rs:175-198 | check-then-create: a present id gives `Ok(None)` with the table unchanged, an absent one is stored and returned; either request may fail, leaving the table unchanged |
| EventStore.EventTable.DeleteEvent | src/db_interactions.rs:113-117 | a delete by id returns the removed row or `None`; afterwards the id is absent and every other row is unchanged |
| EventStore.EventTable.SelectAll | src/util/db_interactions.rs:216 | a table select lists every row exactly once |
| EventStore.EventTable.PurgeEvents | src/util/db_interactions.rs:164-168 | the purge returns every stored row and leaves the table empty, or fails and leaves it unchanged |
| EventStore.EventTable.GetAllEvents | src/util/db_interactions.rs:215-220 | the listing is the database's listing stably sorted by start time: sorted, a permutation, one entry per row |
| EventStore.EventTable.CreateManyEvents | src/util/db_interactions.rs:144-159 | the insert loop leaves the table and the verdict that the bulk-insert specification prescribes |
| EventStore.CreateThenGet | src/db_interactions.rs:80-106 | what `create_event` stored under a free id, `get_event` returns |
| EventStore.CreateTwice | src/db_interactions.rs:80-95 | a second create of the same id is refused with `Ok(None)` and the first row stays |
| EventStore.DeleteThenGet | src/db_interactions.rs:102-117 | after `delete_event`, `get_event` finds nothing under that id |
| Filters.NarrowAddsCriterion | src/api/event.rs:72-78 | each `filter_field!` step adds its criterion to the conjunction applied so far |
| Filters.KeepNone | src/api/event.rs:69-89 | with no criteria every event is kept |
| Filters.KeepAllAgrees | src/api/event.rs:69-89 | filtering by criteria equivalent to the query is the query's selection |
| Filters.KeepAllAgreesWindow | src/api/event.rs:91-108 | filtering by criteria equivalent to the window is the window's selection |
| Filters.HoldsAllGiven | src/api/event.rs:74 | an absent field imposes no constraint; a present one imposes its criterion |
| Filters.HoldsAllAppend | src/api/event.rs:80-86 | the successive filters form a conjunction |
| Filters.ColumnStepMeaning | src/api/event.rs:74-75 | one column's step keeps exactly the events whose column equals the given value, or all when none is given |
| Filters.QueryCriteriaMeaning | src/api/event.rs:80-86 | the seven steps together keep exactly the events matching every provided field |
| Filters.NarrowByQueryIsSelect | src/api/event.rs:69-89 | the step-by-step narrowing equals the direct selection of the matching events |
| Filters.NarrowByTimeIsSelect | src/api/event.rs:91-108 | the two optional bounds narrow to exactly the events inside the inclusive window |
| Filters.SelectMembers | src/event_routes.rs:27-47 | an event is selected exactly when it is listed and matches; the selection is an order-preserving subsequence of the listing, and no longer |
| Filters.SelectWindowMembers | src/event_routes.rs:49-66 | an event is in the window result exactly when it is listed and starts no earlier than `from` and ends no later than `to`; order is kept |
| Filters.EmptyQueryKeepsAll | src/api/event.rs:70-78 | with every query field absent, or both bounds absent, the listing is returned unchanged |
| Filters.SelectKeepsOrder | src/api/event.rs:69-89 | filtering a listing sorted by start time keeps it sorted |
| Filters.FilterEvents | src/api/event.rs:69-89 | `filter_events` gives the matching events of the sorted listing, or the store error |
| Filters.FilterEventsByTime | src/api/event.rs:91-108 | `filter_events_by_time` gives the sorted listing's events inside the window, or the store error |
| Reconcile.UpdateDb | src/util/db_interactions.rs:56-115 | `update_db` returns the outcome record and leaves the table that the refresh specification prescribes |
| Reconcile.SyncEarlyFailure | src/util/db_interactions.rs:62-87 | a read, parse or purge failure leaves the table unchanged, reports nothing deleted and no success, with the message of the failing stage |
| Reconcile.SyncUnparsable | src/util/db_interactions.rs:74-84 | an unparsable export gives `{0, "Could not parse csv file", false}` and touches no row |
| Reconcile.SyncPurgeFails | src/util/db_interactions.rs:110-114 | a failing purge gives `{0, "Purged db, but cannot read in new data.", false}` and touches no row |
| Reconcile.SyncRefills | src/util/db_interactions.rs:86-106 | after a successful purge the table is the bulk insert into an empty table, with the purge count and the insert's verdict reported |
| Reconcile.SyncAfterPurge | src/util/db_interactions.rs:87-105 | after a successful purge the old row count is reported; success holds exactly when no insert request fails, and then the table is the parsed events keyed by id with the first occurrence winning |
| Reconcile.CreateManyAgrees | src/util/db_interactions.rs:144-159 | a bulk insert that returns `Ok` did what a fault-free one does |
| Reconcile.SyncPartial | src/util/db_interactions.rs:98-105 | a refresh that fails after the purge leaves the rows of a strict prefix of the parsed events |
| Reconcile.BulkPartial | src/util/db_interactions.rs:146-153 | a failing insert into an empty table created the rows of a strict prefix of the events |
| Reconcile.SyncIdempotent | src/util/db_interactions.rs:56-115 | refreshing twice from the same export without failures leaves the same table; the second run reports the first run's rows as deleted |
| Reconcile.SyncEmptyImport | src/util/db_interactions.rs:86-97 | an export with no data rows empties the table and reports success |
| ApiEvent.StatusCode | src/api/event.rs:59-66 | not found is 404, a refused update or creation is 424, a store error is 500 |
| ApiEvent.ShowEvents | src/api/event.rs:110-116 | the sorted listing, or `EventNotFound` when the store fails |
| ApiEvent.EventDetail | src/api/event.rs:118-128 | the row, `EventNotFound` for an absent id, `EventDBError` for a store error |
| ApiEvent.DeleteEvent | src/api/event.rs:130-140 | the removed row, `EventNotFound` for an absent id, `EventDBError` for a store error; the table changes only by the deletion |
| ApiEvent.Filter | src/api/event.rs:142-150 | the filtered sorted listing, or `EventDBError` |
| ApiEvent.FilterByTime | src/api/event.rs:152-160 | the sorted listing's events inside the window, or `EventDBError` |
| ApiEvent.CreateNewEvent | src/api/event.rs:162-174 | the stored event; an existing id is `EventCreationFailure` with the table unchanged; a store error is `EventDBError` |
| ApiEvent.RefreshDb | src/api/event.rs:176-181 | the handler always answers `Ok` with `update_db`'s record and leaves its table |
| EventRoutes.ShowEvents | src/event_routes.rs:68-79 | 200 with the sorted listing, or 500 "Error with db." |
| EventRoutes.EventDetail | src/event_routes.rs:81-95 | 200 with the row, 404 "Event not found." for an absent id, 500 "Error with db." for a store error |
| EventRoutes.DeleteEvent | src/event_routes.rs:97-111 | the same three answers around the deletion, which is the only change to the table |
| EventRoutes.Filter | src/event_routes.rs:113-125 | 200 with the filtered sorted listing, or 500 "Error with db." |
| EventRoutes.FilterByTime | src/event_routes.rs:127-139 | 200 with the events inside the window, or 500 "Error with db." |
| MwAuth.DigitRun | src/web/mw_auth.rs:65 | `\d+` matches the longest digit prefix |
| MwAuth.FirstLine | src/web/mw_auth.rs:65 | `.` matches up to the first line feed |
| MwAuth.LastDot | src/web/mw_auth.rs:65 | the greedy expiration ends at the last dot that still leaves the signature one character |
| MwAuth.ParseToken | src/web/mw_auth.rs:64-73 | every rejection is `AuthFailTokenWrongFormat` |
| MwAuth.ParseUserPart | src/web/mw_auth.rs:65-66 | a rejection after the `user-` prefix is `AuthFailTokenWrongFormat` |
| MwAuth.ParseRemainder | src/web/mw_auth.rs:65-72 | a rejection of the digits, expiration or signature is `AuthFailTokenWrongFormat` |
| MwAuth.U64OfDigits | src/web/mw_auth.rs:68-70 | a digit run parses as `u64` exactly when its value is below 2^64 |
| MwAuth.DotSplit | src/web/mw_auth.rs:65 | with a dot-free signature the expiration ends at the last dot |
| MwAuth.RemainderOf | src/web/mw_auth.rs:65-72 | after the digits and a dot, a non-empty expiration and a dot-free signature on the first line are captured |
| MwAuth.ParseTokenComplete | src/web/mw_auth.rs:64-73 | `user-`, digits below 2^64, `.`, a non-empty expiration, `.`, a dot-free non-empty signature and an optional text from a line feed on, is accepted with the user id re-rendered without leading zeros |
| MwAuth.UserPartSound | src/web/mw_auth.rs:65 | an accepted token has a non-empty digit run between `user-` and the first dot |
| MwAuth.RemainderSound | src/web/mw_auth.rs:65-72 | an accepted remainder is a non-empty expiration, a dot and a non-empty signature within the first line, with an in-range id |
| MwAuth.ParseTokenSound | src/web/mw_auth.rs:64-73 | whatever is accepted has the `user-<digits>.<exp>.<sign>` shape, with the user id the digits before the first dot without leading zeros |
| MwAuth.ParseTokenOverflow | src/web/mw_auth.rs:68-70 | a digit run of 2^64 or more is rejected as `AuthFailTokenWrongFormat` |
| MwAuth.ResolveCtxCases | src/web/mw_auth.rs:28-41 | a missing cookie gives `AuthFailNoAuthTokenCookie`; the cookie is removed exactly when a present token fails to parse; success carries the parsed user id |
| MwAuth.Cookies.constructor | src/web/mw_auth.rs:28 | the jar holds the given auth token |
| MwAuth.Extensions.constructor | src/web/mw_auth.rs:43 | the request extensions start without a context |
| MwAuth.CtxResolver | src/web/mw_auth.rs:21-46 | the resolver always passes the request on, stores the resolved context, and removes the cookie exactly in the error cases other than a missing cookie |
| MwAuth.RequireAuth | src/web/mw_auth.rs:13-19 | the gate forwards exactly when the context is `Ok`, and otherwise returns that context's error |
| MwAuth.FromRequestParts | src/web/mw_auth.rs:48-60 | no stored context is `AuthFailCtxNotInRequestExt`; otherwise the stored result is returned |
| MwAuth.RejectedRequestsAreForbidden | src/web/mw_auth.rs:13-60 | a request passes the gate exactly when its context was resolved from a parseable token; every rejection is an authentication failure shown as 403 `NO_AUTH` |
| MwAuth.Authenticate | src/web/mw_auth.rs:13-60 | resolver then gate: the request passes exactly with a parseable token, carrying its user id; rejections are 403; the cookie is gone exactly when it was missing or did not parse |
| Errors.ClientStatusAndError | src/error.rs:39-62 | login failure is 403 `LOGIN_FAIL`, the three auth failures are 403 `NO_AUTH`, an unknown ticket id is 400 `INVALID_PARAMS`, both database errors are 500 `SERVICE_ERROR`, each exactly |
| Errors.StoreFailureIsServiceError | src/error.rs:64-69 | every store error becomes `DataBaseError` and reaches the client as 500 `SERVICE_ERROR` |
| Errors.IntoResponseKeepsError | src/error.rs:25-37 | the placeholder response is always 500, and it carries the error unchanged |

## Left out

- The daily scheduler that refreshes the table is not in any of the source
  files, so it is not part of this model.
- File I/O and byte decoding in `read_file`. Opening and reading the file is
  an input: `FileInput` is either unreadable or already-decoded text.
  `Encoding::for_label` is a `labelKnown` flag. `update_db` passes `"latin1"`,
  a label that `encoding_rs` knows, so `Reconcile.UpdateDb` passes `true`.
  The malformed-byte replacement done by `decode` is not modelled.
- ChronoParse.ParseDate: chrono's full acceptance set for `%d.%m.%Y` is not
  modelled. The model accepts 1-2 ASCII digits for day and month and 1-4 for
  the year, with no sign and no whitespace leniency. Signed years, of any
  length, are rejected, although chrono accepts them.
- ChronoParse.ParseTime: `%H:%M` is 1-2 ASCII digits for each part, with no
  whitespace leniency.
- The panic of `unwrap` on a missing field is modelled as a
  `RowError.MissingField` failure of the parse, not as a process abort.
- `Types.Time` has no fractional seconds. Events stored through
  `create_new_event` can carry nanoseconds, which would take part in the
  start-time order of `get_all_events` and in the inclusive bounds of
  `filter_events_by_time`; the model compares hour, minute and second only.
- A failing row's error is the bare chrono or `u64` parse error, with no line
  number, because that is what the code returns.
- SurrealDB connection and setup (`initiate_db` in both db_interactions
  files) are network plumbing. So are src/repository.rs and src/model.rs.
- JWT validation (src/util/jwt_validation.rs, src/model/auth.rs) depends on
  foreign key material and network fetches.
- HTTP wiring, JSON serialisation, logging, async execution and concurrent
  requests are not modelled. Every store call is a sequential method on
  `EventStore.EventTable`.
- A store request that fails is assumed to change nothing. Failures are one
  `Fault` per store call, naming the failing request: the model does not
  describe connection state that persists between calls.
- The listing order of a SurrealDB table select is unknown. `SelectAll`
  chooses any enumeration of the rows, and the listing methods return that
  enumeration as a ghost `raw` result that their contracts are stated over.
- `Event::from_submit` is not among the source files; `ApiEvent.CreateNewEvent`
  takes the built event as its input.
- `get_all_events` is called from src/api/event.rs and src/event_routes.rs
  through `db_interactions`, but only src/util/db_interactions.rs defines it.
  The model has one `GetAllEvents`, from that file.
- `create_event`, `get_event` and `delete_event` are the same code in
  src/db_interactions.rs and src/util/db_interactions.rs. Each is modelled
  once, as a method of `EventStore.EventTable`.
- `create_event` returns what the database's `create` returns; the model takes
  that to be `Some(event)`.
- The duplicate-id skip of `create_many_events` matters even right after the
  purge: two rows of one export with the same id keep the first.
- MwAuth.ParseTokenComplete: it states acceptance for signatures without a
  dot only. The regex also accepts a trailing dot in the signature, which
  `MwAuth.ParseToken` models and `MwAuth.ParseTokenSound` covers.
- Regex `\d` matches any Unicode digit. Non-ASCII digits then fail the `u64`
  parse with the same error, so the model reads only ASCII digits.
- `line.len()` is the UTF-8 byte length (`Text.Utf8Len`), not the character count.
- `get_enc` and `get_events` carry no contract of their own: they return a
  field. `get_events` is stated through `CsvParse.FailedFirstParse` and
  `Reconcile.UpdateDb`.
