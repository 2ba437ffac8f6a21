# D1 explorer page: session and data orchestration in Dafny

This project models the `Home` component of `src/app/page.tsx`. The component is a browser page for a
Cloudflare D1 account. It lists the account's databases, lists the tables of the selected database
and pages through a table's rows. It also runs ad-hoc SQL with a persisted history of at most ten
statements, and aggregates row counts and sizes into metrics.

Every `await fetch(...)` becomes a response value handed to the handler that issued it
(`Gateway.Response`: a thrown error, a non-OK status, or a decoded body with its first result set
and its `errors` list). Every handler runs to completion. The requests a handler sends are appended
to `Session.requests`, so contracts can state which request was sent (for example, the offset of
"load more").

Modules, one per component:

- `Text`: the JavaScript string operations the page uses. `trim` emptiness, `toLowerCase`,
  `includes` and number printing.
- `Gateway`: response and request shapes, and the `result[0].results` check that every reader
  repeats.
- `History`: the bounded, most-recent-first query history. It supports push, remove-by-index
  (a `filter`) and clear.
- `Catalog`: the system-table denylist, the name-to-uuid map built by `reduce`, the
  first-non-system-table `find`, the non-system `filter` and the case-insensitive table search.
- `Metrics`: the fold of `fetchMetrics` as specification functions, the loop that runs it
  (`CountTables`) and lemmas. The lemmas show that the row total skips failed counts and that
  the size estimate is the maximum of the reported sizes.
- `HomePage`: class `Session`, whose fields are the component's `useState` slots and whose
  methods are its handlers.

A handler in the source reads the state of the render it was created in, not the state its own
setters produce. The model keeps this where it matters:

- `handleDatabaseSelect` awaits `fetchMetrics`. That call reads the database selected before the
  switch (`HandleDatabaseSelect` passes `old(selectedDb)`).
- `fetchDatabases` calls `fetchTableData` without awaiting it. That call looks the first database
  up in the id map of the mount render, which is empty (`FetchDatabases` takes that map as
  `idsInScope`). See Findings.

In these places the model follows the code:

- Metrics, catalog and row errors share the single `error` slot. Only the custom query has its own
  slot (`queryError`).
- A count query answered with a non-OK status adds 0. A count query whose fetch throws fails the
  whole aggregation and sets `metrics` to null.
- "Load More" is offered while the total number of loaded rows is at least `recordsToShow` (16),
  not while the last page was full. Once offered, it stays offered (`LoadMoreRecords`).
- A custom-query body without `result[0].results` shows an empty result and is not an error.
- The table-list click handler (`ClickTable`) does not clear the rows or reset the page size.
  `handleTableSelect` does both, but no element calls it.

## Model

| member | source | states |
|---|---|---|
| Text.Lower | src/app/page.tsx:229-231 | lower-casing keeps the length, leaves no upper-case ASCII letter, keeps every other character in place and turns each upper-case letter into its lower-case partner |
| Text.LowerIdempotent | src/app/page.tsx:230 | lower-casing an already lower-cased text changes nothing |
| Text.BlankConcat | src/app/page.tsx:689 | a text is blank after `trim` exactly when each of its parts is, so whitespace around a statement never makes it blank |
| History.PushShape | src/app/page.tsx:723-727 | after a push the statement comes first, followed by the newest old entries in order; the length is min(old + 1, 10) |
| History.PushEvictsOldest | src/app/page.tsx:724 | a push onto a full history of 10 drops exactly the oldest entry |
| History.PushKeepsDuplicates | src/app/page.tsx:724 | no de-duplication: the push adds one more occurrence of the statement to the surviving entries |
| History.PushAllBounded | src/app/page.tsx:724 | any number of pushes leaves at most 10 entries, even from a longer stored list |
| History.RemoveAtOutOfRange | src/app/page.tsx:741-747 | removing an index outside [0, length) leaves the history unchanged |
| History.RemoveAtInRange | src/app/page.tsx:741-747 | removing an index in range drops exactly that entry and keeps the others in order |
| History.PushThenRemoveFirst | src/app/page.tsx:724 | removing the entry just pushed restores the old history, except the entry the push evicted |
| History.RemoveAtLength | src/app/page.tsx:743 | a removal shortens the history by one exactly when the index is in range |
| Catalog.IdMapKeys | src/app/page.tsx:590-595 | a name is in the id map exactly when some entry has both that name and a uuid |
| Catalog.IdMapLastWins | src/app/page.tsx:590-595 | a name maps to the uuid of the last complete entry with that name |
| Catalog.IdMapNonEmpty | src/app/page.tsx:235-239 | the map has no empty ids and no empty name, so the `!dbId` guard fails exactly for names missing from it |
| Catalog.FirstRegular | src/app/page.tsx:624-626 | the result is the first non-system table, and none exactly when every table is a system table |
| Catalog.NonSystem | src/app/page.tsx:509 | a name occurs in the result exactly when it occurs in the catalog and is not a system table; the result is never longer than the catalog |
| Catalog.NonSystemCounts | src/app/page.tsx:509 | every occurrence of a non-system name is kept and every system name dropped, so the length is the number of non-system entries |
| Catalog.NonSystemAppend | src/app/page.tsx:509 | the filter keeps catalog order: filtering a concatenation is concatenating the filtered parts |
| Catalog.NonSystemKeepsAll | src/app/page.tsx:509 | the filter keeps every entry exactly when the catalog holds no system table |
| Catalog.FirstRegularIsFirstNonSystem | src/app/page.tsx:624-626 | the auto-selected table is the head of the non-system filter |
| Catalog.Filtered | src/app/page.tsx:229-231 | a table is listed exactly when its lower-cased name includes the lower-cased search text, with every occurrence of a matching name kept |
| Catalog.FilteredAppend | src/app/page.tsx:229-231 | the search keeps catalog order: searching a concatenation is concatenating the searched parts |
| Catalog.FilteredEmptySearch | src/app/page.tsx:229-231 | an empty search lists every table in order |
| Catalog.FilteredIgnoresCase | src/app/page.tsx:229-231 | lower-casing the search text first gives the same list |
| Catalog.FilteredIdempotent | src/app/page.tsx:229-231 | filtering the filtered list again by the same text changes nothing |
| Metrics.CountTables | src/app/page.tsx:482-505 | the loop stops exactly when a non-system count fetch throws; otherwise it returns the row total and the final size; it issues exactly the count queries `CountRequests` lists |
| Metrics.TotalRowsAppend | src/app/page.tsx:482-498 | the row total over a concatenation of table lists is the sum of the totals of the parts |
| Metrics.FailedCountContributesZero | src/app/page.tsx:494-498 | a system table and a table whose count came back non-OK add nothing to the row total |
| Metrics.FinalSizeIsUpperBound | src/app/page.tsx:479-502 | the size estimate never falls below the initial `size_after` or below any size reported for a non-system table |
| Metrics.FinalSizeIsAttained | src/app/page.tsx:499-502 | the size estimate is the initial size or one of the reported sizes, so it is their maximum |
| Metrics.FinalSizeAppend | src/app/page.tsx:499-502 | the size estimate over a concatenation continues from the estimate after the first part |
| Metrics.FailedCountKeepsSize | src/app/page.tsx:494-502 | a system table and a table whose count came back non-OK leave the size estimate as it is without them |
| Metrics.TotalRowsBoundsEachCount | src/app/page.tsx:493-496 | with non-negative counts the row total is at least the count of every non-system table |
| Metrics.CatalogRead | src/app/page.tsx:477-479 | the catalog read fails exactly when the body lacks `result[0].results` or `result[0].meta`; when `size_after` is missing the reported size is the fold started from 0 |
| Metrics.AggregateTables | src/app/page.tsx:507-514 | the metrics count the catalog entries (`queryCount`) and the non-system ones (`totalTables`), never more of the latter, and as many exactly when no system table is present; the row total is `TotalRows` |
| Metrics.AggregateExample | src/app/page.tsx:507-514 | tables A (10 rows) and B (5 rows) beside `_cf_KV` give 2 tables, 15 rows and 3 catalog entries |
| HomePage.Session.constructor | src/app/page.tsx:176-226 | the initial state; the history is the stored list, or empty when nothing is stored |
| HomePage.Session.FilteredTables | src/app/page.tsx:228-231 | the listed tables are exactly those matching the search box, each as often as in the catalog |
| HomePage.Session.SetTableSearchQuery | src/app/page.tsx:1174 | the search box holds the typed text |
| HomePage.Session.SetQueryInput | src/app/page.tsx:1345 | the query box holds the given text |
| HomePage.Session.FetchTables | src/app/page.tsx:234-277 | an unknown database sets "Database ID not found" and sends nothing; otherwise the catalog query is sent and the tables are replaced by the rows, or by [] with an error when the rows are missing |
| HomePage.Session.FetchTableData | src/app/page.tsx:279-318 | sends a query for the page at offset 0; on success the rows replace the loaded rows; on failure the rows become [] and the error is set; "Load More" is then offered exactly when the page is full |
| HomePage.Session.LoadMoreRecords | src/app/page.tsx:355-399 | does nothing without a selected table; requests offset = number of rows loaded; on success the page is appended after the old rows; on failure the rows are unchanged; "Load More" stays offered |
| HomePage.Session.HandleTableSelect | src/app/page.tsx:401-409 | an empty name changes nothing; otherwise selects the table, resets the page size to 16 and reloads its first page |
| HomePage.Session.ClickTable | src/app/page.tsx:1206-1211 | a click on a system table changes nothing, the error banner included; otherwise selects the table and reads its first page |
| HomePage.Session.FetchMetrics | src/app/page.tsx:452-524 | an unknown database sends nothing; otherwise the metrics are `Aggregate` of the responses (null when it fails), the error is set accordingly, and the catalog and count queries are sent in order |
| HomePage.Session.SetView | src/app/page.tsx:558-563 | switching into analytics computes the metrics of the selected database; any other switch only changes the view |
| HomePage.Session.HandleDatabaseSelect | src/app/page.tsx:657-678 | always selects the database, clears the table selection and the rows and hides the error banner; reloads the catalog; in analytics view the handler's own metrics run reads the database selected before the switch (see Findings) |
| HomePage.Session.HandleDatabaseSelectFixed | src/app/page.tsx:668-671 | the corrected handler computes, in analytics view, the metrics of the database just selected |
| HomePage.Session.HandleRefresh | src/app/page.tsx:411-422 | reloads the catalog and, when a table is selected, its first page; with a table selected the page read alone decides the error, so a successful page read clears a failed catalog read's message |
| HomePage.Session.FetchDatabases | src/app/page.tsx:565-650 | on failure the error carries the message and the list and map are cleared; on success the map is built, the first database is selected, its catalog is read and the first non-system table is selected; its rows are read only if `idsInScope` knows the database |
| HomePage.Session.FetchDatabasesFixed | src/app/page.tsx:601-632 | with the fresh id map, the first page of the auto-selected table is loaded |
| HomePage.Session.ExecuteCustomQuery | src/app/page.tsx:687-738 | blank input does nothing; a thrown error puts its message in `queryError`, nulls the result and leaves the history alone; a body without rows shows []; on success the rows are shown and the history becomes `Push(old, sql)`, equal to the stored copy; a stored copy equal to the history stays equal |
| HomePage.Session.RemoveFromHistory | src/app/page.tsx:740-747 | drops exactly entry i when it is in range and nothing otherwise; the stored copy equals the new list |
| HomePage.Session.ClearAllHistory | src/app/page.tsx:749-753 | the history and its stored copy are both empty |
| HomePage.DatabasesFailureExactly | src/app/page.tsx:576-586 | `fetchDatabases` fails exactly when the list is not read; a non-OK status gives "HTTP error! status: <status>, message: <body text>", a missing array its own message |
| HomePage.QueryFailureExactly | src/app/page.tsx:710-718 | a custom query fails before its rows exactly when the response is not a body without errors; the first error wins over any rows |
| HomePage.ShortPageKeepsLoadMore | src/app/page.tsx:1292 | after a full first page of 16 and a shorter second page, "Load More" is still offered and 16 plus the short page's rows are loaded |
| HomePage.SwitchCountsOldDatabase | src/app/page.tsx:668-671 | switching from `a` to `b` in the analytics view lists `b`'s catalog but sends the metrics query to `a` |
| HomePage.SwitchCountsNewDatabaseFixed | src/app/page.tsx:668-671 | the corrected handler sends both queries to `b` |
| HomePage.MountLoadsNoRows | src/app/page.tsx:601-640 | on mount, with every response successful, the first table is selected but no page query is sent and no rows are loaded |
| HomePage.MountLoadsFirstPageFixed | src/app/page.tsx:601-640 | the corrected start-up loads the first page on the same responses |

## Left out

- Network transport, headers, credentials and the proxy URL (src/app/page.tsx:20-30, 245-252). Responses are inputs. SQL text is modelled as the structured `Gateway.Query` and not rendered to a string.
- JSON decoding. A body that fails to decode throws like a failed fetch and is modelled as `NetworkError`. Rows are lists of column/value pairs, with numbers as integers.
- Local storage reads and writes. The stored history is the field `storedHistory`, read once by the constructor.
- The loading flags (`loading`, `metricsLoading`, `queryLoading`, `databasesLoading`, `isRefreshing`). Every handler runs to completion, so each flag is false again when it ends.
- HomePage.Session.HandleDatabaseSelect: in the analytics view the `[view, selectedDb]` effect (src/app/page.tsx:681-685) also runs `fetchMetrics` for the NEW database, racing the handler's own run for the old one. Which result is stored depends on timing, and the model runs only the handler's call.
- Effect scheduling and races between overlapping requests. The model runs each handler alone. When the view switches to analytics, two effects each run `fetchMetrics`; the model runs it once.
- `executeQuery` (src/app/page.tsx:320-352): nothing calls it. Also left out are `savedQueries` and `selectedQuery`, which nothing updates.
- `formatBytes`, the average-query-time figure and `formatDate`: they use floating point, the locale and the clock. `lastModified` is the wall-clock time, so `Metrics.Metrics` has no such field.
- Rendering and the unreachable duplicate query-view block (src/app/page.tsx:756-910). Also the CSS injection and `console` output.
- Text.Lower: lower-cases ASCII letters only, whereas `toLowerCase` also maps non-ASCII letters.
- A table row without a `name` and a count row without a `count`: catalog rows are table names and count rows are integers.
- That a page holds at most `limit` rows is a property of the server. The model takes any response.

## Findings

| source | as written | input that shows it | evidently intended | confidence | as-written member | corrected member |
|---|---|---|---|---|---|---|
| src/app/page.tsx:628-632 | `fetchDatabases` runs from the mount effect, so its un-awaited `fetchTableData(firstRegularTable.name, firstDb)` reads `databaseIds` from the mount render. That map is `{}`, so the call sets "Database ID not found" and returns, and line 640 then clears the error. | one database with a name and uuid, whose catalog holds a non-system table, with every response successful | the auto-selected first table shows its first page of rows | high (not executed) | HomePage.MountLoadsNoRows | HomePage.Session.FetchDatabasesFixed |
| src/app/page.tsx:668-671 | `handleDatabaseSelect` awaits `fetchMetrics()` from the closure of the render before the switch, so it reads the old `selectedDb` and counts the old database, although its comment says it fetches new metrics. | two databases `a` and `b` with names and uuids, `a` selected, analytics view, then `b` picked | the metrics of `b` are computed | medium (not executed): the effect at lines 681-685 also computes `b`'s metrics, and which run stores last depends on timing | HomePage.SwitchCountsOldDatabase | HomePage.Session.HandleDatabaseSelectFixed |
