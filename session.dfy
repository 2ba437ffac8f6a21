/** The session state of the `Home` page and its handlers. Every handler
    runs to completion; each response it awaits is a parameter. A handler
    reads the state of the render it was created in: the values a nested
    call reads from that render are passed to it explicitly. */
module HomePage {
  import opened Gateway
  import Catalog
  import History
  import Metrics
  import Text

  /** The page size, the only value `recordsToShow` ever takes. */
  const PageSize: int := 16

  const MsgNoDbId := "Database ID not found"
  const MsgTablesFailed := "Failed to fetch tables. Please try again later."
  const MsgTableDataFailed := "Failed to fetch table data. Please try again later."
  const MsgLoadMoreFailed := "Failed to load more records. Please try again later."
  const MsgMetricsFailed := "Failed to fetch metrics. Please try again later."
  const MsgDatabasesFailed := "Failed to fetch databases: "
  const MsgInvalidDbList := "Invalid response format: expected result array"

  datatype View = Tables | Query | Analytics

  /** What GET /databases yields: a thrown fetch or decoding error, a non-OK
      status with the body text, or a body whose `result` is the list of
      databases (None when it is missing or not an array). */
  datatype DatabasesResponse =
    | DbNetworkError(message: string)
    | DbHttpError(status: nat, text: string)
    | DbPayload(result: Option<seq<Catalog.DbEntry>>)

  /** The message `fetchDatabases` appends to "Failed to fetch databases: ",
      or None when the list was read. */
  function DatabasesFailure(r: DatabasesResponse): Option<string> {
    match r
    case DbNetworkError(m) => Some(m)
    case DbHttpError(status, text) => Some(HttpErrorMessage(status) + ", message: " + text)
    case DbPayload(None) => Some(MsgInvalidDbList)
    case DbPayload(Some(_)) => None
  }

  /** The message of the error a custom query throws before its rows are
      read, or None when it gets that far. */
  function QueryFailure(r: Response<Row>): Option<string> {
    match r
    case NetworkError(m) => Some(m)
    case HttpError(status) => Some(HttpErrorMessage(status))
    case Payload(_, errors) => if |errors| > 0 then Some(errors[0]) else None
  }

  /** The rows a response carries, or the empty list a failed read leaves. */
  function RowsOrEmpty<T>(r: Response<T>): seq<T> {
    match Results(r)
    case Some(rows) => rows
    case None => []
  }

  /** The error slot after a read that fails with `message`. */
  function ErrorAfter<T>(r: Response<T>, message: string): Option<string> {
    if Results(r).Some? then None else Some(message)
  }

  function MetricsError(catalog: Response<string>, counts: string -> Response<int>): Option<string> {
    if Metrics.Aggregate(catalog, counts).Some? then None else Some(MsgMetricsFailed)
  }

  /** `fetchDatabases` succeeds exactly when the list was read; a non-OK
      status reports both the status and the body text in its message. */
  lemma DatabasesFailureExactly(r: DatabasesResponse)
    ensures DatabasesFailure(r).None? <==> r.DbPayload? && r.result.Some?
    ensures r.DbHttpError? ==> DatabasesFailure(r) == Some(HttpErrorMessage(r.status) + ", message: " + r.text)
    ensures r.DbPayload? && r.result.None? ==> DatabasesFailure(r) == Some(MsgInvalidDbList)
  {
  }

  /** A custom query fails before its rows are read exactly when the
      response is not a body without errors; a body's first error wins over
      any rows it also carries. */
  lemma QueryFailureExactly(r: Response<Row>)
    ensures QueryFailure(r).None? <==> r.Payload? && r.errors == []
    ensures r.Payload? && r.errors != [] ==> QueryFailure(r) == Some(r.errors[0])
  {
  }

  /** The id a lookup yields, absent for `undefined`. */
  function IdOption(ids: map<string, string>, name: string): Option<string> {
    if name in ids then Some(ids[name]) else None
  }

  class Session {
    var selectedDb: string
    var selectedTable: Option<string>
    var view: View
    var tables: seq<string>
    var tableData: seq<Row>
    var recordsToShow: int
    /** The shared error slot of catalog, table, row and metrics reads. */
    var error: Option<string>
    var metrics: Option<Metrics.Metrics>
    var databases: seq<Catalog.DbEntry>
    var databaseIds: map<string, string>
    var queryInput: string
    var queryResult: Option<seq<Row>>
    /** The error slot of the custom-query path only. */
    var queryError: Option<string>
    var queryHistory: seq<string>
    /** The `queryHistory` entry of local storage (None: no entry). */
    var storedHistory: Option<seq<string>>
    var tableSearchQuery: string
    /** Every request sent so far, oldest first. */
    var requests: seq<Request>

    /** Local storage holds exactly the history shown. */
    predicate HistoryStored()
      reads this
    {
      storedHistory == Some(queryHistory)
    }

    /** The initial state; the history is the stored list, or empty when
        local storage holds none. */
    constructor (stored: Option<seq<string>>)
      ensures selectedDb == "DB" && selectedTable == None && view == Tables
      ensures tables == [] && tableData == [] && recordsToShow == PageSize
      ensures error == None && metrics == None && databases == [] && databaseIds == map[]
      ensures queryInput == "" && queryResult == None && queryError == None
      ensures queryHistory == (match stored case Some(h) => h case None => [])
      ensures storedHistory == stored && tableSearchQuery == "" && requests == []
      ensures stored.Some? ==> HistoryStored()
    {
      selectedDb := "DB";
      selectedTable := None;
      view := Tables;
      tables := [];
      tableData := [];
      recordsToShow := PageSize;
      error := None;
      metrics := None;
      databases := [];
      databaseIds := map[];
      queryInput := "";
      queryResult := None;
      queryError := None;
      queryHistory := match stored case Some(h) => h case None => [];
      storedHistory := stored;
      tableSearchQuery := "";
      requests := [];
    }

    /** The "Load More" control is shown. */
    predicate LoadMoreOffered()
      reads this
    {
      |tableData| >= recordsToShow
    }

    /** The table list as the search box filters it. */
    function FilteredTables(): (r: seq<string>)
      reads this
      ensures |r| <= |tables|
      ensures forall n :: n in r <==> n in tables && Catalog.Matches(n, tableSearchQuery)
      ensures forall n :: multiset(r)[n] == if Catalog.Matches(n, tableSearchQuery) then multiset(tables)[n] else 0
    {
      Catalog.Filtered(tables, tableSearchQuery)
    }

    /** The error banner above the content: shown only while a non-system
        table is selected. */
    function BannerError(): (r: Option<string>)
      reads this
      ensures r.Some? <==> error.Some? && selectedTable.Some? && selectedTable.value != ""
                             && !Catalog.IsSystem(selectedTable.value)
      ensures r.Some? ==> r == error
    {
      if error.Some? && selectedTable.Some? && selectedTable.value != "" && !Catalog.IsSystem(selectedTable.value)
      then error else None
    }

    method SetTableSearchQuery(text: string)
      modifies this`tableSearchQuery
      ensures tableSearchQuery == text
    {
      tableSearchQuery := text;
    }

    method SetQueryInput(text: string)
      modifies this`queryInput
      ensures queryInput == text
    {
      queryInput := text;
    }

    /** `fetchTables`: reads the table catalog of a database into `tables`. */
    method FetchTables(dbName: string, resp: Response<string>)
      modifies this`tables, this`error, this`requests
      ensures var id := Catalog.Lookup(databaseIds, dbName);
        && (id == "" ==> error == Some(MsgNoDbId) && tables == old(tables) && requests == old(requests))
        && (id != "" ==> requests == old(requests) + [QueryRequest(Some(id), ListTables)]
                         && tables == RowsOrEmpty(resp) && error == ErrorAfter(resp, MsgTablesFailed))
    {
      var dbId := Catalog.Lookup(databaseIds, dbName);
      if dbId == "" {
        error := Some(MsgNoDbId);
        return;
      }
      requests := requests + [QueryRequest(Some(dbId), ListTables)];
      match Results(resp)
      case Some(names) =>
        tables := names;
        error := None;
      case None =>
        error := Some(MsgTablesFailed);
        tables := [];
    }

    /** `fetchTableData`: reads the first page of a table, replacing the rows
        loaded so far. `ids` and `limit` are the id map and page size of the
        render the calling handler was created in. */
    method FetchTableData(ids: map<string, string>, limit: int, tableName: string, dbName: string, resp: Response<Row>)
      modifies this`tableData, this`error, this`requests
      ensures var id := Catalog.Lookup(ids, dbName);
        && (id == "" ==> error == Some(MsgNoDbId) && tableData == old(tableData) && requests == old(requests))
        && (id != "" ==> requests == old(requests) + [QueryRequest(Some(id), Page(tableName, limit, 0))]
                         && tableData == RowsOrEmpty(resp) && error == ErrorAfter(resp, MsgTableDataFailed))
      ensures Catalog.Lookup(ids, dbName) != "" ==> (LoadMoreOffered() <==> |RowsOrEmpty(resp)| >= recordsToShow)
    {
      var dbId := Catalog.Lookup(ids, dbName);
      if dbId == "" {
        error := Some(MsgNoDbId);
        return;
      }
      requests := requests + [QueryRequest(Some(dbId), Page(tableName, limit, 0))];
      match Results(resp)
      case Some(rows) =>
        tableData := rows;
        error := None;
      case None =>
        error := Some(MsgTableDataFailed);
        tableData := [];
    }

    /** `loadMoreRecords`: reads the page that starts after the rows already
        loaded and appends it. The rows loaded before stay a prefix, and once
        offered the control stays offered. */
    method LoadMoreRecords(resp: Response<Row>)
      modifies this`tableData, this`error, this`requests
      ensures selectedTable.None? || selectedTable.value == "" || selectedDb == "" ==>
        tableData == old(tableData) && error == old(error) && requests == old(requests)
      ensures selectedTable.Some? && selectedTable.value != "" && selectedDb != "" ==>
        var id := Catalog.Lookup(databaseIds, selectedDb);
        && (id == "" ==> error == Some(MsgNoDbId) && tableData == old(tableData) && requests == old(requests))
        && (id != "" ==>
              && requests == old(requests) + [QueryRequest(Some(id), Page(selectedTable.value, recordsToShow, |old(tableData)|))]
              && tableData == old(tableData) + RowsOrEmpty(resp)
              && error == ErrorAfter(resp, MsgLoadMoreFailed))
      ensures old(tableData) <= tableData
      ensures old(LoadMoreOffered()) ==> LoadMoreOffered()
    {
      if selectedTable.None? || selectedTable.value == "" || selectedDb == "" {
        return;
      }
      var dbId := Catalog.Lookup(databaseIds, selectedDb);
      if dbId == "" {
        error := Some(MsgNoDbId);
        return;
      }
      var currentOffset := |tableData|;
      requests := requests + [QueryRequest(Some(dbId), Page(selectedTable.value, recordsToShow, currentOffset))];
      match Results(resp)
      case Some(rows) =>
        tableData := tableData + rows;
        error := None;
      case None =>
        error := Some(MsgLoadMoreFailed);
    }

    /** `handleTableSelect`: selects a table, drops its rows, resets the page
        size and reads the first page; an empty name changes nothing. */
    method HandleTableSelect(tableName: string, resp: Response<Row>)
      modifies this`selectedTable, this`tableData, this`recordsToShow, this`error, this`requests
      ensures tableName == "" ==>
        && selectedTable == old(selectedTable) && tableData == old(tableData)
        && recordsToShow == old(recordsToShow) && error == old(error) && requests == old(requests)
      ensures tableName != "" ==>
        var id := Catalog.Lookup(databaseIds, selectedDb);
        && selectedTable == Some(tableName) && recordsToShow == PageSize
        && (id == "" ==> tableData == [] && error == Some(MsgNoDbId) && requests == old(requests))
        && (id != "" ==> requests == old(requests) + [QueryRequest(Some(id), Page(tableName, old(recordsToShow), 0))]
                         && tableData == RowsOrEmpty(resp) && error == ErrorAfter(resp, MsgTableDataFailed))
    {
      if tableName == "" {
        return;
      }
      var limit := recordsToShow;
      selectedTable := Some(tableName);
      tableData := [];
      recordsToShow := PageSize;
      FetchTableData(databaseIds, limit, tableName, selectedDb, resp);
    }

    /** The click handler of an entry of the table list: a system table is
        ignored; otherwise the table is selected and its first page read
        (the rows and the page size are not reset first). */
    method ClickTable(tableName: string, resp: Response<Row>)
      modifies this`selectedTable, this`tableData, this`error, this`requests
      ensures Catalog.IsSystem(tableName) ==>
        && selectedTable == old(selectedTable) && tableData == old(tableData)
        && error == old(error) && requests == old(requests)
      ensures !Catalog.IsSystem(tableName) ==>
        var id := Catalog.Lookup(databaseIds, selectedDb);
        && selectedTable == Some(tableName)
        && (id == "" ==> tableData == old(tableData) && error == Some(MsgNoDbId) && requests == old(requests))
        && (id != "" ==> requests == old(requests) + [QueryRequest(Some(id), Page(tableName, recordsToShow, 0))]
                         && tableData == RowsOrEmpty(resp) && error == ErrorAfter(resp, MsgTableDataFailed))
      ensures Catalog.IsSystem(tableName) ==> BannerError() == old(BannerError())
    {
      if !Catalog.IsSystem(tableName) {
        selectedTable := Some(tableName);
        FetchTableData(databaseIds, recordsToShow, tableName, selectedDb, resp);
      }
    }

    /** `fetchMetrics`: reads the catalog, then counts the rows of every
        non-system table in catalog order, summing the counts and keeping
        the largest reported size. A non-OK count is skipped; a count whose
        fetch throws fails the whole aggregation. */
    method FetchMetrics(dbName: string, catalog: Response<string>, counts: string -> Response<int>)
      modifies this`metrics, this`error, this`requests
      ensures var id := Catalog.Lookup(databaseIds, dbName);
        && (id == "" ==> error == Some(MsgNoDbId) && metrics == old(metrics) && requests == old(requests))
        && (id != "" ==> metrics == Metrics.Aggregate(catalog, counts)
                         && error == MetricsError(catalog, counts)
                         && requests == old(requests) + Metrics.MetricsRequests(id, catalog, counts))
    {
      var dbId := Catalog.Lookup(databaseIds, dbName);
      if dbId == "" {
        error := Some(MsgNoDbId);
        return;
      }
      requests := requests + [QueryRequest(Some(dbId), ListTables)];
      var read := Metrics.CatalogOf(catalog);
      if read.None? {
        error := Some(MsgMetricsFailed);
        metrics := None;
        return;
      }
      var names, initialSize := read.value.0, read.value.1;
      var aborted, totalRows, totalSize, sent := Metrics.CountTables(dbId, names, initialSize, counts);
      requests := requests + sent;
      if aborted {
        error := Some(MsgMetricsFailed);
        metrics := None;
        return;
      }
      metrics := Some(Metrics.Metrics(|Catalog.NonSystem(names)|, totalRows, totalSize, |names|));
      error := None;
    }

    /** `setView`: switching into the analytics view computes the metrics of
        the selected database; other switches only change the view. */
    method SetView(v: View, catalog: Response<string>, counts: string -> Response<int>)
      modifies this`view, this`metrics, this`error, this`requests
      ensures view == v
      ensures !(v == Analytics && old(view) != Analytics) ==>
        metrics == old(metrics) && error == old(error) && requests == old(requests)
      ensures v == Analytics && old(view) != Analytics ==>
        var id := Catalog.Lookup(databaseIds, selectedDb);
        && (id == "" ==> error == Some(MsgNoDbId) && metrics == old(metrics) && requests == old(requests))
        && (id != "" ==> metrics == Metrics.Aggregate(catalog, counts)
                         && error == MetricsError(catalog, counts)
                         && requests == old(requests) + Metrics.MetricsRequests(id, catalog, counts))
    {
      var before := view;
      view := v;
      if v == Analytics && before != Analytics {
        FetchMetrics(selectedDb, catalog, counts);
      }
    }

    /** `handleDatabaseSelect`: selects a database, clears the table
        selection and its rows, reads the new catalog and, in the analytics
        view, recomputes the metrics. That recomputation reads the
        database selected BEFORE the switch (the render's `selectedDb`). */
    method HandleDatabaseSelect(dbName: string, tablesResp: Response<string>,
                                catalog: Response<string>, counts: string -> Response<int>)
      modifies this`selectedDb, this`selectedTable, this`tableData, this`tables, this`metrics, this`error, this`requests
      ensures selectedDb == dbName && selectedTable == None && tableData == []
      ensures BannerError() == None
      ensures var id := Catalog.Lookup(databaseIds, dbName);
        && tables == (if id == "" then old(tables) else RowsOrEmpty(tablesResp))
        && var tablesError := if id == "" then Some(MsgNoDbId) else ErrorAfter(tablesResp, MsgTablesFailed);
        && var tablesRequests := if id == "" then [] else [QueryRequest(Some(id), ListTables)];
        && (view != Analytics ==>
              metrics == old(metrics) && error == tablesError && requests == old(requests) + tablesRequests)
        && (view == Analytics ==>
              var mid := Catalog.Lookup(databaseIds, old(selectedDb));
              && (mid == "" ==> metrics == old(metrics) && error == Some(MsgNoDbId)
                                && requests == old(requests) + tablesRequests)
              && (mid != "" ==> metrics == Metrics.Aggregate(catalog, counts)
                                && error == MetricsError(catalog, counts)
                                && requests == old(requests) + tablesRequests + Metrics.MetricsRequests(mid, catalog, counts)))
    {
      var dbInScope := selectedDb;
      selectedDb := dbName;
      selectedTable := None;
      tableData := [];
      FetchTables(dbName, tablesResp);
      ghost var id := Catalog.Lookup(databaseIds, dbName);
      assert requests == old(requests) + (if id == "" then [] else [QueryRequest(Some(id), ListTables)]);
      if view == Analytics {
        FetchMetrics(dbInScope, catalog, counts);
      }
    }

    /** `handleDatabaseSelect` as its comment says it is meant to work: in
        the analytics view the metrics are those of the database just
        selected. */
    method HandleDatabaseSelectFixed(dbName: string, tablesResp: Response<string>,
                                     catalog: Response<string>, counts: string -> Response<int>)
      modifies this`selectedDb, this`selectedTable, this`tableData, this`tables, this`metrics, this`error, this`requests
      ensures selectedDb == dbName && selectedTable == None && tableData == []
      ensures var id := Catalog.Lookup(databaseIds, dbName);
        && tables == (if id == "" then old(tables) else RowsOrEmpty(tablesResp))
        && (view != Analytics ==> metrics == old(metrics))
        && (view == Analytics && id == "" ==> metrics == old(metrics) && error == Some(MsgNoDbId)
                                              && requests == old(requests))
        && (view == Analytics && id != "" ==>
              && metrics == Metrics.Aggregate(catalog, counts)
              && error == MetricsError(catalog, counts)
              && requests == old(requests) + [QueryRequest(Some(id), ListTables)]
                             + Metrics.MetricsRequests(id, catalog, counts))
    {
      selectedDb := dbName;
      selectedTable := None;
      tableData := [];
      FetchTables(dbName, tablesResp);
      if view == Analytics {
        FetchMetrics(dbName, catalog, counts);
      }
    }

    /** `handleRefresh`: re-reads the catalog of the selected database and,
        when a table is selected, its first page; neither undoes the other. */
    method HandleRefresh(tablesResp: Response<string>, dataResp: Response<Row>)
      modifies this`tables, this`tableData, this`error, this`requests
      ensures var id := Catalog.Lookup(databaseIds, selectedDb);
        var reload := selectedTable.Some? && selectedTable.value != "";
        && (id == "" ==> tables == old(tables) && tableData == old(tableData)
                         && error == Some(MsgNoDbId) && requests == old(requests))
        && (id != "" && !reload ==>
              && tables == RowsOrEmpty(tablesResp) && tableData == old(tableData)
              && error == ErrorAfter(tablesResp, MsgTablesFailed)
              && requests == old(requests) + [QueryRequest(Some(id), ListTables)])
        && (id != "" && reload ==>
              && tables == RowsOrEmpty(tablesResp) && tableData == RowsOrEmpty(dataResp)
              && error == ErrorAfter(dataResp, MsgTableDataFailed)
              && requests == old(requests) + [QueryRequest(Some(id), ListTables),
                                              QueryRequest(Some(id), Page(selectedTable.value, recordsToShow, 0))])
    {
      var table := selectedTable;
      FetchTables(selectedDb, tablesResp);
      if table.Some? && table.value != "" {
        FetchTableData(databaseIds, recordsToShow, table.value, selectedDb, dataResp);
      }
    }

    /** `fetchDatabases`, run once on mount: reads the database list and its
        id map and, when the list is not empty, selects its first database,
        reads that database's catalog and selects its first non-system
        table. The first page of that table is read through the nested
        `fetchTableData`, which looks the database up in `idsInScope`, the
        id map of the render the handler was created in; the rest of the
        handler has finished (and cleared the error) before that read
        completes. */
    method FetchDatabases(idsInScope: map<string, string>, resp: DatabasesResponse,
                          tablesResp: Response<string>, dataResp: Response<Row>)
      modifies this`databases, this`databaseIds, this`selectedDb, this`tables, this`selectedTable,
               this`tableData, this`error, this`requests
      ensures DatabasesFailure(resp).Some? ==>
        && error == Some(MsgDatabasesFailed + DatabasesFailure(resp).value)
        && databases == [] && databaseIds == map[]
        && selectedDb == old(selectedDb) && tables == old(tables)
        && selectedTable == old(selectedTable) && tableData == old(tableData)
        && requests == old(requests) + [DatabasesRequest]
      ensures resp.DbPayload? && resp.result.Some? && resp.result.value == [] ==>
        && databases == [] && databaseIds == map[] && error == None
        && selectedDb == old(selectedDb) && tables == old(tables)
        && selectedTable == old(selectedTable) && tableData == old(tableData)
        && requests == old(requests) + [DatabasesRequest]
      ensures resp.DbPayload? && resp.result.Some? && resp.result.value != [] ==>
        var list := resp.result.value;
        var first := list[0].name;
        var listTables := QueryRequest(IdOption(Catalog.IdMap(list), first), ListTables);
        && databases == list && databaseIds == Catalog.IdMap(list) && selectedDb == first
        && (Results(tablesResp).None? ==>
              && tables == old(tables) && selectedTable == old(selectedTable)
              && tableData == old(tableData) && error == None
              && requests == old(requests) + [DatabasesRequest, listTables])
        && (Results(tablesResp).Some? ==>
              var names := Results(tablesResp).value;
              var pick := Catalog.FirstRegular(names);
              var rowId := Catalog.Lookup(idsInScope, first);
              && tables == names
              && selectedTable == (if pick.Some? then pick else old(selectedTable))
              && (pick.None? || rowId == "" ==>
                    tableData == old(tableData) && error == None
                    && requests == old(requests) + [DatabasesRequest, listTables])
              && (pick.Some? && rowId != "" ==>
                    && tableData == RowsOrEmpty(dataResp) && error == ErrorAfter(dataResp, MsgTableDataFailed)
                    && requests == old(requests) + [DatabasesRequest, listTables,
                                                    QueryRequest(Some(rowId), Page(pick.value, recordsToShow, 0))]))
    {
      requests := requests + [DatabasesRequest];
      var failure := DatabasesFailure(resp);
      if failure.Some? {
        error := Some(MsgDatabasesFailed + failure.value);
        databases := [];
        databaseIds := map[];
        return;
      }
      assert resp.DbPayload? && resp.result.Some?;
      var list := resp.result.value;
      databaseIds := Catalog.IdMap(list);
      databases := list;
      if |list| > 0 {
        SelectFirstDatabase(idsInScope, list, tablesResp, dataResp);
      } else {
        error := None;
      }
    }

    /** The part of `fetchDatabases` that follows a non-empty list: select
        the first database, read its catalog, select its first non-system
        table and read that table's first page through `idsInScope`. */
    method SelectFirstDatabase(idsInScope: map<string, string>, list: seq<Catalog.DbEntry>,
                               tablesResp: Response<string>, dataResp: Response<Row>)
      requires list != []
      modifies this`selectedDb, this`tables, this`selectedTable, this`tableData, this`error, this`requests
      ensures var first := list[0].name;
        var listTables := QueryRequest(IdOption(databaseIds, first), ListTables);
        && selectedDb == first
        && (Results(tablesResp).None? ==>
              && tables == old(tables) && selectedTable == old(selectedTable)
              && tableData == old(tableData) && error == None
              && requests == old(requests) + [listTables])
        && (Results(tablesResp).Some? ==>
              var names := Results(tablesResp).value;
              var pick := Catalog.FirstRegular(names);
              var rowId := Catalog.Lookup(idsInScope, first);
              && tables == names
              && selectedTable == (if pick.Some? then pick else old(selectedTable))
              && (pick.None? || rowId == "" ==>
                    tableData == old(tableData) && error == None
                    && requests == old(requests) + [listTables])
              && (pick.Some? && rowId != "" ==>
                    && tableData == RowsOrEmpty(dataResp) && error == ErrorAfter(dataResp, MsgTableDataFailed)
                    && requests == old(requests) + [listTables,
                                                    QueryRequest(Some(rowId), Page(pick.value, recordsToShow, 0))]))
    {
      var pending: Option<string> := None;
      var firstDb := list[0].name;
      selectedDb := firstDb;
      requests := requests + [QueryRequest(IdOption(databaseIds, firstDb), ListTables)];
      match Results(tablesResp) {
        case Some(names) =>
          tables := names;
          var pick := Catalog.FirstRegular(names);
          if pick.Some? {
            selectedTable := pick;
            if Catalog.Lookup(idsInScope, firstDb) == "" {
              // the nested call's guard, overwritten below
              error := Some(MsgNoDbId);
            } else {
              pending := pick;
            }
          }
        case None =>
      }
      error := None;
      if pending.Some? {
        FetchTableData(idsInScope, recordsToShow, pending.value, selectedDb, dataResp);
      }
    }

    /** `fetchDatabases` as its authors evidently meant it: the first page
        of the auto-selected table is read with the id map just built. */
    method FetchDatabasesFixed(resp: DatabasesResponse, tablesResp: Response<string>, dataResp: Response<Row>)
      modifies this`databases, this`databaseIds, this`selectedDb, this`tables, this`selectedTable,
               this`tableData, this`error, this`requests
      ensures resp.DbPayload? && resp.result.Some? && resp.result.value != [] ==>
        var list := resp.result.value;
        var first := list[0].name;
        && databaseIds == Catalog.IdMap(list) && selectedDb == first
        && (Results(tablesResp).Some? && Catalog.FirstRegular(Results(tablesResp).value).Some?
            && Catalog.Complete(list[0]) && Results(dataResp).Some? ==>
              && selectedTable == Catalog.FirstRegular(Results(tablesResp).value)
              && tableData == Results(dataResp).value && error == None)
    {
      var newIds := match resp case DbPayload(Some(list)) => Catalog.IdMap(list) case _ => map[];
      if resp.DbPayload? && resp.result.Some? && resp.result.value != [] {
        var list := resp.result.value;
        Catalog.IdMapKeys(list, list[0].name);
        Catalog.IdMapNonEmpty(list, list[0].name);
        assert Catalog.Complete(list[0]) ==> Catalog.Lookup(newIds, list[0].name) != "";
      }
      FetchDatabases(newIds, resp, tablesResp, dataResp);
    }

    /** `executeCustomQuery`: runs the text of the query box. On success the
        rows are shown and the text is pushed onto the history, which is
        written back to local storage; on a thrown error its message goes to
        the query error slot only. */
    method ExecuteCustomQuery(resp: Response<Row>)
      modifies this`queryResult, this`queryError, this`queryHistory, this`storedHistory, this`requests
      ensures Text.IsBlank(queryInput) || selectedDb == "" ==>
        && queryResult == old(queryResult) && queryError == old(queryError)
        && queryHistory == old(queryHistory) && storedHistory == old(storedHistory) && requests == old(requests)
      ensures !Text.IsBlank(queryInput) && selectedDb != "" ==>
        var id := Catalog.Lookup(databaseIds, selectedDb);
        && (id == "" ==>
              && queryError == Some(MsgNoDbId) && queryResult == old(queryResult)
              && queryHistory == old(queryHistory) && storedHistory == old(storedHistory) && requests == old(requests))
        && (id != "" ==> requests == old(requests) + [QueryRequest(Some(id), Custom(queryInput))])
        && (id != "" && QueryFailure(resp).Some? ==>
              && queryError == QueryFailure(resp) && queryResult == None
              && queryHistory == old(queryHistory) && storedHistory == old(storedHistory))
        && (id != "" && QueryFailure(resp).None? && Results(resp).None? ==>
              && queryError == None && queryResult == Some([])
              && queryHistory == old(queryHistory) && storedHistory == old(storedHistory))
        && (id != "" && QueryFailure(resp).None? && Results(resp).Some? ==>
              && queryError == None && queryResult == Results(resp)
              && queryHistory == History.Push(old(queryHistory), queryInput)
              && HistoryStored())
      ensures old(HistoryStored()) ==> HistoryStored()
    {
      if Text.IsBlank(queryInput) || selectedDb == "" {
        return;
      }
      var dbId := Catalog.Lookup(databaseIds, selectedDb);
      if dbId == "" {
        queryError := Some(MsgNoDbId);
        return;
      }
      queryError := None;
      requests := requests + [QueryRequest(Some(dbId), Custom(queryInput))];
      var failure := QueryFailure(resp);
      if failure.Some? {
        queryError := failure;
        queryResult := None;
        return;
      }
      match Results(resp)
      case Some(rows) =>
        queryResult := Some(rows);
        queryHistory := History.Push(queryHistory, queryInput);
        storedHistory := Some(queryHistory);
      case None =>
        queryResult := Some([]);
    }

    /** `removeFromHistory`: drops the entry at `index` (nothing when it is
        out of range) and writes the list back to local storage. */
    method RemoveFromHistory(index: int)
      modifies this`queryHistory, this`storedHistory
      ensures 0 <= index < |old(queryHistory)| ==>
        queryHistory == old(queryHistory)[..index] + old(queryHistory)[index + 1..]
      ensures !(0 <= index < |old(queryHistory)|) ==> queryHistory == old(queryHistory)
      ensures HistoryStored()
    {
      if 0 <= index < |queryHistory| {
        History.RemoveAtInRange(queryHistory, index);
      } else {
        History.RemoveAtOutOfRange(queryHistory, index);
      }
      queryHistory := History.RemoveAt(queryHistory, index);
      storedHistory := Some(queryHistory);
    }

    /** `clearAllHistory`: empties the history and its stored copy. */
    method ClearAllHistory()
      modifies this`queryHistory, this`storedHistory
      ensures queryHistory == [] && HistoryStored()
    {
      queryHistory := [];
      storedHistory := Some([]);
    }
  }

  /** On mount, with every response successful, the page selects the first
      database and its first non-system table but never reads that table's
      rows: the id map the handler closed over is the empty initial one. */
  method MountLoadsNoRows(stored: Option<seq<string>>, db: Catalog.DbEntry, names: seq<string>, rows: seq<Row>)
      returns (loaded: seq<Row>, selected: Option<string>, sent: seq<Request>)
    requires Catalog.Complete(db) && Catalog.FirstRegular(names).Some?
    ensures selected == Catalog.FirstRegular(names)
    ensures loaded == []
    ensures forall i :: 0 <= i < |sent| ==> !sent[i].QueryRequest? || !sent[i].query.Page?
  {
    var s := new Session(stored);
    s.FetchDatabases(s.databaseIds, DbPayload(Some([db])), Payload(Some(ResultSet(Some(names), None)), []),
                     Payload(Some(ResultSet(Some(rows), None)), []));
    loaded, selected, sent := s.tableData, s.selectedTable, s.requests;
  }

  /** The corrected start-up, on the same responses, shows the first page. */
  method MountLoadsFirstPageFixed(stored: Option<seq<string>>, db: Catalog.DbEntry, names: seq<string>, rows: seq<Row>)
      returns (loaded: seq<Row>, selected: Option<string>)
    requires Catalog.Complete(db) && Catalog.FirstRegular(names).Some?
    ensures selected == Catalog.FirstRegular(names)
    ensures loaded == rows
  {
    var s := new Session(stored);
    s.FetchDatabasesFixed(DbPayload(Some([db])), Payload(Some(ResultSet(Some(names), None)), []),
                          Payload(Some(ResultSet(Some(rows), None)), []));
    loaded, selected := s.tableData, s.selectedTable;
  }

  /** A full first page followed by a short second page: the control stays
      offered, because it compares the rows loaded in all with the page size
      rather than looking at the last page. */
  method ShortPageKeepsLoadMore(stored: Option<seq<string>>, db: Catalog.DbEntry, table: string,
                                first: seq<Row>, more: seq<Row>)
      returns (offered: bool, loaded: int)
    requires Catalog.Complete(db) && table != ""
    requires |first| == PageSize && |more| < PageSize
    ensures offered
    ensures loaded == PageSize + |more|
  {
    var s := new Session(stored);
    s.databaseIds := map[db.name := db.uuid];
    s.selectedDb := db.name;
    s.HandleTableSelect(table, Payload(Some(ResultSet(Some(first), None)), []));
    s.LoadMoreRecords(Payload(Some(ResultSet(Some(more), None)), []));
    offered, loaded := s.LoadMoreOffered(), |s.tableData|;
  }

  /** Switching from database `a` to database `b` in the analytics view:
      the catalog of `b` is listed, but the metrics query that follows goes
      to `a`, the database selected before the switch. */
  method SwitchCountsOldDatabase(stored: Option<seq<string>>, a: Catalog.DbEntry, b: Catalog.DbEntry)
      returns (sent: seq<Request>)
    requires Catalog.Complete(a) && Catalog.Complete(b) && a.name != b.name
    ensures sent == [QueryRequest(Some(b.uuid), ListTables), QueryRequest(Some(a.uuid), ListTables)]
  {
    var s := new Session(stored);
    s.databaseIds := map[a.name := a.uuid, b.name := b.uuid];
    s.selectedDb := a.name;
    s.view := Analytics;
    var emptyCatalog := Payload(Some(ResultSet(Some([]), Some(Meta(None)))), []);
    assert Catalog.Lookup(s.databaseIds, a.name) == a.uuid && Catalog.Lookup(s.databaseIds, b.name) == b.uuid;
    assert Metrics.CountRequests(a.uuid, [], (n: string) => HttpError(500)) == [];
    s.HandleDatabaseSelect(b.name, emptyCatalog, emptyCatalog, (n: string) => HttpError(500));
    sent := s.requests;
  }

  /** The corrected handler, on the same switch, queries `b`. */
  method SwitchCountsNewDatabaseFixed(stored: Option<seq<string>>, a: Catalog.DbEntry, b: Catalog.DbEntry)
      returns (sent: seq<Request>)
    requires Catalog.Complete(a) && Catalog.Complete(b) && a.name != b.name
    ensures sent == [QueryRequest(Some(b.uuid), ListTables), QueryRequest(Some(b.uuid), ListTables)]
  {
    var s := new Session(stored);
    s.databaseIds := map[a.name := a.uuid, b.name := b.uuid];
    s.selectedDb := a.name;
    s.view := Analytics;
    var emptyCatalog := Payload(Some(ResultSet(Some([]), Some(Meta(None)))), []);
    assert Catalog.Lookup(s.databaseIds, b.name) == b.uuid;
    assert Metrics.CountRequests(b.uuid, [], (n: string) => HttpError(500)) == [];
    s.HandleDatabaseSelectFixed(b.name, emptyCatalog, emptyCatalog, (n: string) => HttpError(500));
    sent := s.requests;
  }
}
