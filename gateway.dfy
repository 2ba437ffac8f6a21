/** The remote query gateway: what the page sends to the proxy and the shapes
    of what comes back. Every `await fetch(...)` of the page is modelled as a
    response value handed to the handler that issued it. */
module Gateway {
  import Text

  datatype Option<+T> = None | Some(value: T)

  /** A scalar cell of a result row. Numbers are modelled as integers. */
  datatype Value = Str(s: string) | Num(n: int) | Bool(b: bool) | Null

  /** A result row: column names with their values, in column order. */
  type Row = seq<(string, Value)>

  /** `meta` of a result set; only `size_after` is consulted. */
  datatype Meta = Meta(sizeAfter: Option<int>)

  /** `result[0]` of a query response: its `results` and its `meta`, either
      of which the server may leave out. */
  datatype ResultSet<+T> = ResultSet(results: Option<seq<T>>, meta: Option<Meta>)

  /** What one `await fetch(...)` followed by `await response.json()`
      yields to the page:
      - NetworkError: the fetch or the JSON decoding threw, with its message;
      - HttpError: `response.ok` was false;
      - Payload: a decoded body, with `result[0]` (None when `result` or
        its first element is missing) and the messages of `errors`. */
  datatype Response<+T> =
    | NetworkError(message: string)
    | HttpError(status: nat)
    | Payload(first: Option<ResultSet<T>>, errors: seq<string>)

  /** `data.result && data.result[0] && data.result[0].results`: the rows of
      the first result set when all three are present. */
  function Results<T>(r: Response<T>): (rows: Option<seq<T>>)
    ensures rows.Some? <==> r.Payload? && r.first.Some? && r.first.value.results.Some?
    ensures rows.Some? ==> rows.value == r.first.value.results.value
  {
    match r
    case Payload(Some(ResultSet(Some(rows), _)), _) => Some(rows)
    case _ => None
  }

  /** The message of `new Error(`HTTP error! status: ${response.status}`)`. */
  function HttpErrorMessage(status: nat): string {
    "HTTP error! status: " + Text.Decimal(status)
  }

  /** The SQL statements the page issues, by kind. */
  datatype Query =
    | ListTables                                    // SELECT name FROM sqlite_master WHERE type='table'
    | Page(table: string, limit: int, offset: int)  // SELECT * FROM <table> LIMIT <limit> OFFSET <offset>
    | CountRows(table: string)                      // SELECT COUNT(*) as count FROM "<table>"
    | Custom(sql: string)                           // the user's own text, sent verbatim

  /** One request to the proxy: POST /query with a database id (absent when
      the id lookup yielded `undefined`), or GET /databases. */
  datatype Request =
    | QueryRequest(dbId: Option<string>, query: Query)
    | DatabasesRequest
}
