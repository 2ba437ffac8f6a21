/** The metrics aggregator: one catalog query, then one row-count query per
    non-system table, folded into a row total and a size estimate. The
    functions here specify the fold that `HomePage.Session.FetchMetrics`
    runs as a loop. */
module Metrics {
  import opened Gateway
  import Catalog

  /** The aggregated figures (`lastModified`, the wall-clock time of the
      aggregation, is not modelled). */
  datatype Metrics = Metrics(totalTables: nat, totalRows: int, databaseSize: int, queryCount: nat)

  /** The table names and the initial size estimate of the catalog response,
      or None when reading `result[0].results` or `result[0].meta` throws
      (the size is `size_after || 0`). */
  function CatalogOf(r: Response<string>): Option<(seq<string>, int)> {
    match r
    case Payload(Some(ResultSet(Some(names), Some(Meta(size)))), _) =>
      Some((names, match size case Some(s) => s case None => 0))
    case _ => None
  }

  /** What one count response adds to the row total: its first row's count
      when that is present and non-zero (truthy), and 0 for a non-OK
      response or a body without a count. */
  function RowsOf(r: Response<int>): int {
    match Results(r)
    case Some(rows) => if |rows| > 0 && rows[0] != 0 then rows[0] else 0
    case None => 0
  }

  /** `countData.result?.[0]?.meta?.size_after` of an OK count response. */
  function SizeOf(r: Response<int>): Option<int> {
    match r
    case Payload(Some(ResultSet(_, Some(Meta(size)))), _) => size
    case _ => None
  }

  /** A count query for a non-system table whose fetch threw: the loop stops
      and the whole aggregation fails. */
  predicate Aborts(names: seq<string>, counts: string -> Response<int>) {
    exists i :: 0 <= i < |names| && !Catalog.IsSystem(names[i]) && counts(names[i]).NetworkError?
  }

  /** The row total over the non-system tables of `names`. */
  function TotalRows(names: seq<string>, counts: string -> Response<int>): int
    decreases |names|
  {
    if names == [] then 0
    else (if Catalog.IsSystem(names[0]) then 0 else RowsOf(counts(names[0]))) + TotalRows(names[1..], counts)
  }

  /** The size estimate after visiting `names`, starting from `size`: each
      non-system table's reported size replaces the estimate when strictly
      larger. */
  function FinalSize(size: int, names: seq<string>, counts: string -> Response<int>): int
    decreases |names|
  {
    if names == [] then size
    else
      var next :=
        if Catalog.IsSystem(names[0]) then size
        else match SizeOf(counts(names[0]))
          case Some(s) => if s > size then s else size
          case None => size;
      FinalSize(next, names[1..], counts)
  }

  /** The count queries issued while visiting `names`, up to and including
      one whose fetch throws. */
  function CountRequests(dbId: string, names: seq<string>, counts: string -> Response<int>): seq<Request>
    decreases |names|
  {
    if names == [] then []
    else if Catalog.IsSystem(names[0]) then CountRequests(dbId, names[1..], counts)
    else
      [QueryRequest(Some(dbId), CountRows(names[0]))]
      + if counts(names[0]).NetworkError? then [] else CountRequests(dbId, names[1..], counts)
  }

  /** The metrics `fetchMetrics` stores, or None when it fails. */
  function Aggregate(catalog: Response<string>, counts: string -> Response<int>): Option<Metrics> {
    match CatalogOf(catalog)
    case None => None
    case Some((names, size)) =>
      if Aborts(names, counts) then None
      else Some(Metrics(|Catalog.NonSystem(names)|, TotalRows(names, counts), FinalSize(size, names, counts), |names|))
  }

  /** All requests of one aggregation: the catalog query, then the count
      queries (none when the catalog cannot be read). */
  function MetricsRequests(dbId: string, catalog: Response<string>, counts: string -> Response<int>): seq<Request> {
    [QueryRequest(Some(dbId), ListTables)]
    + match CatalogOf(catalog)
      case None => []
      case Some((names, _)) => CountRequests(dbId, names, counts)
  }

  /** The loop of `fetchMetrics` over the catalog: for every non-system
      table in order, issue its count query, add a truthy count to the row
      total and raise the size estimate to a strictly larger reported size.
      A non-OK count is skipped; a count whose fetch throws stops the loop.
      Returns whether it stopped, the two running values and the count
      queries issued. */
  method CountTables(dbId: string, names: seq<string>, initialSize: int, counts: string -> Response<int>)
      returns (aborted: bool, totalRows: int, totalSize: int, sent: seq<Request>)
    ensures aborted == Aborts(names, counts)
    ensures sent == CountRequests(dbId, names, counts)
    ensures !aborted ==> totalRows == TotalRows(names, counts) && totalSize == FinalSize(initialSize, names, counts)
    ensures totalSize >= initialSize
  {
    aborted, totalRows, totalSize, sent := false, 0, initialSize, [];
    var i := 0;
    while i < |names|
      invariant 0 <= i <= |names|
      invariant totalRows + TotalRows(names[i..], counts) == TotalRows(names, counts)
      invariant FinalSize(totalSize, names[i..], counts) == FinalSize(initialSize, names, counts)
      invariant totalSize >= initialSize
      invariant forall j :: 0 <= j < i && !Catalog.IsSystem(names[j]) ==> !counts(names[j]).NetworkError?
      invariant sent + CountRequests(dbId, names[i..], counts) == CountRequests(dbId, names, counts)
    {
      var name := names[i];
      assert names[i..][0] == name && names[i..][1..] == names[i + 1..];
      if !Catalog.IsSystem(name) {
        sent := sent + [QueryRequest(Some(dbId), CountRows(name))];
        var countResponse := counts(name);
        if countResponse.NetworkError? {
          aborted := true;
          assert CountRequests(dbId, names[i..], counts) == [QueryRequest(Some(dbId), CountRows(name))];
          return;
        }
        if countResponse.Payload? {
          match Results(countResponse) {
            case Some(rows) =>
              if |rows| > 0 && rows[0] != 0 {
                totalRows := totalRows + rows[0];
              }
            case None =>
          }
          match SizeOf(countResponse) {
            case Some(size) =>
              if size > totalSize {
                totalSize := size;
              }
            case None =>
          }
        }
      }
      i := i + 1;
    }
    assert names[i..] == [];
  }

  /** The row total of a concatenation is the sum of the parts' totals. */
  lemma {:induction false} TotalRowsAppend(a: seq<string>, b: seq<string>, counts: string -> Response<int>)
    ensures TotalRows(a + b, counts) == TotalRows(a, counts) + TotalRows(b, counts)
    decreases |a|
  {
    if a == [] {
      assert a + b == b;
    } else {
      assert (a + b)[0] == a[0];
      assert (a + b)[1..] == a[1..] + b;
      TotalRowsAppend(a[1..], b, counts);
    }
  }

  /** A table whose count query came back non-OK, and a system table,
      contribute nothing: the total is the total without that table. */
  lemma FailedCountContributesZero(a: seq<string>, t: string, b: seq<string>, counts: string -> Response<int>)
    requires Catalog.IsSystem(t) || counts(t).HttpError?
    ensures TotalRows(a + [t] + b, counts) == TotalRows(a + b, counts)
  {
    TotalRowsAppend(a + [t], b, counts);
    TotalRowsAppend(a, [t], counts);
    TotalRowsAppend(a, b, counts);
  }

  /** The size estimate never decreases, and ends at least as large as every
      size reported for a non-system table. */
  lemma {:induction false} FinalSizeIsUpperBound(size: int, names: seq<string>, counts: string -> Response<int>)
    ensures FinalSize(size, names, counts) >= size
    ensures forall i :: 0 <= i < |names| && !Catalog.IsSystem(names[i]) && SizeOf(counts(names[i])).Some? ==>
      FinalSize(size, names, counts) >= SizeOf(counts(names[i])).value
    decreases |names|
  {
    if names != [] {
      var next :=
        if Catalog.IsSystem(names[0]) then size
        else match SizeOf(counts(names[0]))
          case Some(s) => if s > size then s else size
          case None => size;
      FinalSizeIsUpperBound(next, names[1..], counts);
      assert forall i :: 1 <= i < |names| ==> names[i] == names[1..][i - 1];
    }
  }

  /** The size estimate is the initial size or one of the reported sizes:
      together with FinalSizeIsUpperBound, it is their maximum. */
  lemma {:induction false} FinalSizeIsAttained(size: int, names: seq<string>, counts: string -> Response<int>)
    ensures FinalSize(size, names, counts) == size
      || exists i :: (0 <= i < |names| && !Catalog.IsSystem(names[i])
                      && SizeOf(counts(names[i])) == Some(FinalSize(size, names, counts)))
    decreases |names|
  {
    if names != [] {
      var next :=
        if Catalog.IsSystem(names[0]) then size
        else match SizeOf(counts(names[0]))
          case Some(s) => if s > size then s else size
          case None => size;
      FinalSizeIsAttained(next, names[1..], counts);
      var r := FinalSize(size, names, counts);
      if r != size {
        if r == next {
          assert SizeOf(counts(names[0])) == Some(r);
        } else {
          var i :| 0 <= i < |names[1..]| && !Catalog.IsSystem(names[1..][i])
                   && SizeOf(counts(names[1..][i])) == Some(r);
          assert names[i + 1] == names[1..][i];
        }
      }
    }
  }

  /** The size estimate after a concatenation continues from the estimate
      after the first part. */
  lemma {:induction false} FinalSizeAppend(size: int, a: seq<string>, b: seq<string>, counts: string -> Response<int>)
    ensures FinalSize(size, a + b, counts) == FinalSize(FinalSize(size, a, counts), b, counts)
    decreases |a|
  {
    if a == [] {
      assert a + b == b;
    } else {
      assert (a + b)[0] == a[0];
      assert (a + b)[1..] == a[1..] + b;
      var next :=
        if Catalog.IsSystem(a[0]) then size
        else match SizeOf(counts(a[0]))
          case Some(s) => if s > size then s else size
          case None => size;
      FinalSizeAppend(next, a[1..], b, counts);
    }
  }

  /** A system table, and a table whose count query came back non-OK, leave
      the size estimate as it would be without that table. */
  lemma FailedCountKeepsSize(size: int, a: seq<string>, t: string, b: seq<string>, counts: string -> Response<int>)
    requires Catalog.IsSystem(t) || counts(t).HttpError?
    ensures FinalSize(size, a + [t] + b, counts) == FinalSize(size, a + b, counts)
  {
    FinalSizeAppend(size, a + [t], b, counts);
    FinalSizeAppend(size, a, [t], counts);
    FinalSizeAppend(size, a, b, counts);
  }

  /** When every count is non-negative, as `COUNT(*)` is, the row total is
      at least the count of every non-system table. */
  lemma {:induction false} TotalRowsBoundsEachCount(names: seq<string>, counts: string -> Response<int>)
    requires forall i :: 0 <= i < |names| ==> RowsOf(counts(names[i])) >= 0
    ensures TotalRows(names, counts) >= 0
    ensures forall i :: 0 <= i < |names| && !Catalog.IsSystem(names[i]) ==>
      TotalRows(names, counts) >= RowsOf(counts(names[i]))
    decreases |names|
  {
    if names != [] {
      assert forall i :: 1 <= i < |names| ==> names[i] == names[1..][i - 1];
      TotalRowsBoundsEachCount(names[1..], counts);
    }
  }

  /** The catalog read fails exactly when the body lacks
      `result[0].results` or `result[0].meta`; a meta without `size_after`
      starts the size estimate at 0. */
  lemma CatalogRead(catalog: Response<string>, counts: string -> Response<int>)
    ensures CatalogOf(catalog).None? <==>
      !(catalog.Payload? && catalog.first.Some? && catalog.first.value.results.Some? && catalog.first.value.meta.Some?)
    ensures catalog.Payload? && catalog.first.Some? && catalog.first.value.results.Some?
              && catalog.first.value.meta == Some(Meta(None)) && Aggregate(catalog, counts).Some?
            ==> Aggregate(catalog, counts).value.databaseSize == FinalSize(0, catalog.first.value.results.value, counts)
  {
  }

  /** The counted tables are the catalog entries outside the system
      denylist: never more than the catalog holds, and as many exactly when
      the catalog has no system table. */
  lemma AggregateTables(catalog: Response<string>, counts: string -> Response<int>)
    requires Aggregate(catalog, counts).Some?
    ensures var names := CatalogOf(catalog).value.0;
            var m := Aggregate(catalog, counts).value;
            && m.queryCount == |names|
            && m.totalTables <= m.queryCount
            && (m.totalTables == m.queryCount <==> forall i :: 0 <= i < |names| ==> !Catalog.IsSystem(names[i]))
            && m.totalRows == TotalRows(names, counts)
  {
    Catalog.NonSystemKeepsAll(CatalogOf(catalog).value.0);
  }

  /** The count answers of the example below: 10 rows in `A`, 5 in `B`,
      and a server error for any other table. */
  function ExampleCounts(n: string): Response<int> {
    if n == "A" then Payload(Some(ResultSet(Some([10]), None)), [])
    else if n == "B" then Payload(Some(ResultSet(Some([5]), None)), [])
    else HttpError(500)
  }

  /** Two tables of 10 and 5 rows beside the system table `_cf_KV`: two
      tables are counted, 15 rows in all, and three catalog entries. */
  lemma AggregateExample(size: int)
    ensures Aggregate(Payload(Some(ResultSet(Some(["A", "B", "_cf_KV"]), Some(Meta(Some(size))))), []), ExampleCounts)
            == Some(Metrics(2, 15, size, 3))
  {
    var names := ["A", "B", "_cf_KV"];
    assert |Catalog.NonSystem(names)| == 2 by {
      assert names[1..] == ["B", "_cf_KV"] && names[1..][1..] == ["_cf_KV"];
      assert Catalog.IsSystem("_cf_KV");
      assert Catalog.NonSystem(["_cf_KV"]) == [];
    }
    assert TotalRows(names, ExampleCounts) == 15 by {
      assert names[1..] == ["B", "_cf_KV"] && names[1..][1..] == ["_cf_KV"];
      assert Catalog.IsSystem("_cf_KV");
      assert TotalRows(["_cf_KV"], ExampleCounts) == 0;
    }
    assert FinalSize(size, names, ExampleCounts) == size by {
      assert names[1..] == ["B", "_cf_KV"] && names[1..][1..] == ["_cf_KV"];
    }
    assert !Aborts(names, ExampleCounts);
  }
}
