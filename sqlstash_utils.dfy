/** The helpers of the entity store's SQL layer: picking the first non-empty
    value among several, counting true flags, and the wrappers that render a
    template, hand the text to the database and classify whatever goes wrong.
    The database, its rows and the request's results are abstract: each is an
    outcome given in advance, an error or a value. */
module SqlStash {
  import opened Wrappers
  import opened SqlTemplate

  // ---------------------------------------------------------------------------
  // First non-empty value
  // ---------------------------------------------------------------------------

  /** The index of the first element of `xs` that `keep` accepts, or None. */
  function First<T>(xs: seq<T>, keep: T -> bool): (r: Option<nat>)
    ensures r.Some? ==> r.value < |xs| && keep(xs[r.value])
    ensures r.Some? ==> forall j :: 0 <= j < r.value ==> !keep(xs[j])
    ensures r.None? <==> forall j :: 0 <= j < |xs| ==> !keep(xs[j])
  {
    if xs == [] then None
    else if keep(xs[0]) then Some(0)
    else match First(xs[1..], keep)
      case None => None
      case Some(i) =>
        assert forall j :: 1 <= j <= i + 1 ==> xs[j] == xs[1..][j - 1];
        Some(i + 1)
  }

  /** `ptrOr`: the first non-nil pointer, or a pointer to the zero value
      `zero` when every one is nil (or there are none). A pointer is
      modelled by the value it points to, nil by None. */
  function PtrOr<E>(ps: seq<Option<E>>, zero: E): (r: Option<E>)
    ensures r.Some?
    ensures forall i :: 0 <= i < |ps| && ps[i].Some? && (forall j :: 0 <= j < i ==> ps[j].None?) ==> r == ps[i]
    ensures (forall i :: 0 <= i < |ps| ==> ps[i].None?) ==> r == Some(zero)
  {
    match First(ps, (p: Option<E>) => p.Some?)
    case Some(i) => ps[i]
    case None => Some(zero)
  }

  /** A slice that is neither nil nor empty. */
  predicate NonEmptySlice<E>(s: Option<seq<E>>) {
    s.Some? && s.value != []
  }

  /** `sliceOr`: the first slice that is neither nil nor empty, or a non-nil
      empty slice. Nil is None. */
  function SliceOr<E>(vals: seq<Option<seq<E>>>): (r: Option<seq<E>>)
    ensures r.Some?
    ensures forall i :: 0 <= i < |vals| && NonEmptySlice(vals[i]) && (forall j :: 0 <= j < i ==> !NonEmptySlice(vals[j])) ==> r == vals[i]
    ensures (forall i :: 0 <= i < |vals| ==> !NonEmptySlice(vals[i])) ==> r == Some([])
  {
    match First(vals, NonEmptySlice)
    case Some(i) => vals[i]
    case None => Some([])
  }

  /** A map that is neither nil nor empty. */
  predicate NonEmptyMap<K, V>(m: Option<map<K, V>>) {
    m.Some? && m.value != map[]
  }

  /** `mapOr`: the first map that is neither nil nor empty, or a non-nil
      empty map. Nil is None. */
  function MapOr<K, V>(vals: seq<Option<map<K, V>>>): (r: Option<map<K, V>>)
    ensures r.Some?
    ensures forall i :: 0 <= i < |vals| && NonEmptyMap(vals[i]) && (forall j :: 0 <= j < i ==> !NonEmptyMap(vals[j])) ==> r == vals[i]
    ensures (forall i :: 0 <= i < |vals| ==> !NonEmptyMap(vals[i])) ==> r == Some(map[])
  {
    match First(vals, NonEmptyMap)
    case Some(i) => vals[i]
    case None => Some(map[])
  }

  /** The unit test's cases for `ptrOr`. */
  lemma PtrOrExamples()
    ensures PtrOr<int>([], 0) == Some(0)
    ensures PtrOr<int>([None, None, None, None, None, None], 0) == Some(0)
    ensures PtrOr([None, None, None, Some(42), None, Some(5), None, None], 0) == Some(42)
    ensures PtrOr([None, None, None, Some(42)], 0) == Some(42)
  {
  }

  /** The unit test's cases for `sliceOr`. */
  lemma SliceOrExamples()
    ensures SliceOr<int>([]) == Some([])
    ensures SliceOr<int>([None, None, None, None]) == Some([])
    ensures SliceOr<int>([Some([]), Some([]), Some([]), Some([])]) == Some([])
    ensures SliceOr<int>([Some([]), None, Some([]), Some([1, 2]), None, Some([]), Some([10]), None]) == Some([1, 2])
    ensures SliceOr<int>([Some([]), None, Some([]), Some([1, 2])]) == Some([1, 2])
  {
  }

  /** The unit test's cases for `mapOr`. */
  lemma MapOrExamples()
    ensures MapOr<string, int>([]) == Some(map[])
    ensures MapOr<string, int>([None, None, None, Some(map[]), None]) == Some(map[])
    ensures MapOr<string, int>([None, None, Some(map["a" := 0, "b" := 1]), Some(map["c" := 2, "d" := 3]), None, Some(map[]), None])
      == Some(map["a" := 0, "b" := 1])
    ensures MapOr<string, int>([None, None, Some(map["a" := 0, "b" := 1])]) == Some(map["a" := 0, "b" := 1])
  {
    var m: map<string, int> := map["a" := 0, "b" := 1];
    assert "a" in m;
  }

  // ---------------------------------------------------------------------------
  // Counting
  // ---------------------------------------------------------------------------

  /** `countTrue`: how many of the flags are true. */
  function CountTrue(bs: seq<bool>): nat {
    if bs == [] then 0 else CountTrue(bs[..|bs| - 1]) + (if bs[|bs| - 1] then 1 else 0)
  }

  /** The count is the number of true flags, so at most the number of flags,
      and zero exactly when none is true. */
  lemma {:induction false} CountTrueCounts(bs: seq<bool>)
    ensures CountTrue(bs) == multiset(bs)[true]
    ensures CountTrue(bs) <= |bs|
    ensures CountTrue(bs) == 0 <==> forall i :: 0 <= i < |bs| ==> !bs[i]
  {
    if bs != [] {
      var init := bs[..|bs| - 1];
      CountTrueCounts(init);
      assert bs == init + [bs[|bs| - 1]];
      assert multiset(bs) == multiset(init) + multiset{bs[|bs| - 1]};
      forall i | 0 <= i < |init| ensures init[i] == bs[i] {
      }
    }
  }

  /** The unit test's cases for `countTrue`. */
  lemma CountTrueExamples()
    ensures CountTrue([]) == 0 && CountTrue([false]) == 0 && CountTrue([false, false, false]) == 0
    ensures CountTrue([true]) == 1 && CountTrue([false, true, false]) == 1
    ensures CountTrue([false, true, false, true, true]) == 3
  {
    var bs := [false, true, false, true, true];
    assert bs[..4] == [false, true, false, true] && bs[..4][..3] == [false, true, false];
  }

  // ---------------------------------------------------------------------------
  // Errors
  // ---------------------------------------------------------------------------

  /** The errors of the wrappers: the template could not be rendered (a
      message opening with "execute template"); the database refused the
      statement (`SQLError`, holding the driver's error); an error from
      scanning a row or from the request's results, as given; and such an
      error wrapped as the failure of a row of a query (a message opening
      with "row results"). */
  datatype Error =
    | ExecuteTemplate(exec: ExecError)
    | SQLError(driverError: string)
    | Failed(cause: string)
    | RowResults(inner: Error)

  /** `errors.Is(e, target)`, for the errors given as their text. */
  predicate Is(e: Error, target: string) {
    match e
    case ExecuteTemplate(_) => false
    case SQLError(d) => d == target
    case Failed(c) => c == target
    case RowResults(inner) => Is(inner, target)
  }

  // ---------------------------------------------------------------------------
  // Rows
  // ---------------------------------------------------------------------------

  /** An outcome given by the database or the request: a value or an error. */
  datatype Result<T> = Ok(value: T) | Err(error: string)

  /** A result row: what scanning it into the request's destinations gives
      (None for success), and what the request's `Results` then returns. */
  datatype Row<T> = Row(scanError: Option<string>, results: Result<T>)

  /** The request methods the helpers call: `GetArgs` for the statement's
      arguments, `GetScanDest` for a row's destinations, `Results` for what
      the scanned row yields. */
  datatype Call = GetArgs | GetScanDest | Results

  /** The calls scanning `row` makes on the request: the destinations, then
      the results, unless the scan itself failed. */
  function ScanCalls<T>(row: Row<T>): seq<Call> {
    if row.scanError.Some? then [GetScanDest] else [GetScanDest, Results]
  }

  /** `scanRow`: scans the row into the request's destinations, then reads
      the request's results. A scan error is returned at once, without
      reading the results; on any error the value is the zero value. */
  function ScanRow<T>(row: Row<T>, zero: T): (r: (T, Option<Error>, seq<Call>))
    ensures r.2 == ScanCalls(row)
    ensures r.2[0] == GetScanDest && (Results in r.2 <==> row.scanError.None?)
    ensures row.scanError.Some? ==> r.0 == zero && r.1 == Some(Failed(row.scanError.value))
    ensures row.scanError.None? && row.results.Err? ==> r.0 == zero && r.1 == Some(Failed(row.results.error))
    ensures row.scanError.None? && row.results.Ok? ==> r.0 == row.results.value && r.1.None?
    ensures r.1.Some? ==> r.0 == zero
    ensures r.1.Some? && row.scanError.Some? ==> Is(r.1.value, row.scanError.value)
    ensures r.1.Some? && row.scanError.None? ==> row.results.Err? && Is(r.1.value, row.results.error)
  {
    match row.scanError
    case Some(e) => (zero, Some(Failed(e)), [GetScanDest])
    case None =>
      match row.results
      case Err(e) => (zero, Some(Failed(e)), [GetScanDest, Results])
      case Ok(v) => (v, None, [GetScanDest, Results])
  }

  /** The calls scanning `rows` one after another makes on the request. */
  function RowCalls<T>(rows: seq<Row<T>>): seq<Call> {
    if rows == [] then [] else RowCalls(rows[..|rows| - 1]) + ScanCalls(rows[|rows| - 1])
  }

  /** Scanning rows asks for the destinations once per row, asks for the
      results at most once per row, and never asks for the arguments. */
  lemma {:induction false} RowCallsCounts<T>(rows: seq<Row<T>>)
    ensures multiset(RowCalls(rows))[GetScanDest] == |rows|
    ensures multiset(RowCalls(rows))[Results] <= |rows|
    ensures multiset(RowCalls(rows))[GetArgs] == 0
  {
    if rows != [] {
      RowCallsCounts(rows[..|rows| - 1]);
      assert multiset(RowCalls(rows)) == multiset(RowCalls(rows[..|rows| - 1])) + multiset(ScanCalls(rows[|rows| - 1]));
    }
  }

  /** A row that scans and yields a result. */
  predicate RowOk<T>(row: Row<T>) {
    row.scanError.None? && row.results.Ok?
  }

  /** A row whose scan or results fail. */
  predicate RowFails<T>(row: Row<T>) {
    !RowOk(row)
  }

  /** The row results of rows that are all fine, in row order. */
  function Values<T>(rows: seq<Row<T>>): (r: seq<T>)
    requires forall i :: 0 <= i < |rows| ==> RowOk(rows[i])
  {
    if rows == [] then []
    else
      assert RowOk(rows[|rows| - 1]);
      Values(rows[..|rows| - 1]) + [rows[|rows| - 1].results.value]
  }

  /** One result per row, each the row's own. */
  lemma {:induction false} ValuesInOrder<T>(rows: seq<Row<T>>)
    requires forall i :: 0 <= i < |rows| ==> RowOk(rows[i])
    ensures |Values(rows)| == |rows|
    ensures forall i :: 0 <= i < |rows| ==> Values(rows)[i] == rows[i].results.value
  {
    if rows != [] {
      var init := rows[..|rows| - 1];
      ValuesInOrder(init);
      forall i | 0 <= i < |init| ensures init[i] == rows[i] {
      }
    }
  }

  // ---------------------------------------------------------------------------
  // query, queryRow, exec
  // ---------------------------------------------------------------------------

  /** The first element `keep` accepts is the one that comes after only
      rejected ones. */
  lemma FirstAt<T>(xs: seq<T>, keep: T -> bool, i: nat)
    requires i < |xs| && keep(xs[i])
    requires forall j :: 0 <= j < i ==> !keep(xs[j])
    ensures First(xs, keep) == Some(i)
  {
  }

  /** Scanning one more row extends the calls by that row's calls. */
  lemma RowCallsStep<T>(rows: seq<Row<T>>, i: nat)
    requires i < |rows|
    ensures RowCalls(rows[..i + 1]) == RowCalls(rows[..i]) + ScanCalls(rows[i])
  {
    assert rows[..i + 1][..i] == rows[..i];
  }

  /** Go's `append` on a slice that may be nil. */
  function Append<T>(s: Option<seq<T>>, x: T): Option<seq<T>> {
    Some((if s.Some? then s.value else []) + [x])
  }

  /** The scanning loop of `query`: scans the rows in order, collecting
      their results, and stops at the first row that fails, returning a nil
      result and that row's error wrapped as `RowResults`. With no rows the
      result is a nil slice (None). `calls` lists the calls made on the
      request. */
  method ScanRows<T>(rows: seq<Row<T>>, zero: T) returns (res: Option<seq<T>>, err: Option<Error>, calls: seq<Call>)
    ensures match First(rows, RowFails)
      case Some(i) =>
        res.None? && err == Some(RowResults(ScanRow(rows[i], zero).1.value)) && calls == RowCalls(rows[..i + 1])
      case None =>
        err.None? && res == (if rows == [] then None else Some(Values(rows))) && calls == RowCalls(rows)
  {
    res, calls := None, [];
    for i := 0 to |rows|
      invariant forall j :: 0 <= j < i ==> RowOk(rows[j])
      invariant res == if i == 0 then None else Some(Values(rows[..i]))
      invariant calls == RowCalls(rows[..i])
    {
      var (v, rowErr, scanCalls) := ScanRow(rows[i], zero);
      RowCallsStep(rows, i);
      assert rows[..i + 1][..i] == rows[..i];
      calls := calls + scanCalls;
      if rowErr.Some? {
        FirstAt(rows, RowFails, i);
        return None, Some(RowResults(rowErr.value)), calls;
      }
      res := Append(res, v);
    }
    assert rows[..|rows|] == rows;
    assert First(rows, RowFails).None?;
    return res, None, calls;
  }

  /** `query`: renders the template with the request, asks the request for
      its arguments (`args` is what `GetArgs` returns), runs the text with
      them (`db` gives the database's answer), and scans every row as
      `ScanRows` does. A template failure and a database failure each give a
      nil result and their own error. `calls` lists the calls made on the
      request, in order. */
  method Query<D, A, T>(tmpl: Template<D>, req: D, args: seq<A>, db: (string, seq<A>) -> Result<seq<Row<T>>>, zero: T)
    returns (res: Option<seq<T>>, err: Option<Error>, calls: seq<Call>)
    ensures tmpl.render(req).None? ==> res.None? && err == Some(ExecuteTemplate(ExecError(tmpl.name))) && calls == []
    ensures tmpl.render(req).Some? && db(tmpl.render(req).value, args).Err? ==>
      res.None? && err == Some(SQLError(db(tmpl.render(req).value, args).error)) && calls == [GetArgs]
    ensures tmpl.render(req).Some? && db(tmpl.render(req).value, args).Ok? ==>
      var rows := db(tmpl.render(req).value, args).value;
      match First(rows, RowFails)
      case Some(i) =>
        res.None? && err == Some(RowResults(ScanRow(rows[i], zero).1.value)) && calls == [GetArgs] + RowCalls(rows[..i + 1])
      case None =>
        err.None? && res == (if rows == [] then None else Some(Values(rows))) && calls == [GetArgs] + RowCalls(rows)
  {
    var (text, execErr) := Execute(tmpl, req);
    if execErr.Some? {
      return None, Some(ExecuteTemplate(execErr.value)), [];
    }
    var answer := db(text, args);
    if answer.Err? {
      return None, Some(SQLError(answer.error)), [GetArgs];
    }
    var scanCalls;
    res, err, scanCalls := ScanRows(answer.value, zero);
    calls := [GetArgs] + scanCalls;
  }

  /** `queryRow`: like `query`, but scans the first row only and returns its
      result, or the zero value with the error. A statement that yields no
      row gives `NoRows`. The calls made on the request come last. */
  function QueryRow<D, A, T>(tmpl: Template<D>, req: D, args: seq<A>, db: (string, seq<A>) -> Result<seq<Row<T>>>, zero: T)
    : (r: (T, Option<Error>, seq<Call>))
    ensures r.1.Some? ==> r.0 == zero
    ensures tmpl.render(req).None? ==> r.1 == Some(ExecuteTemplate(ExecError(tmpl.name))) && r.2 == []
    ensures tmpl.render(req).Some? && db(tmpl.render(req).value, args).Err? ==>
      r.1 == Some(SQLError(db(tmpl.render(req).value, args).error)) && r.2 == [GetArgs]
    ensures tmpl.render(req).Some? && db(tmpl.render(req).value, args).Ok? ==>
      var rows := db(tmpl.render(req).value, args).value;
      && (rows == [] ==> r.1 == Some(NoRows) && r.2 == [GetArgs])
      && (rows != [] ==> r == (ScanRow(rows[0], zero).0, ScanRow(rows[0], zero).1, [GetArgs] + ScanRow(rows[0], zero).2))
  {
    var (text, execErr) := Execute(tmpl, req);
    if execErr.Some? then (zero, Some(ExecuteTemplate(execErr.value)), [])
    else
      match db(text, args)
      case Err(e) => (zero, Some(SQLError(e)), [GetArgs])
      case Ok(rows) =>
        if rows == [] then (zero, Some(NoRows), [GetArgs])
        else var (v, e, c) := ScanRow(rows[0], zero); (v, e, [GetArgs] + c)
  }

  /** The error of a statement that yields no row (Go's `sql.ErrNoRows`). */
  const NoRows := Failed("sql: no rows in result set")

  /** `exec`: renders the template and runs the text as a statement with the
      request's arguments. The driver's result, or nil with the template
      failure or the `SQLError`; the arguments are asked for only when the
      template renders. */
  function Exec<D, A, R>(tmpl: Template<D>, req: D, args: seq<A>, db: (string, seq<A>) -> Result<R>)
    : (r: (Option<R>, Option<Error>, seq<Call>))
    ensures r.0.Some? <==> r.1.None?
    ensures r.2 == if tmpl.render(req).Some? then [GetArgs] else []
    ensures tmpl.render(req).None? ==> r.1 == Some(ExecuteTemplate(ExecError(tmpl.name)))
    ensures tmpl.render(req).Some? ==>
      var answer := db(tmpl.render(req).value, args);
      && (answer.Err? ==> r.1 == Some(SQLError(answer.error)))
      && (answer.Ok? ==> r.0 == Some(answer.value))
  {
    var (text, execErr) := Execute(tmpl, req);
    if execErr.Some? then (None, Some(ExecuteTemplate(execErr.value)), [])
    else
      match db(text, args)
      case Err(e) => (None, Some(SQLError(e)), [GetArgs])
      case Ok(v) => (Some(v), None, [GetArgs])
  }
}
