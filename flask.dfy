/**
 * The Flask routes of api/flaskWebApp.py over a table already read from
 * CSV: `/clean` returns the first ten rows, `/cleandataset/load` removes the
 * rows whose Temperature, pH or ODO value has |z| > 3 and upserts the rest
 * into the store, and `/outliers` returns those flagged rows and their
 * number.  Both routes compute the same mask, so their answers partition
 * the table.
 */
module FlaskWebApp {

  import opened Wrappers
  import opened Frames
  import opened ZScore
  import MongoDB

  /** The three columns both routes test. */
  const OutlierColumns: seq<string> := ["Temperature (C)", "pH", "ODO (mg/L)"]

  /** The number of rows `/clean` returns. */
  const HeadRows: nat := 10

  /**
   * Why `df[outlier_columns]` and its mean fail: a column that is not in the
   * table (`KeyError`), or one holding text, whose mean pandas cannot take.
   */
  datatype MaskError = MissingColumn(column: string) | NonNumericColumn(column: string)

  /** The first of `cols` that is not a column of the table. */
  function FirstMissing(columns: seq<string>, cols: seq<string>): (r: Option<string>)
    ensures r.None? <==> forall c <- cols :: c in columns
    ensures r.Some? ==> r.value in cols && r.value !in columns
  {
    if cols == [] then None
    else if cols[0] !in columns then Some(cols[0])
    else
      assert forall c <- cols :: c == cols[0] || c in cols[1..];
      FirstMissing(columns, cols[1..])
  }

  /** The first of `cols` that holds text. */
  function FirstText(rows: seq<Row>, cols: seq<string>): (r: Option<string>)
    ensures r.None? <==> forall c <- cols :: NumericColumn(rows, c)
    ensures r.Some? ==> r.value in cols && !NumericColumn(rows, r.value)
  {
    if cols == [] then None
    else if !NumericColumn(rows, cols[0]) then Some(cols[0])
    else
      assert forall c <- cols :: c == cols[0] || c in cols[1..];
      FirstText(rows, cols[1..])
  }

  /**
   * Why the z-score computation fails: `df[cols]` raises `KeyError` when any
   * of `cols` is absent, before anything is computed; only with all of them
   * present can `.mean()` fail on a column holding text.
   */
  function FirstUnusable(t: Table, cols: seq<string>): (r: Option<MaskError>)
    ensures r.None? <==> forall c <- cols :: c in t.columns && NumericColumn(t.rows, c)
    ensures (exists c <- cols :: c !in t.columns) <==> r.Some? && r.value.MissingColumn?
    ensures r.Some? && r.value.MissingColumn? ==> r.value.column in cols && r.value.column !in t.columns
    ensures r.Some? && r.value.NonNumericColumn? ==>
      && (forall c <- cols :: c in t.columns)
      && r.value.column in cols && !NumericColumn(t.rows, r.value.column)
  {
    match FirstMissing(t.columns, cols)
    case Some(c) => Some(MissingColumn(c))
    case None =>
      match FirstText(t.rows, cols)
      case Some(c) => Some(NonNumericColumn(c))
      case None => None
  }

  /** `(df_zscore.abs() > 3).any(axis=1)` over the three outlier columns. */
  function Outliers(t: Table): (r: Result<seq<bool>, MaskError>)
    ensures r.Ok? ==> |r.value| == |t.rows|
  {
    match FirstUnusable(t, OutlierColumns)
    case Some(e) => Err(e)
    case None => Ok(OutlierMask(t.rows, OutlierColumns))
  }

  /** `GET /clean`: `df.head(10)` as records. */
  function CleanRoute(t: Table): (r: seq<Row>)
    ensures |r| == Min(HeadRows, |t.rows|)
    ensures forall i | 0 <= i < |r| :: r[i] == t.rows[i]
  {
    Head(t.rows, HeadRows)
  }

  datatype LoadError = Mask(mask: MaskError) | Upload(upload: MongoDB.UploadError)

  /** The cleaned records the route returns, the counts it computes and the upload's outcome. */
  datatype Loaded = Loaded(records: seq<Row>, counts: RowCounts, written: MongoDB.WriteResult)

  /**
   * `GET /cleandataset/load`: the unflagged rows, in order, upserted into
   * `store` and returned.
   */
  function CleaningDataset(t: Table, store: MongoDB.Store): (r: Result<Loaded, LoadError>)
    ensures r.Ok? ==> r.value.counts.total == |t.rows| && |r.value.records| == r.value.counts.remaining
  {
    match Outliers(t)
    case Err(e) => Err(Mask(e))
    case Ok(mask) =>
      var cleaned := Select(t.rows, mask, false);
      match MongoDB.UploadMongo(store, cleaned)
      case Err(e) => Err(Upload(e))
      case Ok(w) => Ok(Loaded(cleaned, CountRows(mask), w))
  }

  /** The body of `GET /outliers`. */
  datatype OutlierReport = OutlierReport(totalOutliers: nat, outlierRows: seq<Row>)

  function PullOutliers(t: Table): (r: Result<OutlierReport, MaskError>)
    ensures r.Ok? ==> r.value.totalOutliers == |r.value.outlierRows| <= |t.rows|
  {
    match Outliers(t)
    case Err(e) => Err(e)
    case Ok(mask) =>
      var flagged := Select(t.rows, mask, true);
      Ok(OutlierReport(|flagged|, flagged))
  }

  // ---------------------------------------------------------------------
  // Properties

  /**
   * With `sigma(c)` the population standard deviation of each outlier column,
   * the mask flags a row exactly when one of the three columns holds a value
   * whose |z| = |x - mean| / sigma exceeds 3 (a zero `sigma` gives NaN, which
   * flags nothing).
   */
  lemma OutliersMeaning(t: Table, i: nat, sigma: string -> real)
    requires Outliers(t).Ok? && i < |t.rows| && StdDevs(t.rows, OutlierColumns, sigma)
    ensures Outliers(t).value[i] <==>
      exists c <- OutlierColumns ::
        && NumAt(t.rows[i], c).Some? && |ColumnValues(t.rows, c)| > 0 && sigma(c) > 0.0
        && Abs(NumAt(t.rows[i], c).value - Mean(ColumnValues(t.rows, c))) / sigma(c) > Threshold
  {
    MaskMeaning(t.rows, OutlierColumns, i, sigma);
  }

  /**
   * `/outliers` fails exactly when one of the three columns is absent or not
   * numeric; the load route fails with that column error exactly then, and
   * can otherwise still fail in the upload on a kept row without `Time`.
   */
  lemma RoutesFailOnUnusableColumns(t: Table, store: MongoDB.Store)
    ensures PullOutliers(t).Err? <==> exists c <- OutlierColumns :: c !in t.columns || !NumericColumn(t.rows, c)
    ensures (CleaningDataset(t, store).Err? && CleaningDataset(t, store).error.Mask?) <==>
      exists c <- OutlierColumns :: c !in t.columns || !NumericColumn(t.rows, c)
    ensures CleaningDataset(t, store).Err? && CleaningDataset(t, store).error.Upload? ==>
      var kept := Select(t.rows, Outliers(t).value, false);
      Outliers(t).Ok? && CleaningDataset(t, store).error.upload.index < |kept| &&
      "Time" !in kept[CleaningDataset(t, store).error.upload.index]
  {
  }

  /** Only the three outlier columns influence which rows are flagged. */
  lemma OnlyOutlierColumnsMatter(t1: Table, t2: Table)
    requires |t1.rows| == |t2.rows|
    requires forall c <- OutlierColumns :: (c in t1.columns <==> c in t2.columns)
    requires forall c <- OutlierColumns :: NumericColumn(t1.rows, c) <==> NumericColumn(t2.rows, c)
    requires forall i, c | 0 <= i < |t1.rows| && c in OutlierColumns :: NumAt(t1.rows[i], c) == NumAt(t2.rows[i], c)
    ensures Outliers(t1) == Outliers(t2)
  {
    FirstUnusableAgree(t1, t2, OutlierColumns);
    MaskDependsOnlyOnColumns(t1.rows, t2.rows, OutlierColumns);
  }

  lemma FirstUnusableAgree(t1: Table, t2: Table, cols: seq<string>)
    requires forall c <- cols :: (c in t1.columns <==> c in t2.columns)
    requires forall c <- cols :: NumericColumn(t1.rows, c) <==> NumericColumn(t2.rows, c)
    ensures FirstUnusable(t1, cols) == FirstUnusable(t2, cols)
  {
    FirstMissingAgree(t1.columns, t2.columns, cols);
    FirstTextAgree(t1.rows, t2.rows, cols);
  }

  lemma {:induction false} FirstMissingAgree(columns1: seq<string>, columns2: seq<string>, cols: seq<string>)
    requires forall c <- cols :: (c in columns1 <==> c in columns2)
    ensures FirstMissing(columns1, cols) == FirstMissing(columns2, cols)
  {
    if cols != [] {
      assert forall c <- cols[1..] :: c in cols;
      FirstMissingAgree(columns1, columns2, cols[1..]);
    }
  }

  lemma {:induction false} FirstTextAgree(rows1: seq<Row>, rows2: seq<Row>, cols: seq<string>)
    requires forall c <- cols :: NumericColumn(rows1, c) <==> NumericColumn(rows2, c)
    ensures FirstText(rows1, cols) == FirstText(rows2, cols)
  {
    if cols != [] {
      assert forall c <- cols[1..] :: c in cols;
      FirstTextAgree(rows1, rows2, cols[1..]);
    }
  }

  /**
   * An absent column wins over an earlier column holding text: with
   * "Temperature (C)" holding text and "pH" absent, the error is the
   * `KeyError` for "pH".
   */
  lemma MissingBeforeText()
    ensures var t := Table(["Temperature (C)", "ODO (mg/L)"],
      [map["Temperature (C)" := Text("warm"), "ODO (mg/L)" := Num(7.0)]]);
      Outliers(t) == Err(MissingColumn("pH"))
  {
    var t := Table(["Temperature (C)", "ODO (mg/L)"],
      [map["Temperature (C)" := Text("warm"), "ODO (mg/L)" := Num(7.0)]]);
    assert OutlierColumns[1..] == ["pH", "ODO (mg/L)"];
    assert "Temperature (C)" in t.columns;
    assert "pH" !in t.columns;
  }

  /** `/cleandataset/load` returns exactly the unflagged rows, in input order. */
  lemma LoadReturnsUnflagged(t: Table, store: MongoDB.Store)
    requires CleaningDataset(t, store).Ok?
    ensures var mask := Outliers(t).value;
      var records := CleaningDataset(t, store).value.records;
      && |records| == Count(mask, false)
      && (forall j | 0 <= j < |records| ::
           Positions(mask, false)[j] < |t.rows| && records[j] == t.rows[Positions(mask, false)[j]])
      && (forall j, k | 0 <= j < k < |records| :: Positions(mask, false)[j] < Positions(mask, false)[k])
      && (forall i | 0 <= i < |t.rows| :: !mask[i] <==> i in Positions(mask, false))
  {
    var mask := Outliers(t).value;
    SelectAt(t.rows, mask, false);
    PositionsExact(mask, false);
  }

  /** `/outliers` returns exactly the flagged rows, in input order, and `total_outliers` is their number. */
  lemma OutliersReturnsFlagged(t: Table)
    requires PullOutliers(t).Ok?
    ensures var mask := Outliers(t).value;
      var report := PullOutliers(t).value;
      && report.totalOutliers == |report.outlierRows| == Count(mask, true)
      && (forall j | 0 <= j < |report.outlierRows| ::
           Positions(mask, true)[j] < |t.rows| && report.outlierRows[j] == t.rows[Positions(mask, true)[j]])
      && (forall j, k | 0 <= j < k < |report.outlierRows| :: Positions(mask, true)[j] < Positions(mask, true)[k])
      && (forall i | 0 <= i < |t.rows| :: mask[i] <==> i in Positions(mask, true))
  {
    var mask := Outliers(t).value;
    SelectAt(t.rows, mask, true);
    PositionsExact(mask, true);
  }

  /**
   * The two routes split the table: merging their rows back by the shared
   * mask gives the input, as multisets they add up to it, and the counts
   * of the load route agree with both.
   */
  lemma RoutesPartition(t: Table, store: MongoDB.Store)
    requires CleaningDataset(t, store).Ok?
    ensures PullOutliers(t).Ok?
    ensures var mask := Outliers(t).value;
      var kept := CleaningDataset(t, store).value.records;
      var flagged := PullOutliers(t).value.outlierRows;
      var counts := CleaningDataset(t, store).value.counts;
      && Interleave(mask, kept, flagged) == t.rows
      && multiset(kept) + multiset(flagged) == multiset(t.rows)
      && counts.total == |t.rows|
      && counts.removed == PullOutliers(t).value.totalOutliers
      && counts.remaining == |kept|
  {
    var mask := Outliers(t).value;
    InterleaveSelect(t.rows, mask);
    SelectMultiset(t.rows, mask);
  }

  /** The load route stores each returned record's `Time` with the last returned record of that time; other keys keep their documents. */
  lemma LoadUpsertsCleaned(t: Table, store: MongoDB.Store)
    requires Outliers(t).Ok?
    requires forall r <- t.rows :: "Time" in r
    ensures CleaningDataset(t, store).Ok?
    ensures var loaded := CleaningDataset(t, store).value;
      && loaded.written.store.Keys == store.Keys + MongoDB.BatchTimes(loaded.records)
      && forall k <- store | k !in MongoDB.BatchTimes(loaded.records) :: loaded.written.store[k] == store[k]
  {
    var mask := Outliers(t).value;
    var cleaned := Select(t.rows, mask, false);
    SelectMultiset(t.rows, mask);
    assert forall r <- cleaned :: r in multiset(t.rows);
    MongoDB.UploadFrame(store, cleaned);
  }

  /**
   * A table of at most ten rows has no outliers: with n values no value can
   * lie more than sqrt(n - 1) population standard deviations from the mean.
   */
  lemma SmallTableHasNoOutliers(t: Table, store: MongoDB.Store)
    requires Outliers(t).Ok? && |t.rows| <= 10
    ensures PullOutliers(t) == Ok(OutlierReport(0, []))
    ensures CleaningDataset(t, store).Ok? ==> CleaningDataset(t, store).value.records == t.rows
  {
    var mask := Outliers(t).value;
    forall i | 0 <= i < |mask| ensures !mask[i] {
      forall c <- OutlierColumns ensures !CellFlagged(t.rows, c, i) {
        SmallColumnFlagsNothing(t.rows, c);
      }
    }
    SelectNothingFlagged(t.rows, mask);
  }

  /** When each of the three columns is constant or empty, nothing is an outlier and the load route keeps every row. */
  lemma DegenerateColumnsFlagNothing(t: Table, store: MongoDB.Store)
    requires Outliers(t).Ok?
    requires forall c <- OutlierColumns ::
      |ColumnValues(t.rows, c)| == 0 || Variance(ColumnValues(t.rows, c)) == 0.0
    ensures PullOutliers(t) == Ok(OutlierReport(0, []))
    ensures CleaningDataset(t, store).Ok? ==> CleaningDataset(t, store).value.records == t.rows
  {
    var mask := Outliers(t).value;
    forall i | 0 <= i < |mask| ensures !mask[i] {
      forall c <- OutlierColumns ensures !CellFlagged(t.rows, c, i) {
        DegenerateColumnFlagsNothing(t.rows, c);
      }
    }
    SelectNothingFlagged(t.rows, mask);
  }

  /**
   * Ten values with one far off, such as 1, ..., 9 and 1000: the far value
   * is still within three population standard deviations (its |z| is
   * just under 3), so `df_zscore.abs() > 3` leaves it unflagged.
   */
  lemma TenValuesWithOneFarOff()
    ensures !Exceeds([1.0, 2.0, 3.0, 4.0, 5.0, 6.0, 7.0, 8.0, 9.0, 1000.0], 1000.0)
  {
    var xs := [1.0, 2.0, 3.0, 4.0, 5.0, 6.0, 7.0, 8.0, 9.0, 1000.0];
    SmallSampleNotExceeds(xs, 9);
  }
}
