/**
 * The data helpers of the dashboard (client/streamlit_app.py): resolving a
 * column among header aliases, coercing a column to numbers, the global
 * range of a column across several tables, and the cleaning step that
 * removes Z-score outliers over the numeric columns and moves `Time` to
 * the front.
 */
module StreamlitApp {

  import opened Wrappers
  import opened Frames
  import opened ZScore
  import Numbers

  // ---------------------------------------------------------------------
  // find_existing_col

  /** Header spellings of the three measured quantities, in priority order. */
  const TempAliases: seq<string> := ["Temperature (C)", "Temperature (°C)", "Temperature", "Temp (C)", "Temperature (c)"]
  const OdoAliases: seq<string> := ["ODO (mg/L)", "ODO mg/L", "ODO", "ODO_mg_L"]
  const PhAliases: seq<string> := ["pH", "PH"]

  /** Some table has a column called `name`. */
  predicate InAny(dfs: seq<Table>, name: string)
  {
    exists d <- dfs :: name in d.columns
  }

  /** The first alias, in alias order, that is a column of any of the tables. */
  function FindExistingCol(dfs: seq<Table>, aliases: seq<string>): (r: Option<string>)
    ensures r.None? <==> forall a <- aliases :: !InAny(dfs, a)
    ensures r.Some? ==> exists k | 0 <= k < |aliases| ::
      aliases[k] == r.value && InAny(dfs, r.value) && forall j | 0 <= j < k :: !InAny(dfs, aliases[j])
  {
    if aliases == [] then None
    else if InAny(dfs, aliases[0]) then Some(aliases[0])
    else
      var r := FindExistingCol(dfs, aliases[1..]);
      assert forall a <- aliases :: a == aliases[0] || a in aliases[1..];
      if r.Some? then
        var k :| 0 <= k < |aliases[1..]| && aliases[1..][k] == r.value && InAny(dfs, r.value) &&
          forall j | 0 <= j < k :: !InAny(dfs, aliases[1..][j]);
        assert aliases[k + 1] == r.value;
        assert forall j | 1 <= j < k + 1 :: aliases[j] == aliases[1..][j - 1];
        r
      else r
  }

  /** Only which columns the tables have matters, not the order of the tables or repetitions. */
  lemma {:induction false} FindExistingColIgnoresTableOrder(dfs1: seq<Table>, dfs2: seq<Table>, aliases: seq<string>)
    requires forall d :: d in dfs1 <==> d in dfs2
    ensures FindExistingCol(dfs1, aliases) == FindExistingCol(dfs2, aliases)
  {
    if aliases != [] {
      assert InAny(dfs1, aliases[0]) <==> InAny(dfs2, aliases[0]);
      FindExistingColIgnoresTableOrder(dfs1, dfs2, aliases[1..]);
    }
  }

  /** The preferred spelling wins as soon as one table uses it, whatever the others use. */
  lemma PreferredAliasWins(dfs: seq<Table>)
    ensures InAny(dfs, "Temperature (C)") ==> FindExistingCol(dfs, TempAliases) == Some("Temperature (C)")
    ensures InAny(dfs, "ODO (mg/L)") ==> FindExistingCol(dfs, OdoAliases) == Some("ODO (mg/L)")
    ensures InAny(dfs, "pH") ==> FindExistingCol(dfs, PhAliases) == Some("pH")
    ensures !InAny(dfs, "pH") && InAny(dfs, "PH") ==> FindExistingCol(dfs, PhAliases) == Some("PH")
  {
  }

  // ---------------------------------------------------------------------
  // numeric_series and global_min_max

  /** `pd.to_numeric(..., errors="coerce")` on one cell: `None` stands for NaN. */
  function ToNumeric(c: Cell): (r: Option<real>)
    ensures c.Num? ==> r == Some(c.x)
    ensures c.Missing? ==> r == None
    ensures c.Text? ==> r == Numbers.ParseFloat(c.s)
  {
    match c
    case Num(x) => Some(x)
    case Text(s) => Numbers.ParseFloat(s)
    case Missing => None
  }

  /** The coerced column, or the empty series when the table lacks it. */
  function NumericSeries(t: Table, col: string): (r: seq<Option<real>>)
    ensures col !in t.columns ==> r == []
    ensures col in t.columns ==>
      |r| == |t.rows| && forall i | 0 <= i < |r| :: r[i] == ToNumeric(Get(t.rows[i], col))
  {
    if col !in t.columns then []
    else seq(|t.rows|, i requires 0 <= i < |t.rows| => ToNumeric(Get(t.rows[i], col)))
  }

  /** `Series.dropna()`: the present values. */
  function Dropna(s: seq<Option<real>>): (r: seq<real>)
    ensures forall x :: x in r <==> Some(x) in s
    ensures |r| <= |s|
  {
    if s == [] then []
    else
      var n := |s| - 1;
      assert s == s[..n] + [s[n]];
      Dropna(s[..n]) + (match s[n] case Some(x) => [x] case None => [])
  }

  /** The `vals` list after the loop over the first tables: each table's present values, table after table. */
  function Collected(dfs: seq<Table>, col: string): seq<real>
  {
    if dfs == [] then []
    else
      var n := |dfs| - 1;
      Collected(dfs[..n], col) + (if col in dfs[n].columns then Dropna(NumericSeries(dfs[n], col)) else [])
  }

  /** `v` is a value that some table holding `col` has there, after coercion. */
  predicate ObservedValue(dfs: seq<Table>, col: string, v: real)
  {
    exists d <- dfs :: Some(v) in NumericSeries(d, col)
  }

  /** The collected values are exactly the observed ones; tables without the column contribute none. */
  lemma {:induction false} CollectedMembers(dfs: seq<Table>, col: string)
    ensures forall v :: v in Collected(dfs, col) <==> ObservedValue(dfs, col, v)
  {
    if dfs != [] {
      var n := |dfs| - 1;
      CollectedMembers(dfs[..n], col);
      assert forall d <- dfs :: d in dfs[..n] || d == dfs[n];
      assert forall d <- dfs[..n] :: d in dfs;
    }
  }

  function MinOf(xs: seq<real>): (r: real)
    requires |xs| > 0
    ensures r in xs && forall x <- xs :: r <= x
  {
    if |xs| == 1 then xs[0]
    else
      var n := |xs| - 1;
      var m := MinOf(xs[..n]);
      assert forall x <- xs :: x in xs[..n] || x == xs[n];
      if xs[n] < m then xs[n] else m
  }

  function MaxOf(xs: seq<real>): (r: real)
    requires |xs| > 0
    ensures r in xs && forall x <- xs :: x <= r
  {
    if |xs| == 1 then xs[0]
    else
      var n := |xs| - 1;
      var m := MaxOf(xs[..n]);
      assert forall x <- xs :: x in xs[..n] || x == xs[n];
      if xs[n] > m then xs[n] else m
  }

  /**
   * The range of `col` over all tables: `(None, None)` when no table holds
   * a value there, otherwise the least and the greatest observed value.
   */
  method GlobalMinMax(dfs: seq<Table>, col: string) returns (lo: Option<real>, hi: Option<real>)
    ensures lo.None? <==> hi.None?
    ensures lo.None? <==> forall v :: !ObservedValue(dfs, col, v)
    ensures lo.Some? ==> ObservedValue(dfs, col, lo.value) && ObservedValue(dfs, col, hi.value)
    ensures lo.Some? ==> forall v :: ObservedValue(dfs, col, v) ==> lo.value <= v <= hi.value
  {
    var vals: seq<real> := [];
    for i := 0 to |dfs|
      invariant vals == Collected(dfs[..i], col)
    {
      assert dfs[..i + 1][..i] == dfs[..i];
      if col in dfs[i].columns {
        var s := Dropna(NumericSeries(dfs[i], col));
        if s != [] {
          vals := vals + s;
        }
      }
    }
    assert dfs[..|dfs|] == dfs;
    CollectedMembers(dfs, col);
    if vals == [] {
      return None, None;
    }
    lo := Some(MinOf(vals));
    hi := Some(MaxOf(vals));
  }

  // ---------------------------------------------------------------------
  // clean

  /** The columns `select_dtypes(include='number')` keeps, in table order. */
  function NumericColumns(t: Table): (r: seq<string>)
    ensures forall c :: c in r <==> c in t.columns && NumericColumn(t.rows, c)
  {
    NumericAmong(t.columns, t.rows)
  }

  function NumericAmong(cols: seq<string>, rows: seq<Row>): (r: seq<string>)
    ensures forall c :: c in r <==> c in cols && NumericColumn(rows, c)
  {
    if cols == [] then []
    else
      var n := |cols| - 1;
      assert cols == cols[..n] + [cols[n]];
      NumericAmong(cols[..n], rows) + (if NumericColumn(rows, cols[n]) then [cols[n]] else [])
  }

  /** The outlier mask of the cleaning step, over every numeric column. */
  function CleanMask(t: Table): (mask: seq<bool>)
    ensures |mask| == |t.rows|
  {
    OutlierMask(t.rows, NumericColumns(t))
  }

  /** `df[~outliers]`. */
  function CleanedRows(t: Table): (r: seq<Row>)
    ensures |r| == |t.rows| - Count(CleanMask(t), true)
  {
    CountSplit(CleanMask(t));
    Select(t.rows, CleanMask(t), false)
  }

  /**
   * With `sigma(c)` the population standard deviation of each numeric
   * column, a row is removed exactly when some numeric column holds a value
   * whose |z| exceeds 3.
   */
  lemma CleanMaskMeaning(t: Table, i: nat, sigma: string -> real)
    requires i < |t.rows| && StdDevs(t.rows, NumericColumns(t), sigma)
    ensures CleanMask(t)[i] <==>
      exists c ::
        && c in t.columns && NumericColumn(t.rows, c)
        && NumAt(t.rows[i], c).Some? && |ColumnValues(t.rows, c)| > 0 && sigma(c) > 0.0
        && Abs(NumAt(t.rows[i], c).value - Mean(ColumnValues(t.rows, c))) / sigma(c) > Threshold
  {
    MaskMeaning(t.rows, NumericColumns(t), i, sigma);
  }

  /** The cleaned rows are exactly the unflagged rows, in their original order. */
  lemma CleanedRowsExact(t: Table)
    ensures var mask := CleanMask(t);
      var kept := CleanedRows(t);
      && |kept| == Count(mask, false)
      && (forall j | 0 <= j < |kept| ::
           Positions(mask, false)[j] < |t.rows| && kept[j] == t.rows[Positions(mask, false)[j]])
      && (forall j, k | 0 <= j < k < |kept| :: Positions(mask, false)[j] < Positions(mask, false)[k])
      && (forall i | 0 <= i < |t.rows| :: !mask[i] <==> i in Positions(mask, false))
  {
    SelectAt(t.rows, CleanMask(t), false);
    PositionsExact(CleanMask(t), false);
  }

  /** The column list `s` with every occurrence of `x` removed, the others in order. */
  function RemoveAll(s: seq<string>, x: string): (r: seq<string>)
    ensures forall y :: y in r <==> y in s && y != x
  {
    if s == [] then []
    else
      var n := |s| - 1;
      assert s == s[..n] + [s[n]];
      RemoveAll(s[..n], x) + (if s[n] == x then [] else [s[n]])
  }

  /** Removal drops every copy of `x` and keeps the count of every other name. */
  lemma {:induction false} RemoveAllMultiset(s: seq<string>, x: string)
    ensures multiset(RemoveAll(s, x)) == multiset(s)[x := 0]
  {
    if s != [] {
      var n := |s| - 1;
      RemoveAllMultiset(s[..n], x);
      assert s == s[..n] + [s[n]];
    }
  }

  /** The column order after `pop("Time")` and `insert(0, "Time", ...)`. */
  function TimeFirst(cols: seq<string>): seq<string>
  {
    ["Time"] + RemoveAll(cols, "Time")
  }

  /**
   * With distinct column names, moving `Time` to the front puts it first
   * and keeps the other columns in their relative order.
   */
  lemma TimeFirstOrder(cols: seq<string>, k: nat)
    requires Distinct(cols) && k < |cols| && cols[k] == "Time"
    ensures TimeFirst(cols) == ["Time"] + cols[..k] + cols[k + 1..]
    ensures Distinct(TimeFirst(cols))
    ensures multiset(TimeFirst(cols)) == multiset(cols)
  {
    RemoveDistinctAt(cols, k);
    assert cols == cols[..k] + [cols[k]] + cols[k + 1..];
    DistinctRemoveAll(cols, "Time");
    RemoveAllMultiset(cols, "Time");
    var rest := RemoveAll(cols, "Time");
    forall i, j | 0 <= i < j < |TimeFirst(cols)| ensures TimeFirst(cols)[i] != TimeFirst(cols)[j] {
      if i == 0 {
        assert TimeFirst(cols)[j] == rest[j - 1];
      } else {
        assert TimeFirst(cols)[i] == rest[i - 1] && TimeFirst(cols)[j] == rest[j - 1];
      }
    }
  }

  lemma {:induction false} RemoveDistinctAt(s: seq<string>, k: nat)
    requires Distinct(s) && k < |s|
    ensures RemoveAll(s, s[k]) == s[..k] + s[k + 1..]
  {
    var n := |s| - 1;
    var x := s[k];
    var front := s[..n];
    assert RemoveAll(s, x) == RemoveAll(front, x) + (if s[n] == x then [] else [s[n]]);
    if k == n {
      assert forall i | 0 <= i < n :: front[i] != x;
      RemoveAbsent(front, x);
      assert s[k + 1..] == [];
    } else {
      DistinctPrefix(s, n);
      assert front[k] == x;
      RemoveDistinctAt(front, k);
      assert s[n] != x;
      RemoveDistinctAtStep(s, k);
    }
  }

  lemma RemoveDistinctAtStep(s: seq<string>, k: nat)
    requires k < |s| - 1 && s[|s| - 1] != s[k]
    requires RemoveAll(s[..|s| - 1], s[k]) == s[..|s| - 1][..k] + s[..|s| - 1][k + 1..]
    ensures RemoveAll(s, s[k]) == s[..k] + s[k + 1..]
  {
    var n := |s| - 1;
    var x := s[k];
    var front := s[..n];
    assert RemoveAll(s, x) == RemoveAll(front, x) + [s[n]];
    DropStep(s, k, RemoveAll(front, x));
  }

  lemma DropStep<T>(s: seq<T>, k: nat, a: seq<T>)
    requires k < |s| - 1
    requires a == s[..|s| - 1][..k] + s[..|s| - 1][k + 1..]
    ensures a + [s[|s| - 1]] == s[..k] + s[k + 1..]
  {
    var n := |s| - 1;
    assert s[..n][..k] == s[..k];
    assert s[..n][k + 1..] + [s[n]] == s[k + 1..];
  }

  lemma DistinctPrefix(s: seq<string>, n: nat)
    requires Distinct(s) && n <= |s|
    ensures Distinct(s[..n])
  {
    forall i, j | 0 <= i < j < n ensures s[..n][i] != s[..n][j] {
      assert s[..n][i] == s[i] && s[..n][j] == s[j];
    }
  }

  lemma {:induction false} RemoveAbsent(s: seq<string>, x: string)
    requires forall i | 0 <= i < |s| :: s[i] != x
    ensures RemoveAll(s, x) == s
  {
    if s != [] {
      var n := |s| - 1;
      RemoveAbsent(s[..n], x);
      assert s == s[..n] + [s[n]];
    }
  }

  lemma {:induction false} DistinctRemoveAll(s: seq<string>, x: string)
    requires Distinct(s)
    ensures Distinct(RemoveAll(s, x))
  {
    if s != [] {
      var n := |s| - 1;
      DistinctRemoveAll(s[..n], x);
      var front := RemoveAll(s[..n], x);
      assert forall y <- front :: y in s[..n];
      assert s[n] !in s[..n];
    }
  }

  /** The three figures of the printed report: removed, total and remaining. */
  datatype Report = Report(removed: int, total: nat, remaining: int)

  /** The report as the f-string builds it: its "removed" figure is `totalrows - removedrows`. */
  function ReportAsWritten(c: RowCounts): (r: Report)
    ensures r.removed == c.total - c.removed
  {
    Report(c.total - c.removed, c.total, c.remaining)
  }

  /** The "removed" figure as written is the number of rows kept, and is right only when exactly half the rows are removed. */
  lemma ReportAsWrittenShowsRemaining(c: RowCounts)
    requires c.removed + c.remaining == c.total
    ensures ReportAsWritten(c).removed == c.remaining
    ensures ReportAsWritten(c).removed == c.removed <==> 2 * c.removed == c.total
  {
  }

  /** Ten rows with one outlier: the report claims nine were removed. */
  lemma ReportAsWrittenCounterexample()
    ensures var mask := [true, false, false, false, false, false, false, false, false, false];
      CountRows(mask).removed == 1 && ReportAsWritten(CountRows(mask)).removed == 9
  {
    var mask := [true, false, false, false, false, false, false, false, false, false];
    assert Count(mask, true) == Count(mask[..9], true) + 0;
    assert mask[..9][..1] == [true];
    CountAllFalse(mask[1..]);
    CountConcat([true], mask[1..], true);
    assert [true] + mask[1..] == mask;
  }

  lemma {:induction false} CountAllFalse(mask: seq<bool>)
    requires forall i | 0 <= i < |mask| :: !mask[i]
    ensures Count(mask, true) == 0
  {
    if mask != [] {
      CountAllFalse(mask[..|mask| - 1]);
    }
  }

  lemma {:induction false} CountConcat(a: seq<bool>, b: seq<bool>, v: bool)
    ensures Count(a + b, v) == Count(a, v) + Count(b, v)
  {
    if b != [] {
      var n := |b| - 1;
      assert (a + b)[..|a + b| - 1] == a + b[..n];
      CountConcat(a, b[..n], v);
    } else {
      assert a + b == a;
    }
  }

  /** The report with the removed count the message means. */
  function CleanReport(c: RowCounts): (r: Report)
    ensures r.removed == c.removed && r.total == c.total && r.remaining == c.remaining
  {
    Report(c.removed, c.total, c.remaining)
  }

  /** The corrected report counts the removed rows and the rows the cleaned table keeps. */
  lemma CleanReportMatchesTable(t: Table)
    ensures var r := CleanReport(CountRows(CleanMask(t)));
      && r.removed == |Select(t.rows, CleanMask(t), true)|
      && r.remaining == |CleanedRows(t)|
      && r.total == |t.rows|
  {
  }

  /** The cleaned copy of the table, which `pop` and `insert` then change in place. */
  class DataFrame {
    var columns: seq<string>
    var rows: seq<Row>

    ghost predicate Valid()
      reads this
    {
      WellFormed(Table(columns, rows))
    }

    constructor (t: Table)
      requires WellFormed(t)
      ensures Valid() && columns == t.columns && rows == t.rows
    {
      columns := t.columns;
      rows := t.rows;
    }

    /** `DataFrame.pop(name)`: `None` stands for the `KeyError` of a missing column. */
    method Pop(name: string) returns (col: Option<seq<Cell>>)
      requires Valid()
      modifies this
      ensures Valid()
      ensures name !in old(columns) ==> col == None && columns == old(columns) && rows == old(rows)
      ensures name in old(columns) ==>
        && col == Some(ColumnOf(old(rows), name))
        && columns == RemoveAll(old(columns), name)
        && rows == DropColumn(old(rows), name)
    {
      if name !in columns {
        return None;
      }
      col := Some(ColumnOf(rows, name));
      DistinctRemoveAll(columns, name);
      columns := RemoveAll(columns, name);
      rows := DropColumn(rows, name);
    }

    /**
     * `DataFrame.insert(loc, name, values)`; `false` stands for the error
     * pandas raises on a position past the end, a duplicate name or a
     * length mismatch, in which case nothing changes.
     */
    method Insert(loc: nat, name: string, values: seq<Cell>) returns (ok: bool)
      requires Valid()
      modifies this
      ensures Valid()
      ensures ok <==> loc <= |old(columns)| && name !in old(columns) && |values| == |old(rows)|
      ensures ok ==>
        && columns == old(columns)[..loc] + [name] + old(columns)[loc..]
        && rows == AddColumn(old(rows), name, values)
      ensures !ok ==> columns == old(columns) && rows == old(rows)
    {
      if loc > |columns| || name in columns || |values| != |rows| {
        return false;
      }
      var cols := columns[..loc] + [name] + columns[loc..];
      assert Distinct(cols) by {
        assert columns == columns[..loc] + columns[loc..];
        forall i, j | 0 <= i < j < |cols| ensures cols[i] != cols[j] {
          if i < loc && j > loc {
            assert cols[j] == columns[j - 1];
          } else if i > loc {
            assert cols[i] == columns[i - 1] && cols[j] == columns[j - 1];
          }
        }
      }
      var keys := set c | c in columns;
      assert (set c | c in cols) == keys + {name} by {
        assert forall c :: c in cols <==> c in columns[..loc] || c == name || c in columns[loc..];
      }
      columns := cols;
      rows := AddColumn(rows, name, values);
      ok := true;
    }
  }

  /** The cells of column `name`, one per row. */
  function ColumnOf(rows: seq<Row>, name: string): (r: seq<Cell>)
    ensures |r| == |rows| && forall i | 0 <= i < |rows| :: r[i] == Get(rows[i], name)
  {
    seq(|rows|, i requires 0 <= i < |rows| => Get(rows[i], name))
  }

  function DropColumn(rows: seq<Row>, name: string): (r: seq<Row>)
    ensures |r| == |rows| && forall i | 0 <= i < |rows| :: r[i].Keys == rows[i].Keys - {name}
  {
    seq(|rows|, i requires 0 <= i < |rows| => rows[i] - {name})
  }

  function AddColumn(rows: seq<Row>, name: string, values: seq<Cell>): (r: seq<Row>)
    requires |values| == |rows|
    ensures |r| == |rows| && forall i | 0 <= i < |rows| :: r[i].Keys == rows[i].Keys + {name}
  {
    seq(|rows|, i requires 0 <= i < |rows| => rows[i][name := values[i]])
  }

  /** Putting back a popped column restores every row. */
  lemma PopThenInsertRestoresRows(rows: seq<Row>, name: string)
    requires forall r <- rows :: name in r
    ensures AddColumn(DropColumn(rows, name), name, ColumnOf(rows, name)) == rows
  {
    var back := AddColumn(DropColumn(rows, name), name, ColumnOf(rows, name));
    forall i | 0 <= i < |rows| ensures back[i] == rows[i] {
      assert rows[i] in rows;
    }
  }

  datatype CleanError = MissingTime

  /** The cleaned table, the row counts and the report as printed. */
  datatype Cleaned = Cleaned(frame: DataFrame, counts: RowCounts, printed: Report)

  /**
   * `clean`: remove the outlier rows, then move `Time` to the front of the
   * copy; the `KeyError` of a table without `Time` is `MissingTime`.
   */
  method Clean(df: Table) returns (r: Result<Cleaned, CleanError>)
    requires WellFormed(df)
    ensures r.Err? <==> "Time" !in df.columns
    ensures r.Ok? ==>
      && fresh(r.value.frame)
      && r.value.frame.Valid()
      && r.value.frame.columns == TimeFirst(df.columns)
      && r.value.frame.rows == CleanedRows(df)
      && r.value.counts == CountRows(CleanMask(df))
      && r.value.counts.total == |df.rows|
      && r.value.counts.remaining == |r.value.frame.rows|
      && r.value.printed == ReportAsWritten(r.value.counts)
  {
    var mask := CleanMask(df);
    var kept := Select(df.rows, mask, false);
    KeptRowsWellFormed(df, mask);
    var frame := new DataFrame(Table(df.columns, kept));
    var moved := MoveTimeFirst(frame);
    if !moved {
      return Err(MissingTime);
    }
    r := Ok(Cleaned(frame, CountRows(mask), ReportAsWritten(CountRows(mask))));
  }

  /** `moved_column = df.pop("Time")` then `df.insert(0, "Time", moved_column)`; `false` is the `KeyError`. */
  method MoveTimeFirst(frame: DataFrame) returns (moved: bool)
    requires frame.Valid()
    modifies frame
    ensures frame.Valid()
    ensures moved <==> "Time" in old(frame.columns)
    ensures moved ==> frame.columns == TimeFirst(old(frame.columns)) && frame.rows == old(frame.rows)
    ensures !moved ==> frame.columns == old(frame.columns) && frame.rows == old(frame.rows)
  {
    ghost var cols, rows := frame.columns, frame.rows;
    var column := frame.Pop("Time");
    if column.None? {
      return false;
    }
    ghost var rest := RemoveAll(cols, "Time");
    assert "Time" !in rest;
    var ok := frame.Insert(0, "Time", column.value);
    assert ok;
    assert frame.columns == TimeFirst(cols) by {
      assert rest[..0] + ["Time"] + rest[0..] == ["Time"] + rest;
    }
    assert forall row <- rows :: "Time" in row;
    PopThenInsertRestoresRows(rows, "Time");
    moved := true;
  }

  /** The rows a mask keeps form a table with the same columns. */
  lemma KeptRowsWellFormed(df: Table, mask: seq<bool>)
    requires WellFormed(df) && |mask| == |df.rows|
    ensures WellFormed(Table(df.columns, Select(df.rows, mask, false)))
  {
    var kept := Select(df.rows, mask, false);
    SelectMultiset(df.rows, mask);
    forall row <- kept ensures row in df.rows {
      assert row in multiset(kept);
      assert row in multiset(df.rows);
    }
  }
}
