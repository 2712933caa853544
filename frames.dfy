/**
 * Tables as pandas holds them: a list of column names and a list of rows,
 * each row mapping a column name to a cell.  Boolean row selection
 * (`df[mask]`, `df[~mask]`) and its properties live here, because both the
 * Flask routes and the dashboard's cleaning step use it.
 */
module Frames {

  import opened Wrappers

  /** One cell of a CSV-loaded table: a number, a text value or a missing value (NaN). */
  datatype Cell = Num(x: real) | Text(s: string) | Missing

  type Row = map<string, Cell>

  datatype Table = Table(columns: seq<string>, rows: seq<Row>)

  predicate Distinct<T(==)>(s: seq<T>)
  {
    forall i, j | 0 <= i < j < |s| :: s[i] != s[j]
  }

  /** The shape pandas guarantees: distinct column names, and every row has exactly those columns. */
  predicate WellFormed(t: Table)
  {
    && Distinct(t.columns)
    && forall r <- t.rows :: r.Keys == set c | c in t.columns
  }

  /** The cell of `row` under column `c`; a row without that column reads as missing. */
  function Get(row: Row, c: string): Cell
  {
    if c in row then row[c] else Missing
  }

  /** The numeric value of `row` under `c`, if it holds one. */
  function NumAt(row: Row, c: string): (r: Option<real>)
    ensures r.Some? <==> c in row && row[c].Num?
  {
    if c in row && row[c].Num? then Some(row[c].x) else None
  }

  function Min(a: int, b: int): int
  {
    if a <= b then a else b
  }

  /** Number of positions of `mask` that hold `b`. */
  function Count(mask: seq<bool>, b: bool): (n: nat)
    ensures n <= |mask|
  {
    if mask == [] then 0
    else Count(mask[..|mask| - 1], b) + (if mask[|mask| - 1] == b then 1 else 0)
  }

  /** Boolean row selection: the elements of `xs` whose mask entry is `keep`, in order. */
  function Select<T>(xs: seq<T>, mask: seq<bool>, keep: bool): (r: seq<T>)
    requires |mask| == |xs|
    ensures |r| == Count(mask, keep)
  {
    if xs == [] then []
    else
      var n := |xs| - 1;
      Select(xs[..n], mask[..n], keep) + (if mask[n] == keep then [xs[n]] else [])
  }

  /** The indices of `mask` that hold `b`, in increasing order. */
  function Positions(mask: seq<bool>, b: bool): (p: seq<nat>)
    ensures |p| == Count(mask, b)
  {
    if mask == [] then []
    else
      var n := |mask| - 1;
      Positions(mask[..n], b) + (if mask[n] == b then [n] else [])
  }

  /**
   * The inverse of selection: rebuilds a sequence by taking the next element
   * of `kept` at each `false` of the mask and the next element of `dropped`
   * at each `true`.
   */
  function Interleave<T>(mask: seq<bool>, kept: seq<T>, dropped: seq<T>): (r: seq<T>)
    requires |kept| == Count(mask, false) && |dropped| == Count(mask, true)
    ensures |r| == |mask|
  {
    if mask == [] then []
    else
      var n := |mask| - 1;
      if mask[n] then Interleave(mask[..n], kept, dropped[..|dropped| - 1]) + [dropped[|dropped| - 1]]
      else Interleave(mask[..n], kept[..|kept| - 1], dropped) + [kept[|kept| - 1]]
  }

  lemma {:induction false} CountSplit(mask: seq<bool>)
    ensures Count(mask, true) + Count(mask, false) == |mask|
  {
    if mask != [] {
      CountSplit(mask[..|mask| - 1]);
    }
  }

  /** Every listed position is an index of `mask` that holds `b`. */
  lemma {:induction false} PositionsInRange(mask: seq<bool>, b: bool)
    ensures forall j | 0 <= j < |Positions(mask, b)| ::
      Positions(mask, b)[j] < |mask| && mask[Positions(mask, b)[j]] == b
  {
    if mask != [] {
      var n := |mask| - 1;
      var front := mask[..n];
      PositionsInRange(front, b);
      var p := Positions(front, b);
      var tail: seq<nat> := if mask[n] == b then [n] else [];
      assert Positions(mask, b) == p + tail;
      forall j | 0 <= j < |p + tail| ensures (p + tail)[j] < |mask| && mask[(p + tail)[j]] == b {
        if j < |p| {
          assert (p + tail)[j] == p[j] && front[p[j]] == mask[p[j]];
        }
      }
    }
  }

  /**
   * `Positions(mask, b)` lists exactly the indices holding `b`, each once and
   * in increasing order.
   */
  lemma {:induction false} PositionsExact(mask: seq<bool>, b: bool)
    ensures forall j | 0 <= j < |Positions(mask, b)| ::
      Positions(mask, b)[j] < |mask| && mask[Positions(mask, b)[j]] == b
    ensures forall j, k | 0 <= j < k < |Positions(mask, b)| ::
      Positions(mask, b)[j] < Positions(mask, b)[k]
    ensures forall i | 0 <= i < |mask| :: mask[i] == b <==> i in Positions(mask, b)
  {
    PositionsInRange(mask, b);
    if mask != [] {
      var n := |mask| - 1;
      var front := mask[..n];
      PositionsExact(front, b);
      var p := Positions(front, b);
      var tail: seq<nat> := if mask[n] == b then [n] else [];
      assert Positions(mask, b) == p + tail;
      forall i | 0 <= i < |mask| ensures mask[i] == b <==> i in p + tail {
        if i < n {
          assert front[i] == mask[i];
          assert i !in tail;
        }
      }
    }
  }

  /** The `j`-th selected element is the element at the `j`-th position holding `keep`. */
  lemma {:induction false} SelectAt<T>(xs: seq<T>, mask: seq<bool>, keep: bool)
    requires |mask| == |xs|
    ensures forall j | 0 <= j < |Select(xs, mask, keep)| ::
      Positions(mask, keep)[j] < |xs| && Select(xs, mask, keep)[j] == xs[Positions(mask, keep)[j]]
  {
    PositionsExact(mask, keep);
    if xs != [] {
      var n := |xs| - 1;
      SelectAt(xs[..n], mask[..n], keep);
      PositionsExact(mask[..n], keep);
    }
  }

  /** Selecting from a sequence extended by one element. */
  lemma SelectSnoc<T>(xs: seq<T>, mask: seq<bool>, x: T, b: bool, keep: bool)
    requires |mask| == |xs|
    ensures Select(xs + [x], mask + [b], keep) == Select(xs, mask, keep) + (if b == keep then [x] else [])
  {
    assert (xs + [x])[..|xs|] == xs;
    assert (mask + [b])[..|mask|] == mask;
  }

  /** Interleaving by a mask extended by one entry takes one more element from the matching side. */
  lemma InterleaveSnoc<T>(mask: seq<bool>, b: bool, kept: seq<T>, dropped: seq<T>, x: T)
    requires |kept| == Count(mask, false) && |dropped| == Count(mask, true)
    ensures b ==> Interleave(mask + [b], kept, dropped + [x]) == Interleave(mask, kept, dropped) + [x]
    ensures !b ==> Interleave(mask + [b], kept + [x], dropped) == Interleave(mask, kept, dropped) + [x]
  {
    assert (mask + [b])[..|mask|] == mask;
    assert (kept + [x])[..|kept|] == kept;
    assert (dropped + [x])[..|dropped|] == dropped;
  }

  /**
   * Selecting the `false` rows and the `true` rows and interleaving them back
   * by the same mask gives the input: the two selections partition it and
   * keep its order.
   */
  lemma {:induction false} InterleaveSelect<T>(xs: seq<T>, mask: seq<bool>)
    requires |mask| == |xs|
    ensures Interleave(mask, Select(xs, mask, false), Select(xs, mask, true)) == xs
  {
    if xs != [] {
      var n := |xs| - 1;
      var front, m, x, b := xs[..n], mask[..n], xs[n], mask[n];
      assert xs == front + [x] && mask == m + [b];
      InterleaveSelect(front, m);
      var kept, dropped := Select(front, m, false), Select(front, m, true);
      SelectSnoc(front, m, x, b, false);
      SelectSnoc(front, m, x, b, true);
      InterleaveSnoc(m, b, kept, dropped, x);
      if b {
        assert Select(xs, mask, false) == kept;
        assert Select(xs, mask, true) == dropped + [x];
      } else {
        assert Select(xs, mask, false) == kept + [x];
        assert Select(xs, mask, true) == dropped;
      }
    }
  }

  /** As multisets, the two selections add up to the input. */
  lemma {:induction false} SelectMultiset<T>(xs: seq<T>, mask: seq<bool>)
    requires |mask| == |xs|
    ensures multiset(Select(xs, mask, false)) + multiset(Select(xs, mask, true)) == multiset(xs)
  {
    if xs != [] {
      var n := |xs| - 1;
      var front, m, x, b := xs[..n], mask[..n], xs[n], mask[n];
      assert xs == front + [x] && mask == m + [b];
      SelectMultiset(front, m);
      SelectSnoc(front, m, x, b, false);
      SelectSnoc(front, m, x, b, true);
      assert multiset(xs) == multiset(front) + multiset{x};
    }
  }

  /** The column holds only numbers and missing values, so pandas gives it a numeric type. */
  predicate NumericColumn(rows: seq<Row>, c: string)
  {
    forall r: Row <- rows :: c in r ==> !r[c].Text?
  }

  /** `totalrows`, `removedrows` and `remainingrows` of a cleaning step (`outliers.sum()` and the difference). */
  datatype RowCounts = RowCounts(total: nat, removed: nat, remaining: int)

  function CountRows(mask: seq<bool>): (r: RowCounts)
    ensures r.removed + r.remaining == r.total == |mask|
    ensures r.removed == Count(mask, true) && r.remaining == Count(mask, false)
  {
    CountSplit(mask);
    RowCounts(|mask|, Count(mask, true), |mask| - Count(mask, true))
  }

  /** A mask without a `true` keeps the whole input and drops nothing. */
  lemma {:induction false} SelectNothingFlagged<T>(xs: seq<T>, mask: seq<bool>)
    requires |mask| == |xs|
    requires forall i | 0 <= i < |mask| :: !mask[i]
    ensures Select(xs, mask, false) == xs
    ensures Select(xs, mask, true) == []
  {
    if xs != [] {
      var n := |xs| - 1;
      SelectNothingFlagged(xs[..n], mask[..n]);
      assert xs == xs[..n] + [xs[n]];
    }
  }

  /** The first `Min(k, |xs|)` elements, as `DataFrame.head(k)` returns them. */
  function Head<T>(xs: seq<T>, k: nat): (r: seq<T>)
    ensures |r| == Min(k, |xs|)
    ensures forall i | 0 <= i < |r| :: r[i] == xs[i]
  {
    xs[..Min(k, |xs|)]
  }

}
