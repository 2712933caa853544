/**
 * The Z-score outlier rule shared by the Flask routes and the dashboard's
 * cleaning step: over a set of columns, compute each column's mean and
 * population standard deviation (ddof=0) over its non-missing values, and
 * flag a row when some column has |x - mean| / std > 3.
 *
 * The rule is stated without a square root: |x - mean| / std > 3 holds
 * exactly when (x - mean)^2 > 9 * variance with std > 0 (lemma
 * ExceedsIsZScore).  When std is 0 pandas computes 0/0 = NaN and NaN > 3 is
 * false; the squared form gives false there too (ZeroVarianceFlagsNothing).
 */
module ZScore {

  import opened Wrappers
  import opened Frames

  /** The cut-off |z| > 3 of both routes and of the dashboard. */
  const Threshold: real := 3.0

  /** The non-missing numeric values of column `c`, in row order. */
  function ColumnValues(rows: seq<Row>, c: string): (xs: seq<real>)
    ensures |xs| <= |rows|
  {
    if rows == [] then []
    else
      var n := |rows| - 1;
      ColumnValues(rows[..n], c) + (match NumAt(rows[n], c) case Some(x) => [x] case None => [])
  }

  function Sum(xs: seq<real>): real
  {
    if xs == [] then 0.0 else Sum(xs[..|xs| - 1]) + xs[|xs| - 1]
  }

  /** `Series.mean()`: n times the mean is the sum. */
  function Mean(xs: seq<real>): (m: real)
    requires |xs| > 0
    ensures m * |xs| as real == Sum(xs)
  {
    Sum(xs) / |xs| as real
  }

  /** The sum of the deviations x - m. */
  function Deviation(xs: seq<real>, m: real): real
  {
    if xs == [] then 0.0 else Deviation(xs[..|xs| - 1], m) + (xs[|xs| - 1] - m)
  }

  /** The sum of the squared deviations (x - m)^2. */
  function SquaredDeviation(xs: seq<real>, m: real): real
  {
    if xs == [] then 0.0
    else SquaredDeviation(xs[..|xs| - 1], m) + Sq(xs[|xs| - 1] - m)
  }

  function Sq(d: real): real
  {
    d * d
  }

  /** Population variance: the mean squared deviation from the mean (ddof=0). */
  function Variance(xs: seq<real>): (v: real)
    requires |xs| > 0
    ensures v * |xs| as real == SquaredDeviation(xs, Mean(xs))
  {
    SquaredDeviation(xs, Mean(xs)) / |xs| as real
  }

  /** `x` lies more than three population standard deviations from the mean of `xs`. */
  predicate Exceeds(xs: seq<real>, x: real): (b: bool)
    ensures b ==> |xs| > 0
  {
    |xs| > 0 && Sq(x - Mean(xs)) > Threshold * Threshold * Variance(xs)
  }

  /** Row `i` holds a value in column `c` whose |z| exceeds the threshold; a missing value never does. */
  predicate CellFlagged(rows: seq<Row>, c: string, i: nat)
    requires i < |rows|
  {
    match NumAt(rows[i], c)
    case Some(x) => Exceeds(ColumnValues(rows, c), x)
    case None => false
  }

  /** `(df_zscore.abs() > 3).any(axis=1)` at row `i`. */
  predicate RowFlagged(rows: seq<Row>, cols: seq<string>, i: nat)
    requires i < |rows|
  {
    exists c <- cols :: CellFlagged(rows, c, i)
  }

  /** The outlier mask over `cols`, one entry per row. */
  function OutlierMask(rows: seq<Row>, cols: seq<string>): (mask: seq<bool>)
    ensures |mask| == |rows|
  {
    seq(|rows|, i requires 0 <= i < |rows| => RowFlagged(rows, cols, i))
  }

  function Abs(x: real): real
  {
    if x < 0.0 then -x else x
  }

  // ---------------------------------------------------------------------
  // Column values

  /** The values of column `c` are exactly the rows' numeric cells under `c`. */
  lemma {:induction false} ColumnValuesMembers(rows: seq<Row>, c: string)
    ensures forall i | 0 <= i < |rows| && NumAt(rows[i], c).Some? ::
      NumAt(rows[i], c).value in ColumnValues(rows, c)
    ensures forall x <- ColumnValues(rows, c) ::
      exists i | 0 <= i < |rows| :: NumAt(rows[i], c) == Some(x)
  {
    if rows != [] {
      var n := |rows| - 1;
      ColumnValuesMembers(rows[..n], c);
      assert forall i | 0 <= i < n :: rows[..n][i] == rows[i];
    }
  }

  /** Which rows hold a number under `c`: the mask `ColumnValues` keeps. */
  function HasNumber(rows: seq<Row>, c: string): (m: seq<bool>)
    ensures |m| == |rows|
  {
    if rows == [] then [] else HasNumber(rows[..|rows| - 1], c) + [NumAt(rows[|rows| - 1], c).Some?]
  }

  lemma {:induction false} HasNumberAt(rows: seq<Row>, c: string)
    ensures forall i | 0 <= i < |rows| :: HasNumber(rows, c)[i] <==> NumAt(rows[i], c).Some?
  {
    if rows != [] {
      var n := |rows| - 1;
      HasNumberAt(rows[..n], c);
      assert forall i | 0 <= i < n :: rows[..n][i] == rows[i];
    }
  }

  lemma {:induction false} ColumnValuesPositions(rows: seq<Row>, c: string)
    ensures var xs, p := ColumnValues(rows, c), Positions(HasNumber(rows, c), true);
      && |xs| == |p|
      && forall j | 0 <= j < |p| :: p[j] < |rows| && NumAt(rows[p[j]], c) == Some(xs[j])
  {
    if rows != [] {
      var n := |rows| - 1;
      var m := HasNumber(rows, c);
      assert m[..n] == HasNumber(rows[..n], c);
      ColumnValuesPositions(rows[..n], c);
      var xs, p := ColumnValues(rows, c), Positions(m, true);
      var xs', p' := ColumnValues(rows[..n], c), Positions(m[..n], true);
      forall j | 0 <= j < |p'| ensures p[j] < |rows| && NumAt(rows[p[j]], c) == Some(xs[j]) {
        assert p[j] == p'[j] && xs[j] == xs'[j];
        assert rows[..n][p'[j]] == rows[p'[j]];
      }
    }
  }

  /**
   * `ColumnValues` holds every numeric cell of column `c` once, in row order:
   * its j-th value is the cell of the j-th row holding a number.  This is
   * what pandas' `mean` and `std` count.
   */
  lemma ColumnValuesAt(rows: seq<Row>, c: string)
    ensures var xs, p := ColumnValues(rows, c), Positions(HasNumber(rows, c), true);
      && |xs| == |p|
      && (forall j | 0 <= j < |p| :: p[j] < |rows| && NumAt(rows[p[j]], c) == Some(xs[j]))
      && (forall j, k | 0 <= j < k < |p| :: p[j] < p[k])
      && (forall i | 0 <= i < |rows| :: NumAt(rows[i], c).Some? <==> i in p)
  {
    ColumnValuesPositions(rows, c);
    PositionsExact(HasNumber(rows, c), true);
    HasNumberAt(rows, c);
  }

  /** Rows that agree on column `c` give the same column values. */
  lemma {:induction false} ColumnValuesAgree(rows1: seq<Row>, rows2: seq<Row>, c: string)
    requires |rows1| == |rows2|
    requires forall i | 0 <= i < |rows1| :: NumAt(rows1[i], c) == NumAt(rows2[i], c)
    ensures ColumnValues(rows1, c) == ColumnValues(rows2, c)
  {
    if rows1 != [] {
      var n := |rows1| - 1;
      ColumnValuesAgree(rows1[..n], rows2[..n], c);
    }
  }

  // ---------------------------------------------------------------------
  // Sums

  lemma {:induction false} DeviationIsSumMinusShift(xs: seq<real>, m: real)
    ensures Deviation(xs, m) == Sum(xs) - |xs| as real * m
  {
    if xs != [] {
      DeviationIsSumMinusShift(xs[..|xs| - 1], m);
    }
  }

  /** Deviations from the mean cancel out. */
  lemma DeviationFromMean(xs: seq<real>)
    requires |xs| > 0
    ensures Deviation(xs, Mean(xs)) == 0.0
  {
    DeviationIsSumMinusShift(xs, Mean(xs));
  }

  lemma {:induction false} DeviationConcat(a: seq<real>, b: seq<real>, m: real)
    ensures Deviation(a + b, m) == Deviation(a, m) + Deviation(b, m)
  {
    if b == [] {
      assert a + b == a;
    } else {
      var n := |b| - 1;
      DeviationConcat(a, b[..n], m);
      assert (a + b)[..|a + b| - 1] == a + b[..n];
    }
  }

  lemma {:induction false} SquaredDeviationConcat(a: seq<real>, b: seq<real>, m: real)
    ensures SquaredDeviation(a + b, m) == SquaredDeviation(a, m) + SquaredDeviation(b, m)
  {
    if b == [] {
      assert a + b == a;
    } else {
      var n := |b| - 1;
      SquaredDeviationConcat(a, b[..n], m);
      assert (a + b)[..|a + b| - 1] == a + b[..n];
    }
  }

  /** Every single squared deviation is bounded by their sum, and the sum is non-negative. */
  lemma {:induction false} SquaredDeviationBounds(xs: seq<real>, m: real)
    ensures SquaredDeviation(xs, m) >= 0.0
    ensures forall x <- xs :: Sq(x - m) <= SquaredDeviation(xs, m)
  {
    if xs != [] {
      var n := |xs| - 1;
      SquaredDeviationBounds(xs[..n], m);
      Square(xs[n] - m);
      assert Sq(xs[n] - m) >= 0.0;
      assert xs == xs[..n] + [xs[n]];
      forall x <- xs ensures Sq(x - m) <= SquaredDeviation(xs, m) {
        if x != xs[n] {
          assert x in xs[..n];
        }
      }
    }
  }

  lemma VarianceNonNegative(xs: seq<real>)
    requires |xs| > 0
    ensures Variance(xs) >= 0.0
  {
    SquaredDeviationBounds(xs, Mean(xs));
  }

  /**
   * Cauchy-Schwarz for sums: the squared sum of the deviations is at most
   * the count times the sum of the squared deviations.
   */
  lemma {:induction false} CauchySchwarz(ys: seq<real>, m: real)
    ensures Deviation(ys, m) * Deviation(ys, m) <= |ys| as real * SquaredDeviation(ys, m)
  {
    if ys != [] {
      var n := |ys| - 1;
      var front := ys[..n];
      CauchySchwarz(front, m);
      SquaredDeviationBounds(front, m);
      CauchySchwarzStep(Deviation(front, m), SquaredDeviation(front, m), ys[n] - m, n as real);
    }
  }

  /**
   * Samuelson's inequality: no value lies further from the mean than
   * sqrt(n - 1) population standard deviations.
   */
  lemma Samuelson(xs: seq<real>, k: nat)
    requires k < |xs|
    ensures Sq(xs[k] - Mean(xs)) <= (|xs| - 1) as real * Variance(xs)
  {
    var mu, n := Mean(xs), |xs| as real;
    var s := SquaredDeviation(xs, mu);
    DeviationFromMean(xs);
    SamuelsonAround(xs, k, mu);
    SamuelsonStep(Sq(xs[k] - mu), s, n);
  }

  /** Samuelson's inequality around any centre `m` the deviations cancel out at, without division. */
  lemma SamuelsonAround(xs: seq<real>, k: nat, m: real)
    requires k < |xs| && Deviation(xs, m) == 0.0
    ensures |xs| as real * Sq(xs[k] - m) <= (|xs| - 1) as real * SquaredDeviation(xs, m)
  {
    var others := xs[..k] + xs[k + 1..];
    SplitSquaredDeviationAt(xs, k, m);
    OthersBound(xs, k, m);
    SamuelsonCore(Sq(xs[k] - m), SquaredDeviation(xs, m), SquaredDeviation(others, m), |xs| as real);
  }

  /**
   * The values other than `xs[k]` deviate by `-(xs[k] - m)` in total, so by
   * CauchySchwarz the square of that is at most |xs| - 1 times their squared deviation.
   */
  lemma OthersBound(xs: seq<real>, k: nat, m: real)
    requires k < |xs| && Deviation(xs, m) == 0.0
    ensures var others := xs[..k] + xs[k + 1..];
      Sq(xs[k] - m) <= (|xs| as real - 1.0) * SquaredDeviation(others, m)
  {
    var others := xs[..k] + xs[k + 1..];
    assert |others| as real == |xs| as real - 1.0;
    OthersDeviation(xs, k, m);
    NegatedSquare(Deviation(others, m), xs[k] - m);
    CauchySchwarz(others, m);
  }

  /** The values other than `xs[k]` deviate from `m` by `-(xs[k] - m)` in total. */
  lemma OthersDeviation(xs: seq<real>, k: nat, m: real)
    requires k < |xs| && Deviation(xs, m) == 0.0
    ensures Deviation(xs[..k] + xs[k + 1..], m) == -(xs[k] - m)
  {
    SplitDeviationAt(xs, k, m);
  }

  lemma NegatedSquare(e: real, d: real)
    requires e == -d
    ensures e * e == Sq(d)
  {
  }

  /** Taking element `k` out of `xs` removes its deviation from the sum of deviations. */
  lemma SplitDeviationAt(xs: seq<real>, k: nat, m: real)
    requires k < |xs|
    ensures Deviation(xs, m) == Deviation(xs[..k] + xs[k + 1..], m) + (xs[k] - m)
  {
    var before, after := xs[..k], xs[k + 1..];
    var upto := before + [xs[k]];
    assert xs == upto + after;
    DeviationConcat(upto, after, m);
    DeviationConcat(before, [xs[k]], m);
    DeviationConcat(before, after, m);
    DeviationSingle(xs[k], m);
  }

  /** Taking element `k` out of `xs` removes its squared deviation from the sum of squared deviations. */
  lemma SplitSquaredDeviationAt(xs: seq<real>, k: nat, m: real)
    requires k < |xs|
    ensures SquaredDeviation(xs, m) == SquaredDeviation(xs[..k] + xs[k + 1..], m) + Sq(xs[k] - m)
  {
    var before, after := xs[..k], xs[k + 1..];
    var upto := before + [xs[k]];
    assert SquaredDeviation(xs, m) == SquaredDeviation(upto, m) + SquaredDeviation(after, m) by {
      assert xs == upto + after;
      SquaredDeviationConcat(upto, after, m);
    }
    assert SquaredDeviation(upto, m) == SquaredDeviation(before, m) + Sq(xs[k] - m) by {
      SquaredDeviationConcat(before, [xs[k]], m);
      SquaredDeviationSingle(xs[k], m);
    }
    assert SquaredDeviation(before + after, m) == SquaredDeviation(before, m) + SquaredDeviation(after, m) by {
      SquaredDeviationConcat(before, after, m);
    }
  }

  lemma DeviationSingle(x: real, m: real)
    ensures Deviation([x], m) == x - m
  {
    assert [x][..0] == [];
  }

  lemma SquaredDeviationSingle(x: real, m: real)
    ensures SquaredDeviation([x], m) == Sq(x - m)
  {
    assert [x][..0] == [];
  }

  // ---------------------------------------------------------------------
  // Real arithmetic steps, kept apart so that each is a small problem

  lemma Square(d: real)
    ensures d * d >= 0.0
  {
    if d < 0.0 {
      assert d * d == (-d) * (-d);
    }
  }

  lemma ScaleMonotone(a: real, b: real, v: real)
    requires a <= b && v >= 0.0
    ensures a * v <= b * v
  {
    assert b * v - a * v == (b - a) * v;
  }

  /** The induction step of CauchySchwarz: from a^2 <= k b to (a + d)^2 <= (k + 1)(b + d^2). */
  lemma CauchySchwarzStep(a: real, b: real, d: real, k: real)
    requires k >= 0.0 && b >= 0.0 && a * a <= k * b
    requires k == 0.0 ==> a == 0.0
    ensures (a + d) * (a + d) <= (k + 1.0) * (b + d * d)
  {
    // (k + 1)(b + d^2) - (a + d)^2 == (k b - a^2) + (b + k d^2 - 2 a d)
    assert (k + 1.0) * (b + d * d) - (a + d) * (a + d) == (k * b - a * a) + (b + k * d * d - 2.0 * a * d);
    var e := a - k * d;
    Square(e);
    if k > 0.0 {
      // k (b + k d^2 - 2 a d) >= a^2 + k^2 d^2 - 2 k a d == e^2 >= 0
      assert k * (b + k * d * d - 2.0 * a * d) == k * b + (k * d) * (k * d) - 2.0 * k * a * d;
      assert e * e == a * a + (k * d) * (k * d) - 2.0 * k * a * d;
      assert k * (b + k * d * d - 2.0 * a * d) >= 0.0;
      PositiveFactor(k, b + k * d * d - 2.0 * a * d);
    }
  }

  lemma PositiveFactor(k: real, y: real)
    requires k > 0.0 && k * y >= 0.0
    ensures y >= 0.0
  {
  }

  /** The arithmetic of SamuelsonAround: from v <= (n - 1)(s - v) to n v <= (n - 1) s. */
  lemma SamuelsonCore(v: real, s: real, q: real, n: real)
    requires q == s - v && v <= (n - 1.0) * q
    ensures n * v <= (n - 1.0) * s
  {
    assert (n - 1.0) * q == (n - 1.0) * s - (n - 1.0) * v;
  }

  /** The last step of Samuelson: dividing n v <= (n - 1) s by n. */
  lemma SamuelsonStep(v: real, s: real, n: real)
    requires n >= 1.0 && n * v <= (n - 1.0) * s
    ensures v <= (n - 1.0) * (s / n)
  {
    assert (n - 1.0) * (s / n) == ((n - 1.0) * s) / n;
    DivideBoth(n * v, (n - 1.0) * s, n);
    assert (n * v) / n == v;
  }

  lemma Cancel(n: real, v: real)
    requires n > 0.0
    ensures (n * v) / n == v
  {
  }

  lemma DivideBoth(a: real, b: real, n: real)
    requires a <= b && n > 0.0
    ensures a / n <= b / n
  {
    assert b / n - a / n == (b - a) / n;
  }

  // ---------------------------------------------------------------------
  // The rule

  /**
   * With a positive standard deviation `sigma`, the squared comparison is
   * pandas' |x - mean| / std > 3.
   */
  lemma ExceedsIsZScore(xs: seq<real>, x: real, sigma: real)
    requires |xs| > 0 && sigma > 0.0 && sigma * sigma == Variance(xs)
    ensures Exceeds(xs, x) <==> Abs(x - Mean(xs)) / sigma > Threshold
  {
    var d := Abs(x - Mean(xs));
    var t := Threshold * sigma;
    assert Sq(x - Mean(xs)) == d * d;
    assert Threshold * Threshold * Variance(xs) == t * t;
    assert d / sigma > Threshold <==> d > t by {
      assert d / sigma - Threshold == (d - t) / sigma;
    }
    SquareOrder(t, d);
  }

  /** On non-negative reals, squaring preserves strict order. */
  lemma SquareOrder(a: real, b: real)
    requires a >= 0.0 && b >= 0.0
    ensures a < b <==> a * a < b * b
  {
    assert b * b - a * a == (b - a) * (b + a);
    if a < b {
      PositiveProduct(b - a, b + a);
    } else if a > b {
      PositiveProduct(a - b, b + a);
      assert (a - b) * (b + a) == -((b - a) * (b + a));
    }
  }

  lemma PositiveProduct(x: real, y: real)
    requires x > 0.0 && y > 0.0
    ensures x * y > 0.0
  {
  }

  /** A value of a column with zero variance never exceeds (pandas: 0/0 is NaN, NaN > 3 is false). */
  lemma ZeroVarianceFlagsNothing(xs: seq<real>, x: real)
    requires x in xs && Variance(xs) == 0.0
    ensures !Exceeds(xs, x)
  {
    SquaredDeviationBounds(xs, Mean(xs));
  }

  lemma {:induction false} ConstantSum(xs: seq<real>, v: real)
    requires forall x <- xs :: x == v
    ensures Sum(xs) == |xs| as real * v
  {
    if xs != [] {
      var n := |xs| - 1;
      assert forall x <- xs[..n] :: x in xs;
      assert xs[n] in xs;
      ConstantSum(xs[..n], v);
      assert (n as real) * v + v == (n as real + 1.0) * v;
    }
  }

  /** A column whose values are all equal flags no row. */
  lemma ConstantColumnFlagsNothing(rows: seq<Row>, c: string, v: real)
    requires forall x <- ColumnValues(rows, c) :: x == v
    ensures forall i | 0 <= i < |rows| :: !CellFlagged(rows, c, i)
  {
    var xs := ColumnValues(rows, c);
    ColumnValuesMembers(rows, c);
    if |xs| > 0 {
      ConstantSum(xs, v);
      var n := |xs| as real;
      assert Sum(xs) == n * v;
      Cancel(n, v);
      assert Mean(xs) == Sum(xs) / n;
      assert Mean(xs) == v;
      VarianceNonNegative(xs);
    }
  }

  /**
   * With at most ten values in a column, no value of it can have |z| > 3:
   * by Samuelson's inequality |z| is at most sqrt(n - 1) <= 3.
   */
  lemma SmallColumnFlagsNothing(rows: seq<Row>, c: string)
    requires |ColumnValues(rows, c)| <= 10
    ensures forall i | 0 <= i < |rows| :: !CellFlagged(rows, c, i)
  {
    var xs := ColumnValues(rows, c);
    ColumnValuesMembers(rows, c);
    forall k | 0 <= k < |xs| ensures !Exceeds(xs, xs[k]) {
      SmallSampleNotExceeds(xs, k);
    }
  }

  lemma SmallSampleNotExceeds(xs: seq<real>, k: nat)
    requires k < |xs| <= 10
    ensures !Exceeds(xs, xs[k])
  {
    Samuelson(xs, k);
    VarianceNonNegative(xs);
    ScaleMonotone((|xs| - 1) as real, Threshold * Threshold, Variance(xs));
  }

  /** A zero or undefined standard deviation in column `c` flags nothing through `c`. */
  lemma DegenerateColumnFlagsNothing(rows: seq<Row>, c: string)
    requires |ColumnValues(rows, c)| == 0 || Variance(ColumnValues(rows, c)) == 0.0
    ensures forall i | 0 <= i < |rows| :: !CellFlagged(rows, c, i)
  {
    var xs := ColumnValues(rows, c);
    ColumnValuesMembers(rows, c);
    forall x <- xs ensures !Exceeds(xs, x) {
      ZeroVarianceFlagsNothing(xs, x);
    }
  }

  /** Only the named columns influence the mask: tables that agree on them get the same mask. */
  lemma MaskDependsOnlyOnColumns(rows1: seq<Row>, rows2: seq<Row>, cols: seq<string>)
    requires |rows1| == |rows2|
    requires forall i, c | 0 <= i < |rows1| && c in cols :: NumAt(rows1[i], c) == NumAt(rows2[i], c)
    ensures OutlierMask(rows1, cols) == OutlierMask(rows2, cols)
  {
    forall c <- cols ensures ColumnValues(rows1, c) == ColumnValues(rows2, c) {
      ColumnValuesAgree(rows1, rows2, c);
    }
    forall i | 0 <= i < |rows1| ensures RowFlagged(rows1, cols, i) == RowFlagged(rows2, cols, i) {
      assert forall c <- cols :: CellFlagged(rows1, c, i) == CellFlagged(rows2, c, i);
    }
  }

  /** `s` is the population standard deviation of column `c`, where the column has values. */
  predicate IsStdDev(rows: seq<Row>, c: string, s: real)
  {
    s >= 0.0 && (|ColumnValues(rows, c)| > 0 ==> s * s == Variance(ColumnValues(rows, c)))
  }

  /** `sigma(c)` is `df[c].std(ddof=0)` for every column of `cols`. */
  predicate StdDevs(rows: seq<Row>, cols: seq<string>, sigma: string -> real)
  {
    forall c <- cols :: IsStdDev(rows, c, sigma(c))
  }

  /**
   * A cell is flagged exactly when it holds a number whose |z| exceeds 3 with
   * a positive standard deviation; with a zero one pandas' z-score is NaN and
   * the cell is not flagged.
   */
  lemma CellFlaggedIsZScore(rows: seq<Row>, c: string, i: nat, sigma: real)
    requires i < |rows| && IsStdDev(rows, c, sigma)
    ensures CellFlagged(rows, c, i) <==>
      && NumAt(rows[i], c).Some? && |ColumnValues(rows, c)| > 0 && sigma > 0.0
      && Abs(NumAt(rows[i], c).value - Mean(ColumnValues(rows, c))) / sigma > Threshold
  {
    var xs := ColumnValues(rows, c);
    if NumAt(rows[i], c).Some? {
      var x := NumAt(rows[i], c).value;
      ColumnValuesMembers(rows, c);
      assert x in xs;
      if sigma > 0.0 {
        ExceedsIsZScore(xs, x, sigma);
      } else {
        ZeroVarianceFlagsNothing(xs, x);
      }
    }
  }

  /**
   * `(df_zscore.abs() > 3).any(axis=1)`: a row is flagged exactly when one of
   * `cols` holds a value more than three population standard deviations from
   * its column's mean.
   */
  lemma MaskMeaning(rows: seq<Row>, cols: seq<string>, i: nat, sigma: string -> real)
    requires i < |rows| && StdDevs(rows, cols, sigma)
    ensures OutlierMask(rows, cols)[i] <==>
      exists c <- cols ::
        && NumAt(rows[i], c).Some? && |ColumnValues(rows, c)| > 0 && sigma(c) > 0.0
        && Abs(NumAt(rows[i], c).value - Mean(ColumnValues(rows, c))) / sigma(c) > Threshold
  {
    forall c <- cols
      ensures CellFlagged(rows, c, i) <==>
        && NumAt(rows[i], c).Some? && |ColumnValues(rows, c)| > 0 && sigma(c) > 0.0
        && Abs(NumAt(rows[i], c).value - Mean(ColumnValues(rows, c))) / sigma(c) > Threshold
    {
      CellFlaggedIsZScore(rows, c, i, sigma(c));
    }
  }
}
