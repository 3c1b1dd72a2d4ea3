/** Why the normal equations are solved: of all filters of its order the one found leaves the least residual. */
module LpcOptimality {
  import opened Sums
  import opened Lpc
  import opened Reals

  lemma {:induction false} SumScale(n: nat, f: nat -> real, g: nat -> real, k: real)
    requires forall i: nat | i < n :: g(i) == k * f(i)
    ensures Sum(n, g) == k * Sum(n, f)
  {
    if n == 0 {
      assert k * 0.0 == 0.0;
    } else {
      SumScale(n - 1, f, g, k);
      assert k * (Sum(n - 1, f) + f(n - 1)) == k * Sum(n - 1, f) + k * f(n - 1);
    }
  }

  // ----- the quadratic form of the correlations

  function Weighted(b: seq<real>, row: nat -> real): nat -> real {
    (i: nat) => At(b, i) * row(i)
  }

  function RowsOf(c: seq<real>, r: seq<real>, n: nat): nat -> real {
    (i: nat) => Row(c, r, n, i)
  }

  // The sum over i and j of b[i] * c[j] * r[|i-j|].
  function Form(b: seq<real>, c: seq<real>, r: seq<real>, n: nat): real {
    Sum(n + 1, Weighted(b, RowsOf(c, r, n)))
  }

  // The prediction error of a filter, from the correlations of the signal.
  function Energy(b: seq<real>, r: seq<real>, n: nat): real {
    Form(b, b, r, n)
  }

  function Cell(b: seq<real>, c: seq<real>, r: seq<real>): (nat, nat) -> real {
    (i: nat, j: nat) => At(b, i) * (At(c, j) * At(r, Abs(i - j)))
  }

  lemma FormAsRows(b: seq<real>, c: seq<real>, r: seq<real>, n: nat)
    ensures Form(b, c, r, n) == Sum(n + 1, Rows(Cell(b, c, r), n + 1))
  {
    forall i: nat | i < n + 1
      ensures Weighted(b, RowsOf(c, r, n))(i) == Rows(Cell(b, c, r), n + 1)(i)
    {
      SumScale(n + 1, Term(c, r, i), Across(Cell(b, c, r), i), At(b, i));
      assert Weighted(b, RowsOf(c, r, n))(i) == At(b, i) * Sum(n + 1, Term(c, r, i));
    }
    SumEqual(n + 1, Weighted(b, RowsOf(c, r, n)), Rows(Cell(b, c, r), n + 1));
  }

  lemma CellSymmetric(b: seq<real>, c: seq<real>, r: seq<real>, i: nat, j: nat)
    ensures Cell(b, c, r)(i, j) == Cell(c, b, r)(j, i)
  {
    assert Abs(i - j) == Abs(j - i);
    Reassociate(At(b, i), At(c, j), At(r, Abs(i - j)));
  }

  lemma Reassociate(x: real, y: real, z: real)
    ensures x * (y * z) == y * (x * z)
  {
  }

  lemma FormSymmetric(b: seq<real>, c: seq<real>, r: seq<real>, n: nat)
    ensures Form(b, c, r, n) == Form(c, b, r, n)
  {
    FormAsRows(b, c, r, n);
    FormAsRows(c, b, r, n);
    SumSwap(n + 1, n + 1, Cell(b, c, r));
    var columns, rows := Columns(Cell(b, c, r), n + 1), Rows(Cell(c, b, r), n + 1);
    forall j: nat | j < n + 1
      ensures columns(j) == rows(j)
    {
      ColumnIsRow(b, c, r, n, j);
    }
    SumEqual(n + 1, columns, rows);
  }

  lemma ColumnIsRow(b: seq<real>, c: seq<real>, r: seq<real>, n: nat, j: nat)
    ensures Columns(Cell(b, c, r), n + 1)(j) == Rows(Cell(c, b, r), n + 1)(j)
  {
    var f, g := Along(Cell(b, c, r), j), Across(Cell(c, b, r), j);
    forall i: nat | i < n + 1
      ensures f(i) == g(i)
    {
      CellSymmetric(b, c, r, i, j);
    }
    SumEqual(n + 1, f, g);
  }

  // ----- completing the square

  // b[i] == a[i] + d[i]
  ghost predicate Splits(b: seq<real>, a: seq<real>, d: seq<real>) {
    forall i: nat :: At(b, i) == Mix(At(a, i), At(d, i), 1.0)
  }

  lemma RowSplits(b: seq<real>, a: seq<real>, d: seq<real>, r: seq<real>, n: nat, i: nat)
    requires Splits(b, a, d)
    ensures Row(b, r, n, i) == Mix(Row(a, r, n, i), Row(d, r, n, i), 1.0)
  {
    forall j: nat | j < n + 1
      ensures Term(b, r, i)(j) == Mix(Term(a, r, i)(j), Term(d, r, i)(j), 1.0)
    {
      MixTerm(At(a, j), At(d, j), 1.0, At(r, Abs(i - j)));
    }
    SumMix(n + 1, Term(a, r, i), Term(d, r, i), Term(b, r, i), 1.0);
  }

  lemma FormSplitsRight(b: seq<real>, a: seq<real>, d: seq<real>, c: seq<real>, r: seq<real>, n: nat)
    requires Splits(b, a, d)
    ensures Form(c, b, r, n) == Mix(Form(c, a, r, n), Form(c, d, r, n), 1.0)
  {
    var f, g, h := Weighted(c, RowsOf(a, r, n)), Weighted(c, RowsOf(d, r, n)), Weighted(c, RowsOf(b, r, n));
    forall i: nat | i < n + 1
      ensures h(i) == Mix(f(i), g(i), 1.0)
    {
      RowSplits(b, a, d, r, n, i);
      MixTerm(Row(a, r, n, i), Row(d, r, n, i), 1.0, At(c, i));
    }
    SumMix(n + 1, f, g, h, 1.0);
  }

  // Against the solution of the normal equations only the zeroth coefficient counts.
  lemma FormAgainstSolution(c: seq<real>, a: seq<real>, r: seq<real>, n: nat, error: real)
    requires Predicts(a, r, n, error)
    ensures Form(c, a, r, n) == At(c, 0) * error
  {
    var f := Weighted(c, RowsOf(a, r, n));
    var g := (i: nat) => f(i + 1);
    SumFirst(n, f, g);
    forall i: nat | i < n
      ensures g(i) == 0.0
    {
      assert Row(a, r, n, i + 1) == 0.0;
      assert f(i + 1) == At(c, i + 1) * 0.0;
    }
    SumZero(n, g);
  }

  // Any other filter with leading 1 leaves the error of the solution plus the energy of the difference.
  lemma EnergySplits(b: seq<real>, a: seq<real>, d: seq<real>, r: seq<real>, n: nat, error: real)
    requires Predicts(a, r, n, error) && Splits(b, a, d) && At(a, 0) == 1.0 && At(d, 0) == 0.0
    ensures Energy(b, r, n) == error + Energy(d, r, n)
  {
    FormSplitsRight(b, a, d, b, r, n);
    FormSymmetric(b, d, r, n);
    FormSplitsRight(b, a, d, d, r, n);
    FormAgainstSolution(b, a, r, n, error);
    FormAgainstSolution(d, a, r, n, error);
    assert At(b, 0) == 1.0;
    assert 1.0 * error == error && 0.0 * error == 0.0;
  }

  // ----- the correlations of a signal

  // x[t-i] * x[t-j], where x is zero outside its window.
  function Lagged(x: seq<real>, i: nat, j: nat): nat -> real {
    (t: nat) => At(x, t - i) * At(x, t - j)
  }

  // The k-th correlation is the sum of x[t] * x[t-k] over the window.
  function Correlation(x: seq<real>, k: nat): real {
    Sum(|x|, Lagged(x, 0, k))
  }

  function Correlations(x: seq<real>, order: nat): (r: seq<real>)
    ensures |r| == order + 1
  {
    seq(order + 1, k requires 0 <= k => Correlation(x, k))
  }

  // The correlation loop of `analyse`.
  method Correlate(x: seq<real>, order: nat) returns (r: seq<real>)
    ensures r == Correlations(x, order)
  {
    r := [];
    var j: nat := 0;
    while j <= order
      invariant j <= order + 1 && r == Correlations(x, order)[..j]
    {
      var sum := CorrelateAt(x, j);
      r := r + [sum];
      j := j + 1;
    }
  }

  method CorrelateAt(x: seq<real>, j: nat) returns (sum: real)
    ensures sum == Correlation(x, j)
  {
    sum := 0.0;
    ghost var f := Lagged(x, 0, j);
    ZeroPrefix(x, j, if j < |x| then j else |x|);
    var i := j;
    while i < |x|
      invariant i >= j
      invariant sum == Sum(if i < |x| then i else |x|, f)
    {
      assert f(i) == x[i] * x[i - j];
      sum := sum + x[i] * x[i - j];
      i := i + 1;
    }
  }

  lemma {:induction false} ZeroPrefix(x: seq<real>, j: nat, m: nat)
    requires m <= j
    ensures Sum(m, Lagged(x, 0, j)) == 0.0
  {
    forall t: nat | t < m
      ensures Lagged(x, 0, j)(t) == 0.0
    {
      assert At(x, t) * 0.0 == 0.0;
    }
    SumZero(m, Lagged(x, 0, j));
  }

  // Shifting both lags by one moves the sum by one place.
  lemma {:induction false} Shift(x: seq<real>, i: nat, j: nat, m: nat)
    ensures Sum(m + i, Lagged(x, i, i + j)) == Sum(m, Lagged(x, 0, j))
  {
    if i != 0 {
      Shift(x, i - 1, j, m);
      var f, g := Lagged(x, i, i + j), Lagged(x, i - 1, i - 1 + j);
      forall t: nat | t < m + i - 1
        ensures g(t) == f(t + 1)
      {
        assert t + 1 - i == t - (i - 1) && t + 1 - (i + j) == t - (i - 1 + j);
      }
      SumFirst(m + i - 1, f, g);
      assert f(0) == 0.0 * At(x, 0 - (i + j));
    }
  }

  // Past the window both factors are zero.
  lemma {:induction false} Tail(x: seq<real>, i: nat, j: nat, m: nat, extra: nat)
    requires m >= |x| + i
    ensures Sum(m + extra, Lagged(x, i, j)) == Sum(m, Lagged(x, i, j))
  {
    if extra != 0 {
      Tail(x, i, j, m, extra - 1);
      var f, t: nat := Lagged(x, i, j), m + extra - 1;
      assert At(x, t - i) == 0.0;
      assert f(t) == 0.0 * At(x, t - j);
    }
  }

  // Long enough a sum of x[t-i] * x[t-j] is the correlation at lag |i-j|.
  lemma LaggedSum(x: seq<real>, i: nat, j: nat, n: nat)
    requires i <= n && j <= n
    ensures Sum(|x| + n, Lagged(x, i, j)) == Correlation(x, Abs(i - j))
  {
    var low, high := if i <= j then i else j, if i <= j then j else i;
    forall t: nat | t < |x| + n
      ensures Lagged(x, i, j)(t) == Lagged(x, low, high)(t)
    {
    }
    SumEqual(|x| + n, Lagged(x, i, j), Lagged(x, low, high));
    Tail(x, low, high, |x| + low, n - low);
    Shift(x, low, high - low, |x|);
    assert low + (high - low) == high && |x| + low + (n - low) == |x| + n;
  }

  // ----- the form of a signal's correlations is its residual energy

  // One term of the filtered signal: c[i] * x[t-i].
  function Tap(c: seq<real>, x: seq<real>, t: nat): nat -> real {
    (i: nat) => At(c, i) * At(x, t - i)
  }

  // The output of the filter at time t.
  function Output(c: seq<real>, x: seq<real>, n: nat, t: nat): real {
    Sum(n + 1, Tap(c, x, t))
  }

  function Squares(c: seq<real>, x: seq<real>, n: nat): nat -> real {
    (t: nat) => Square(Output(c, x, n, t))
  }

  // The energy of all that the filter leaves of the signal.
  function Residue(c: seq<real>, x: seq<real>, n: nat): real {
    Sum(|x| + n, Squares(c, x, n))
  }

  // x[t-i] * Output(t)
  function Crossed(c: seq<real>, x: seq<real>, n: nat, i: nat): nat -> real {
    (t: nat) => At(x, t - i) * Output(c, x, n, t)
  }

  // c[i] * x[t-i] * Output(t), by tap and by time
  function Product(c: seq<real>, x: seq<real>, n: nat): (nat, nat) -> real {
    (i: nat, t: nat) => At(c, i) * Crossed(c, x, n, i)(t)
  }

  // x[t-i] * c[j] * x[t-j], by tap and by time
  function Pair(c: seq<real>, x: seq<real>, i: nat): (nat, nat) -> real {
    (j: nat, t: nat) => At(c, j) * Lagged(x, i, j)(t)
  }

  lemma CrossedAt(c: seq<real>, x: seq<real>, n: nat, i: nat, t: nat)
    ensures Columns(Pair(c, x, i), n + 1)(t) == Crossed(c, x, n, i)(t)
  {
    var f, g := Tap(c, x, t), Along(Pair(c, x, i), t);
    forall j: nat | j < n + 1
      ensures g(j) == At(x, t - i) * f(j)
    {
      TapPair(c, x, i, t, j);
    }
    SumScale(n + 1, f, g, At(x, t - i));
  }

  lemma TapPair(c: seq<real>, x: seq<real>, i: nat, t: nat, j: nat)
    ensures Along(Pair(c, x, i), t)(j) == At(x, t - i) * Tap(c, x, t)(j)
  {
    Reassociate(At(c, j), At(x, t - i), At(x, t - j));
    assert Pair(c, x, i)(j, t) == At(c, j) * Lagged(x, i, j)(t);
  }

  lemma TermIsLagged(c: seq<real>, x: seq<real>, r: seq<real>, n: nat, i: nat, j: nat)
    requires i <= n < |r| && j <= n && r == Correlations(x, |r| - 1)
    ensures Term(c, r, i)(j) == Rows(Pair(c, x, i), |x| + n)(j)
  {
    LaggedSum(x, i, j, n);
    SumScale(|x| + n, Lagged(x, i, j), Across(Pair(c, x, i), j), At(c, j));
    assert At(r, Abs(i - j)) == Correlation(x, Abs(i - j));
  }

  lemma RowIsPairs(c: seq<real>, x: seq<real>, r: seq<real>, n: nat, i: nat)
    requires i <= n < |r| && r == Correlations(x, |r| - 1)
    ensures Row(c, r, n, i) == Sum(n + 1, Rows(Pair(c, x, i), |x| + n))
  {
    var f, g := Term(c, r, i), Rows(Pair(c, x, i), |x| + n);
    forall j: nat | j < n + 1
      ensures f(j) == g(j)
    {
      TermIsLagged(c, x, r, n, i, j);
    }
    SumEqual(n + 1, f, g);
  }

  lemma PairsAreCrossed(c: seq<real>, x: seq<real>, n: nat, i: nat, m: nat)
    ensures Sum(m, Columns(Pair(c, x, i), n + 1)) == Sum(m, Crossed(c, x, n, i))
  {
    var columns, crossed := Columns(Pair(c, x, i), n + 1), Crossed(c, x, n, i);
    forall t: nat | t < m
      ensures columns(t) == crossed(t)
    {
      CrossedAt(c, x, n, i, t);
    }
    SumEqual(m, columns, crossed);
  }

  lemma RowIsCrossed(c: seq<real>, x: seq<real>, r: seq<real>, n: nat, i: nat)
    requires i <= n < |r| && r == Correlations(x, |r| - 1)
    ensures Row(c, r, n, i) == Sum(|x| + n, Crossed(c, x, n, i))
  {
    RowIsPairs(c, x, r, n, i);
    SumSwap(n + 1, |x| + n, Pair(c, x, i));
    PairsAreCrossed(c, x, n, i, |x| + n);
  }

  lemma SquareAt(c: seq<real>, x: seq<real>, n: nat, t: nat)
    ensures Columns(Product(c, x, n), n + 1)(t) == Squares(c, x, n)(t)
  {
    var f, g, v := Tap(c, x, t), Along(Product(c, x, n), t), Output(c, x, n, t);
    forall i: nat | i < n + 1
      ensures g(i) == v * f(i)
    {
      assert At(c, i) * (At(x, t - i) * v) == v * (At(c, i) * At(x, t - i));
      assert g(i) == At(c, i) * Crossed(c, x, n, i)(t);
    }
    SumScale(n + 1, f, g, v);
  }

  lemma ScaledCrossed(c: seq<real>, x: seq<real>, n: nat, i: nat, m: nat)
    ensures Sum(m, Across(Product(c, x, n), i)) == At(c, i) * Sum(m, Crossed(c, x, n, i))
  {
    var f, g, k := Crossed(c, x, n, i), Across(Product(c, x, n), i), At(c, i);
    forall t: nat | t < m
      ensures g(t) == k * f(t)
    {
      assert g(t) == Product(c, x, n)(i, t);
    }
    SumScale(m, f, g, k);
  }

  lemma WeightedIsProduct(c: seq<real>, x: seq<real>, r: seq<real>, n: nat, i: nat)
    requires i <= n < |r| && r == Correlations(x, |r| - 1)
    ensures Weighted(c, RowsOf(c, r, n))(i) == Rows(Product(c, x, n), |x| + n)(i)
  {
    RowIsCrossed(c, x, r, n, i);
    ScaledCrossed(c, x, n, i, |x| + n);
  }

  // The form that the recursion minimises is the energy of the filtered signal.
  lemma EnergyIsResidue(c: seq<real>, x: seq<real>, r: seq<real>, n: nat)
    requires n < |r| && r == Correlations(x, |r| - 1)
    ensures Energy(c, r, n) == Residue(c, x, n)
  {
    var f, g := Weighted(c, RowsOf(c, r, n)), Rows(Product(c, x, n), |x| + n);
    forall i: nat | i < n + 1
      ensures f(i) == g(i)
    {
      WeightedIsProduct(c, x, r, n, i);
    }
    SumEqual(n + 1, f, g);
    SumSwap(n + 1, |x| + n, Product(c, x, n));
    var columns, squares := Columns(Product(c, x, n), n + 1), Squares(c, x, n);
    forall t: nat | t < |x| + n
      ensures columns(t) == squares(t)
    {
      SquareAt(c, x, n, t);
    }
    SumEqual(|x| + n, columns, squares);
  }

  lemma ResidueNonNegative(c: seq<real>, x: seq<real>, n: nat)
    ensures Residue(c, x, n) >= 0.0
  {
    forall t: nat
      ensures Squares(c, x, n)(t) >= 0.0
    {
      SquareNotNegative(Output(c, x, n, t));
    }
    SumNonNegative(|x| + n, Squares(c, x, n));
  }

  // ----- the white-noise correction

  // What the correction adds to the form at tap i.
  function Extra(c: seq<real>, r0: real): nat -> real {
    (i: nat) => Square(At(c, i)) * (r0 * (NOISE - 1.0))
  }

  function Spike(i: nat, v: real): nat -> real {
    (j: nat) => if j == i then v else 0.0
  }

  lemma {:induction false} SumSpike(n: nat, i: nat, v: real)
    ensures Sum(n, Spike(i, v)) == if i < n then v else 0.0
  {
    if n != 0 {
      SumSpike(n - 1, i, v);
    }
  }

  lemma RowCorrected(c: seq<real>, r: seq<real>, n: nat, i: nat)
    requires i <= n && r != []
    ensures Row(c, Corrected(r), n, i) == Mix(Row(c, r, n, i), At(c, i) * (r[0] * (NOISE - 1.0)), 1.0)
  {
    var v := At(c, i) * (r[0] * (NOISE - 1.0));
    var f, g, h := Term(c, r, i), Spike(i, v), Term(c, Corrected(r), i);
    forall j: nat | j < n + 1
      ensures h(j) == Mix(f(j), g(j), 1.0)
    {
      if j == i {
        assert At(c, i) * (r[0] * NOISE) == At(c, i) * r[0] + v;
        assert At(Corrected(r), 0) == r[0] * NOISE && Abs(i - j) == 0;
      } else {
        assert At(Corrected(r), Abs(i - j)) == At(r, Abs(i - j));
      }
    }
    SumMix(n + 1, f, g, h, 1.0);
    SumSpike(n + 1, i, v);
  }

  lemma EnergyCorrected(c: seq<real>, r: seq<real>, n: nat)
    requires r != []
    ensures Energy(c, Corrected(r), n) == Mix(Energy(c, r, n), Sum(n + 1, Extra(c, r[0])), 1.0)
  {
    var f, g, h := Weighted(c, RowsOf(c, r, n)), Extra(c, r[0]), Weighted(c, RowsOf(c, Corrected(r), n));
    forall i: nat | i < n + 1
      ensures h(i) == Mix(f(i), g(i), 1.0)
    {
      RowCorrected(c, r, n, i);
      var e := r[0] * (NOISE - 1.0);
      assert At(c, i) * (At(c, i) * e) == Square(At(c, i)) * e;
      MixTerm(Row(c, r, n, i), At(c, i) * e, 1.0, At(c, i));
    }
    SumMix(n + 1, f, g, h, 1.0);
  }

  // The energy that the recursion minimises is never negative.
  lemma EnergyNonNegative(c: seq<real>, x: seq<real>, r: seq<real>, n: nat)
    requires n < |r| && r == Correlations(x, |r| - 1)
    ensures Energy(c, Corrected(r), n) >= 0.0
  {
    EnergyCorrected(c, r, n);
    EnergyIsResidue(c, x, r, n);
    ResidueNonNegative(c, x, n);
    ZeroLag(x);
    forall i: nat
      ensures Extra(c, r[0])(i) >= 0.0
    {
      SquareNotNegative(At(c, i));
      NonNegativeProduct(Square(At(c, i)), r[0] * (NOISE - 1.0));
    }
    SumNonNegative(n + 1, Extra(c, r[0]));
  }

  lemma ZeroLag(x: seq<real>)
    ensures Correlation(x, 0) >= 0.0
  {
    forall t: nat
      ensures Lagged(x, 0, 0)(t) >= 0.0
    {
      SquareNotNegative(At(x, t));
    }
    SumNonNegative(|x|, Lagged(x, 0, 0));
  }

  lemma NonNegativeProduct(u: real, v: real)
    requires u >= 0.0 && v >= 0.0
    ensures u * v >= 0.0
  {
  }

  // ----- the optimum

  function Difference(b: seq<real>, a: seq<real>): seq<real>
    requires |b| == |a|
  {
    seq(|b|, i requires 0 <= i < |b| => b[i] - a[i])
  }

  // While no clamp and no floor binds, no filter of the same order with leading 1 leaves less than the one found.
  lemma LeastResidual(x: seq<real>, order: nat, n: nat, b: seq<real>)
    requires n <= order && Levinson(Corrected(Correlations(x, order)), n).exact
    requires |b| == n + 1 && b[0] == 1.0
    ensures var r := Corrected(Correlations(x, order));
            Energy(b, r, n) >= Levinson(r, n).error == Energy(Filter(Levinson(r, n).ks), r, n)
  {
    var plain := Correlations(x, order);
    var r := Corrected(plain);
    var t := Levinson(r, n);
    var a := Filter(t.ks);
    var d := Difference(b, a);
    LevinsonPredicts(r, n);
    FormAgainstSolution(a, a, r, n, t.error);
    EnergySplits(b, a, d, r, n, t.error);
    EnergyNonNegative(d, x, plain, n);
  }
}
