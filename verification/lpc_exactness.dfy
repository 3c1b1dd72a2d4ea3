/** When the recursion finds the solution of the normal equations, said of the correlations alone, and
    what it does when the clamp or the floors bind. */
module LpcExactness {
  import opened Lpc
  import opened LpcOptimality
  import opened Reals
  import opened Sums

  // Filters of every order up to n that solve the normal equations of r, with their errors; none of them
  // asks for a reflection beyond 0.97 or an error below both floors.
  ghost predicate Tame(r: seq<real>, n: nat, filters: seq<seq<real>>, errors: seq<real>) {
    && |filters| == |errors| == n + 1
    && (forall m: nat | m <= n :: Predicts(filters[m], r, m, errors[m]) && filters[m][0] == 1.0)
    && (forall m: nat | 1 <= m <= n :: -0.97 <= filters[m][m] <= 0.97)
    && (forall m: nat | m <= n :: errors[m] >= 0.000000000001)
    && (forall m: nat | 1 <= m <= n :: errors[m] >= 0.0000001 * At(r, 0))
  }

  lemma TameBelow(r: seq<real>, n: nat, filters: seq<seq<real>>, errors: seq<real>)
    requires n > 0 && Tame(r, n, filters, errors)
    ensures Tame(r, n - 1, filters[..n], errors[..n])
  {
  }

  // ----- the solution is the only one

  // All p + 1 rows vanish on d.
  ghost predicate Kernel(d: seq<real>, r: seq<real>, p: nat) {
    |d| == p + 1 && forall i: nat | i <= p :: Row(d, r, p, i) == 0.0
  }

  lemma FormOfKernel(c: seq<real>, d: seq<real>, r: seq<real>, p: nat)
    requires Kernel(d, r, p)
    ensures Form(c, d, r, p) == 0.0
  {
    var f := Weighted(c, RowsOf(d, r, p));
    forall i: nat | i < p + 1
      ensures f(i) == 0.0
    {
      assert Row(d, r, p, i) == 0.0;
      assert f(i) == At(c, i) * 0.0;
    }
    SumZero(p + 1, f);
  }

  // Without its leading zero, d meets the same rows one place down.
  lemma RowBehindZero(d: seq<real>, r: seq<real>, p: nat, i: nat)
    requires |d| == p + 1 && p > 0 && d[0] == 0.0
    ensures Row(d, r, p, i + 1) == Row(d[1..], r, p - 1, i)
  {
    var f, g := Term(d, r, i + 1), Term(d[1..], r, i);
    forall j: nat | j < p
      ensures g(j) == f(j + 1)
    {
      assert Abs(i + 1 - (j + 1)) == Abs(i - j);
    }
    SumFirst(p, f, g);
    assert f(0) == 0.0 * At(r, Abs(i + 1));
  }

  lemma ZeroFactor(x: real, y: real)
    requires x * y == 0.0 && y > 0.0
    ensures x == 0.0
  {
  }

  lemma {:induction false} KernelIsZero(d: seq<real>, r: seq<real>, p: nat, filters: seq<seq<real>>, errors: seq<real>)
    requires Kernel(d, r, p) && p < |filters| == |errors|
    requires forall m: nat | m <= p :: Predicts(filters[m], r, m, errors[m]) && errors[m] > 0.0
    ensures forall i | 0 <= i <= p :: d[i] == 0.0
    decreases p
  {
    var a := filters[p];
    FormOfKernel(a, d, r, p);
    FormSymmetric(a, d, r, p);
    FormAgainstSolution(d, a, r, p, errors[p]);
    ZeroFactor(d[0], errors[p]);
    if p > 0 {
      var tail, q := d[1..], p - 1;
      forall i: nat | i <= q
        ensures Row(tail, r, q, i) == 0.0
      {
        RowBehindZero(d, r, p, i);
        assert Row(d, r, p, i + 1) == 0.0;
      }
      KernelIsZero(tail, r, q, filters, errors);
      assert forall i | 1 <= i <= p :: d[i] == tail[i - 1];
    }
  }

  // Two filters with leading 1 that solve the equations of order n, where the lower orders have solutions
  // with positive errors, are one.
  lemma SolutionUnique(a: seq<real>, b: seq<real>, r: seq<real>, n: nat, e: real, e': real, filters: seq<seq<real>>,
                       errors: seq<real>)
    requires n > 0 && Predicts(a, r, n, e) && Predicts(b, r, n, e') && a[0] == b[0] == 1.0
    requires n <= |filters| == |errors|
    requires forall m: nat | m < n :: Predicts(filters[m], r, m, errors[m]) && errors[m] > 0.0
    ensures a == b && e == e'
  {
    var d, q := Difference(b, a), n - 1;
    var tail := d[1..];
    forall i: nat | i <= q
      ensures Row(tail, r, q, i) == 0.0
    {
      RowSplits(b, a, d, r, n, i + 1);
      RowBehindZero(d, r, n, i);
      assert Row(a, r, n, i + 1) == 0.0 && Row(b, r, n, i + 1) == 0.0;
    }
    KernelIsZero(tail, r, q, filters, errors);
    forall i | 0 <= i <= n
      ensures a[i] == b[i]
    {
      assert i > 0 ==> d[i] == tail[i - 1];
    }
  }

  // ----- the recursion finds it

  // What the recursion returns on the correlations of a frame, whose power is raised by 10^-4 first: where
  // the normal equations have tame solutions, their reflections, last error and last filter.
  lemma AnalysisSolves(r0: seq<real>, order: nat, filters: seq<seq<real>>, errors: seq<real>)
    requires |r0| == order + 1 && Tame(r0[0 := r0[0] * 1.0001], order, filters, errors)
    ensures var t := Levinson(Corrected(r0), order);
            && t.error == errors[order] && Filter(t.ks) == filters[order]
            && forall m: nat | 1 <= m <= order :: t.ks[m - 1] == filters[m][m]
  {
    assert Corrected(r0) == r0[0 := r0[0] * 1.0001];
    TameIsSolved(r0[0 := r0[0] * 1.0001], order, filters, errors);
  }

  ghost predicate Solved(t: Trace, n: nat, filters: seq<seq<real>>, errors: seq<real>)
    requires |filters| == |errors| == n + 1 && forall m: nat | 1 <= m <= n :: |filters[m]| == m + 1
  {
    && t.exact && |t.ks| == n && t.error == errors[n] && Filter(t.ks) == filters[n]
    && forall m: nat | 1 <= m <= n :: t.ks[m - 1] == filters[m][m]
  }

  lemma {:induction false} TameIsSolved(r: seq<real>, n: nat, filters: seq<seq<real>>, errors: seq<real>)
    requires Tame(r, n, filters, errors)
    ensures Solved(Levinson(r, n), n, filters, errors)
    decreases n
  {
    if n == 0 {
      FirstSolved(r, filters, errors);
    } else {
      TameBelow(r, n, filters, errors);
      TameIsSolved(r, n - 1, filters[..n], errors[..n]);
      var t, u := Levinson(r, n - 1), Levinson(r, n);
      NextLevinson(r, n);
      NextSolved(r, n, t, filters, errors);
      SolvedMore(t, u, n, filters, errors);
    }
  }

  lemma SolvedMore(t: Trace, u: Trace, n: nat, filters: seq<seq<real>>, errors: seq<real>)
    requires n > 0 && |filters| == |errors| == n + 1 && forall m: nat | 1 <= m <= n :: |filters[m]| == m + 1
    requires Solved(t, n - 1, filters[..n], errors[..n])
    requires u.exact && u.error == errors[n] && Filter(u.ks) == filters[n] && u.ks == t.ks + [filters[n][n]]
    ensures Solved(u, n, filters, errors)
  {
    forall m: nat | 1 <= m <= n
      ensures u.ks[m - 1] == filters[m][m]
    {
      assert m < n ==> t.ks[m - 1] == filters[..n][m][m];
    }
  }

  lemma NextLevinson(r: seq<real>, n: nat)
    requires n > 0
    ensures Levinson(r, n)
         == Step(Levinson(r, n - 1), Row(Filter(Levinson(r, n - 1).ks), r, n - 1, n), Floor(r))
  {
  }

  lemma FirstSolved(r: seq<real>, filters: seq<seq<real>>, errors: seq<real>)
    requires Tame(r, 0, filters, errors)
    ensures Solved(Levinson(r, 0), 0, filters, errors)
  {
    assert Predicts(filters[0], r, 0, errors[0]) && filters[0] == [1.0];
    FirstError(r, filters[0]);
  }

  lemma FirstError(r: seq<real>, a: seq<real>)
    requires a == [1.0]
    ensures Row(a, r, 0, 0) == At(r, 0)
  {
    assert Term(a, r, 0)(0) == 1.0 * At(r, 0);
    assert Sum(1, Term(a, r, 0)) == Sum(0, Term(a, r, 0)) + Term(a, r, 0)(0);
  }

  lemma NextSolved(r: seq<real>, n: nat, t: Trace, filters: seq<seq<real>>, errors: seq<real>)
    requires n > 0 && Tame(r, n, filters, errors) && |t.ks| == n - 1 && t.exact
    requires t.error == errors[n - 1] && Filter(t.ks) == filters[n - 1]
    ensures var u := Step(t, Row(Filter(t.ks), r, n - 1, n), Floor(r));
            && u.exact && u.error == errors[n] && Filter(u.ks) == filters[n]
            && u.ks == t.ks + [filters[n][n]]
  {
    var a, sum := filters[n - 1], Row(filters[n - 1], r, n - 1, n);
    var k := Unclamped(sum, t.error);
    Quotient(sum, t.error, k);
    assert Predicts(a, r, n - 1, errors[n - 1]);
    LevinsonStep(a, r, n, t.error, k);
    assert Predicts(filters[n], r, n, errors[n]);
    SolutionUnique(Up(a, k), filters[n], r, n, Shrunk(t.error, k), errors[n], filters, errors);
    assert (t.ks + [k])[..n - 1] == t.ks;
  }

  // The other way round: whenever the recursion reports that nothing bound, its filters are such solutions.
  lemma {:induction false} ExactIsTame(r: seq<real>, n: nat) returns (filters: seq<seq<real>>, errors: seq<real>)
    requires Levinson(r, n).exact
    ensures Tame(r, n, filters, errors)
    decreases n
  {
    LevinsonPredicts(r, n);
    var t := Levinson(r, n);
    if n == 0 {
      filters, errors := [Filter(t.ks)], [t.error];
    } else {
      ExactBelow(r, n);
      var fs, es := ExactIsTame(r, n - 1);
      filters, errors := fs + [Filter(t.ks)], es + [t.error];
      OneMoreTame(r, n, fs, es, Filter(t.ks), t.error);
    }
  }

  lemma ExactBelow(r: seq<real>, n: nat)
    requires n > 0 && Levinson(r, n).exact
    ensures var t := Levinson(r, n);
            && Levinson(r, n - 1).exact && -0.97 <= Filter(t.ks)[n] <= 0.97
            && t.error >= 0.000000000001 && t.error >= 0.0000001 * At(r, 0)
  {
    var s, t := Levinson(r, n - 1), Levinson(r, n);
    NextLevinson(r, n);
    assert t.ks == s.ks + [t.ks[n - 1]] && Filter(t.ks)[n] == t.ks[n - 1];
  }

  lemma OneMoreTame(r: seq<real>, n: nat, filters: seq<seq<real>>, errors: seq<real>, a: seq<real>, e: real)
    requires n > 0 && Tame(r, n - 1, filters, errors) && Predicts(a, r, n, e) && a[0] == 1.0 && -0.97 <= a[n] <= 0.97
    requires e >= 0.000000000001 && e >= 0.0000001 * At(r, 0)
    ensures Tame(r, n, filters + [a], errors + [e])
  {
    forall m: nat | m <= n
      ensures Predicts((filters + [a])[m], r, m, (errors + [e])[m])
    {
      assert m < n ==> Predicts(filters[m], r, m, errors[m]);
    }
  }

  // ----- when something binds

  // What a reflection leaves of the correlation at the next lag.
  function Left(sum: real, error: real, k: real): real {
    Lpc.Max(sum + k * error, -(sum + k * error))
  }

  // Of all reflections from -0.97 to 0.97 the one taken leaves the least correlation at lag n.
  lemma NearestReflection(r: seq<real>, n: nat, y: real)
    requires n > 0 && -0.97 <= y <= 0.97
    ensures var t, k := Levinson(r, n - 1), Levinson(r, n).ks[n - 1];
            var sum := Row(Filter(t.ks), r, n - 1, n);
            -0.97 <= k <= 0.97 && Left(sum, t.error, k) <= Left(sum, t.error, y)
  {
    NextLevinson(r, n);
    var t := Levinson(r, n - 1);
    Closest(Row(Filter(t.ks), r, n - 1, n), t.error, y);
  }

  lemma Closest(sum: real, e: real, y: real)
    requires e > 0.0 && -0.97 <= y <= 0.97
    ensures var k := Clamp(Unclamped(sum, e)); -0.97 <= k <= 0.97 && Left(sum, e, k) <= Left(sum, e, y)
  {
    var raw := Unclamped(sum, e);
    var k := Clamp(raw);
    Quotient(sum, e, raw);
    Around(raw, e, sum, k);
    Around(raw, e, sum, y);
    if raw > 0.97 {
      ProductOrdered(raw - k, raw - y, e);
    } else if raw < -0.97 {
      ProductOrdered(k - raw, y - raw, e);
    }
  }

  lemma Around(raw: real, e: real, sum: real, k: real)
    requires e > 0.0 && raw * e == -sum
    ensures Left(sum, e, k) == if k >= raw then Times(k - raw, e) else Times(raw - k, e)
    ensures Left(sum, e, k) >= 0.0
  {
    assert sum + k * e == (k - raw) * e;
    if k > raw {
      Positive(k - raw, e);
    } else if k < raw {
      Positive(raw - k, e);
    }
  }

  lemma ProductOrdered(x: real, y: real, e: real)
    requires 0.0 <= x <= y && e > 0.0
    ensures Times(x, e) <= Times(y, e)
  {
  }

  function Smallest(r0: real): real {
    if 0.0000001 * r0 >= 0.000000000001 then 0.0000001 * r0 else 0.000000000001
  }

  // The error shrinks by the square of the reflection, not below 10^-7 of the power nor below 10^-12, and
  // starts at the power.
  lemma ErrorShrinks(r: seq<real>, n: nat)
    ensures Levinson(r, 0).error == if At(r, 0) >= 0.000000000001 then At(r, 0) else 0.000000000001
    ensures n > 0 ==>
              var e, k := Levinson(r, n - 1).error, Levinson(r, n).ks[n - 1];
              var left := Times(e, 1.0 - Square(k));
              Levinson(r, n).error == if left >= Smallest(At(r, 0)) then left else Smallest(At(r, 0))
  {
    FirstErrorIs(r);
    if n > 0 {
      var t := Levinson(r, n - 1);
      NextLevinson(r, n);
      NextErrorIs(r, t, Row(Filter(t.ks), r, n - 1, n));
    }
  }

  lemma FirstErrorIs(r: seq<real>)
    ensures Levinson(r, 0).error == if At(r, 0) >= 0.000000000001 then At(r, 0) else 0.000000000001
  {
  }

  lemma NextErrorIs(r: seq<real>, t: Trace, sum: real)
    requires t.error >= Lpc.FLOOR
    ensures var u := Step(t, sum, Floor(r));
            var left := Times(t.error, 1.0 - Square(u.ks[|t.ks|]));
            u.error == if left >= Smallest(At(r, 0)) then left else Smallest(At(r, 0))
  {
    FloorIs(r);
    ShrunkIs(t.error, Step(t, sum, Floor(r)).ks[|t.ks|]);
  }

  lemma FloorIs(r: seq<real>)
    ensures Floor(r) == Smallest(At(r, 0))
  {
  }

  lemma ShrunkIs(e: real, k: real)
    ensures Shrunk(e, k) == Times(e, 1.0 - Square(k))
  {
  }
}
