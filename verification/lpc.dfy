/** Finite sums of reals. */
module Sums {

  function Sum(n: nat, f: nat -> real): real {
    if n == 0 then 0.0 else Sum(n - 1, f) + f(n - 1)
  }

  function Mix(x: real, y: real, k: real): real {
    x + k * y
  }

  lemma {:induction false} SumEqual(n: nat, f: nat -> real, g: nat -> real)
    requires forall i: nat | i < n :: f(i) == g(i)
    ensures Sum(n, f) == Sum(n, g)
  {
    if n != 0 {
      SumEqual(n - 1, f, g);
    }
  }

  lemma {:induction false} SumMix(n: nat, f: nat -> real, g: nat -> real, h: nat -> real, k: real)
    requires forall i: nat | i < n :: h(i) == Mix(f(i), g(i), k)
    ensures Sum(n, h) == Mix(Sum(n, f), Sum(n, g), k)
  {
    if n != 0 {
      SumMix(n - 1, f, g, h, k);
      MixAdd(Sum(n - 1, f), Sum(n - 1, g), f(n - 1), g(n - 1), k);
    }
  }

  lemma MixAdd(a: real, b: real, c: real, d: real, k: real)
    ensures Mix(a, b, k) + Mix(c, d, k) == Mix(a + c, b + d, k)
  {
  }

  lemma {:induction false} SumFirst(n: nat, f: nat -> real, g: nat -> real)
    requires forall i: nat | i < n :: g(i) == f(i + 1)
    ensures Sum(n + 1, f) == f(0) + Sum(n, g)
  {
    if n != 0 {
      SumFirst(n - 1, f, g);
    }
  }

  // The same terms from the last to the first.
  lemma {:induction false} SumReverse(n: nat, f: nat -> real, g: nat -> real)
    requires forall i: nat | i < n :: g(i) == f(n - 1 - i)
    ensures Sum(n, f) == Sum(n, g)
  {
    if n != 0 {
      var h := (i: nat) => g(i + 1);
      SumFirst(n - 1, g, h);
      SumReverse(n - 1, f, h);
    }
  }

  function Backwards(f: nat -> real, n: nat): nat -> real {
    (j: nat) => f(if j <= n then n - j else 0)
  }

  lemma SumBackwards(n: nat, f: nat -> real)
    ensures Sum(n + 1, f) == Sum(n + 1, Backwards(f, n))
  {
    SumReverse(n + 1, f, Backwards(f, n));
  }

  lemma {:induction false} SumZero(n: nat, f: nat -> real)
    requires forall i: nat | i < n :: f(i) == 0.0
    ensures Sum(n, f) == 0.0
  {
    if n != 0 {
      SumZero(n - 1, f);
    }
  }

  lemma {:induction false} SumNonNegative(n: nat, f: nat -> real)
    requires forall i: nat | i < n :: f(i) >= 0.0
    ensures Sum(n, f) >= 0.0
  {
    if n != 0 {
      SumNonNegative(n - 1, f);
    }
  }

  function Across(f: (nat, nat) -> real, i: nat): nat -> real {
    (j: nat) => f(i, j)
  }

  function Along(f: (nat, nat) -> real, j: nat): nat -> real {
    (i: nat) => f(i, j)
  }

  function Rows(f: (nat, nat) -> real, n: nat): nat -> real {
    (i: nat) => Sum(n, Across(f, i))
  }

  function Columns(f: (nat, nat) -> real, m: nat): nat -> real {
    (j: nat) => Sum(m, Along(f, j))
  }

  // Two sums over a rectangle may be taken in either order.
  lemma {:induction false} SumSwap(m: nat, n: nat, f: (nat, nat) -> real)
    ensures Sum(m, Rows(f, n)) == Sum(n, Columns(f, m))
  {
    if m == 0 {
      SumZero(n, Columns(f, 0));
    } else {
      SumSwap(m - 1, n, f);
      var last := Across(f, m - 1);
      forall j: nat | j < n
        ensures Columns(f, m)(j) == Mix(Columns(f, m - 1)(j), last(j), 1.0)
      {
        assert Columns(f, m)(j) == Sum(m - 1, Along(f, j)) + Along(f, j)(m - 1);
      }
      SumMix(n, Columns(f, m - 1), last, Columns(f, m), 1.0);
    }
  }
}

/** Linear prediction by the Levinson-Durbin recursion, and the filter rebuilt from its reflections.
    Exact reals; the conversion of stored reflections to single precision is not modelled. */
module Lpc {
  import opened Reals
  import opened Sums

  const CLAMP: real := 0.97
  const FLOOR: real := 0.000000000001        // 1.e-12
  const RELATIVE_FLOOR: real := 0.0000001    // 1.e-7
  const NOISE: real := 1.0001                // white-noise correction of r[0]

  function Max(x: real, y: real): real {
    if x >= y then x else y
  }

  function Clamp(x: real): real {
    if x < -CLAMP then -CLAMP else if x > CLAMP then CLAMP else x
  }

  function At(s: seq<real>, i: int): real {
    if 0 <= i < |s| then s[i] else 0.0
  }

  function Abs(i: int): nat {
    if i < 0 then -i else i
  }

  // ----- the filter as a function of its reflections

  // One step up: the filter of order n from that of order n - 1.
  function Up(prev: seq<real>, k: real): (a: seq<real>)
    requires |prev| > 0
    ensures |a| == |prev| + 1
  {
    var n := |prev|;
    seq(n + 1, j requires 0 <= j <= n => if j == 0 then prev[0] else if j < n then Mix(prev[j], prev[n - j], k) else k)
  }

  function Filter(ks: seq<real>): (a: seq<real>)
    ensures |a| == |ks| + 1 && a[0] == 1.0
  {
    if ks == [] then [1.0] else Up(Filter(ks[..|ks| - 1]), ks[|ks| - 1])
  }

  // 1 - k^2, by which the error shrinks.
  function Gain(k: real): real {
    1.0 - k * k
  }

  // The error that a step leaves.
  function Shrunk(error: real, k: real): real {
    error * Gain(k)
  }

  lemma GainPositive(k: real)
    requires -1.0 < k < 1.0
    ensures Gain(k) > 0.0
  {
    Positive(1.0 - k, 1.0 + k);
    assert (1.0 - k) * (1.0 + k) == 1.0 - k * k;
  }

  // The step back down, which exists because no reflection reaches 1.
  function Down(a: seq<real>): (prev: seq<real>)
    requires |a| > 1 && Gain(a[|a| - 1]) > 0.0
    ensures |prev| == |a| - 1
  {
    var n := |a| - 1;
    seq(n, j requires 0 <= j < n => if j == 0 then a[0] else Solved(a[j], a[n - j], a[n]))
  }

  // x from u == x + k*y and v == y + k*x
  function Solved(u: real, v: real, k: real): real
    requires Gain(k) > 0.0
  {
    (u - k * v) / Gain(k)
  }

  lemma Solve(x: real, y: real, k: real)
    requires Gain(k) > 0.0
    ensures Solved(Mix(x, y, k), Mix(y, x, k), k) == x
  {
    var d := Gain(k);
    assert k * (y + k * x) == k * y + k * (k * x);
    assert k * (k * x) == (k * k) * x;
    assert x * d == x - (k * k) * x;
    assert (x + k * y) - k * (y + k * x) == x * d;
    Cancelled(x, d);
  }

  lemma Cancelled(x: real, d: real)
    requires d > 0.0
    ensures (x * d) / d == x
  {
  }

  lemma DownUndoesUp(prev: seq<real>, k: real)
    requires |prev| > 0 && Gain(k) > 0.0
    ensures Down(Up(prev, k)) == prev
  {
    var a, n := Up(prev, k), |prev|;
    var d := Down(a);
    forall j | 0 <= j < n
      ensures d[j] == prev[j]
    {
      if j > 0 {
        var x, y := prev[j], prev[n - j];
        assert d[j] == Solved(Mix(x, y, k), Mix(y, x, k), k);
        Solve(x, y, k);
      }
    }
  }

  ghost predicate Contracting(ks: seq<real>) {
    forall i | 0 <= i < |ks| :: -1.0 < ks[i] < 1.0
  }

  // Stored reflections and filters determine each other.
  lemma {:induction false} FilterInjective(ks: seq<real>, ls: seq<real>)
    requires Contracting(ks) && Contracting(ls) && Filter(ks) == Filter(ls)
    ensures ks == ls
    decreases |ks|
  {
    assert |ks| == |ls|;
    if ks != [] {
      var n := |ks| - 1;
      assert ks[n] == Filter(ks)[n + 1] == Filter(ls)[n + 1] == ls[n];
      GainPositive(ks[n]);
      DownUndoesUp(Filter(ks[..n]), ks[n]);
      DownUndoesUp(Filter(ls[..n]), ls[n]);
      FilterInjective(ks[..n], ls[..n]);
    }
  }

  // ----- the normal equations

  // Sum of a[j] * r[|i-j|] over the n+1 coefficients of a filter of order n.
  function Term(a: seq<real>, r: seq<real>, i: int): nat -> real {
    (j: nat) => At(a, j) * At(r, Abs(i - j))
  }

  function Row(a: seq<real>, r: seq<real>, n: nat, i: int): real {
    Sum(n + 1, Term(a, r, i))
  }

  // The filter a of order n predicts r: no correlation is left at lags 1..n, and `error` at lag 0.
  ghost predicate Predicts(a: seq<real>, r: seq<real>, n: nat, error: real) {
    && |a| == n + 1
    && Row(a, r, n, 0) == error
    && forall i | 1 <= i <= n :: Row(a, r, n, i) == 0.0
  }

  lemma UpAt(prev: seq<real>, k: real, j: nat)
    requires |prev| > 0 && prev[0] == 1.0 && j <= |prev|
    ensures At(Up(prev, k), j) == Mix(At(prev, j), At(prev, |prev| - j), k)
  {
    assert k * 1.0 == k && k * 0.0 == 0.0;
  }

  // One step up mixes the row at i with the row at n - i.
  lemma RowOfUp(prev: seq<real>, r: seq<real>, k: real, i: int)
    requires |prev| > 0 && prev[0] == 1.0
    ensures var n := |prev|; Row(Up(prev, k), r, n, i) == Mix(Row(prev, r, n, i), Row(prev, r, n, n - i), k)
  {
    var n := |prev|;
    var f, back := Term(prev, r, i), Backwards(Term(prev, r, n - i), n);
    SumBackwards(n, Term(prev, r, n - i));
    forall j: nat | j < n + 1
      ensures Term(Up(prev, k), r, i)(j) == Mix(f(j), back(j), k)
    {
      TermOfUp(prev, r, k, i, j);
    }
    SumMix(n + 1, f, back, Term(Up(prev, k), r, i), k);
  }

  lemma TermOfUp(prev: seq<real>, r: seq<real>, k: real, i: int, j: nat)
    requires |prev| > 0 && prev[0] == 1.0 && j <= |prev|
    ensures Term(Up(prev, k), r, i)(j) == Mix(Term(prev, r, i)(j), Backwards(Term(prev, r, |prev| - i), |prev|)(j), k)
  {
    var n := |prev|;
    UpAt(prev, k, j);
    assert Abs(n - i - (n - j)) == Abs(i - j);
    MixTerm(At(prev, j), At(prev, n - j), k, At(r, Abs(i - j)));
  }

  lemma MixTerm(x: real, y: real, k: real, c: real)
    ensures Mix(x, y, k) * c == Mix(x * c, y * c, k)
  {
  }

  // The coefficient beyond the order is zero, so a longer sum changes nothing.
  lemma RowPadded(a: seq<real>, r: seq<real>, n: nat, i: int)
    requires |a| == n > 0
    ensures Row(a, r, n, i) == Row(a, r, n - 1, i)
  {
    assert Term(a, r, i)(n) == 0.0 * At(r, Abs(i - n));
  }

  // One exact Levinson step.
  lemma LevinsonStep(a: seq<real>, r: seq<real>, n: nat, error: real, k: real)
    requires n > 0 && Predicts(a, r, n - 1, error) && a[0] == 1.0 && k * error == -Row(a, r, n - 1, n)
    ensures Predicts(Up(a, k), r, n, Shrunk(error, k))
  {
    var b := Up(a, k);
    RowOfUp(a, r, k, 0);
    RowPadded(a, r, n, 0);
    RowPadded(a, r, n, n);
    FirstRow(error, Row(a, r, n - 1, n), k);
    RowOfUp(a, r, k, n);
    forall i {:trigger Row(b, r, n, i)} | 1 <= i < n
      ensures Row(b, r, n, i) == 0.0
    {
      RowOfUp(a, r, k, i);
      RowPadded(a, r, n, i);
      RowPadded(a, r, n, n - i);
    }
  }

  lemma FirstRow(error: real, sum: real, k: real)
    requires k * error == -sum
    ensures Mix(error, sum, k) == Shrunk(error, k) && Mix(sum, error, k) == 0.0
  {
    assert error * (1.0 - k * k) == error - k * (k * error);
  }

  // ----- the recursion with its clamp and its floors

  datatype Trace = Trace(ks: seq<real>, error: real, exact: bool)

  function Floor(r: seq<real>): real {
    Max(At(r, 0) * RELATIVE_FLOOR, FLOOR)
  }

  function Unclamped(sum: real, error: real): real
    requires error > 0.0
  {
    -sum / error
  }

  // One step: the clamped reflection, and the error with its floor.
  function Step(t: Trace, sum: real, floor: real): Trace
    requires t.error >= FLOOR
  {
    var raw := Unclamped(sum, t.error);
    var k := Clamp(raw);
    var e := Shrunk(t.error, k);
    Trace(t.ks + [k], Max(e, floor), t.exact && k == raw && e >= floor)
  }

  // The first n steps on the correlations r; `exact` says that no clamp and no floor has bound.
  function Levinson(r: seq<real>, n: nat): (t: Trace)
    ensures |t.ks| == n && t.error >= FLOOR
  {
    if n == 0 then Trace([], Max(At(r, 0), FLOOR), At(r, 0) >= FLOOR)
    else
      var t := Levinson(r, n - 1);
      Step(t, Row(Filter(t.ks), r, n - 1, n), Floor(r))
  }

  lemma {:induction false} ReflectionsClamped(r: seq<real>, n: nat)
    ensures forall i | 0 <= i < n :: -CLAMP <= Levinson(r, n).ks[i] <= CLAMP
    ensures Contracting(Levinson(r, n).ks)
  {
    if n != 0 {
      ReflectionsClamped(r, n - 1);
    }
  }

  // While nothing has bound, the filter solves the normal equations of its order.
  lemma {:induction false} LevinsonPredicts(r: seq<real>, n: nat)
    requires Levinson(r, n).exact
    ensures Predicts(Filter(Levinson(r, n).ks), r, n, Levinson(r, n).error)
  {
    if n == 0 {
      var a := Filter([]);
      assert Term(a, r, 0)(0) == 1.0 * At(r, 0);
      assert Sum(1, Term(a, r, 0)) == Sum(0, Term(a, r, 0)) + Term(a, r, 0)(0);
    } else {
      var t := Levinson(r, n - 1);
      LevinsonPredicts(r, n - 1);
      ExactStep(t, r, n);
    }
  }

  lemma ExactStep(t: Trace, r: seq<real>, n: nat)
    requires n > 0 && |t.ks| == n - 1 && t.error >= FLOOR && Predicts(Filter(t.ks), r, n - 1, t.error)
    requires Step(t, Row(Filter(t.ks), r, n - 1, n), Floor(r)).exact
    ensures var u := Step(t, Row(Filter(t.ks), r, n - 1, n), Floor(r)); Predicts(Filter(u.ks), r, n, u.error)
  {
    var sum := Row(Filter(t.ks), r, n - 1, n);
    var u := Step(t, sum, Floor(r));
    var k := u.ks[n - 1];
    Quotient(sum, t.error, k);
    LevinsonStep(Filter(t.ks), r, n, t.error, k);
    assert u.ks[..n - 1] == t.ks;
  }

  lemma Quotient(sum: real, error: real, k: real)
    requires error > 0.0 && k == Unclamped(sum, error)
    ensures k * error == -sum
  {
  }

  // ----- the loops

  // coefficients: the filter rebuilt from stored reflections.
  method Coefficients(ks: seq<real>) returns (a: array<real>)
    ensures fresh(a) && a[..] == Filter(ks)
  {
    a := new real[|ks| + 1](_ => 0.0);
    a[0] := 1.0;
    var n := 1;
    while n <= |ks|
      invariant 1 <= n <= |ks| + 1 && a[..n] == Filter(ks[..n - 1])
    {
      StepUp(a, n, ks[n - 1]);
      assert ks[..n][..n - 1] == ks[..n - 1];
      n := n + 1;
    }
    assert a[..n] == a[..] && ks[..n - 1] == ks;
  }

  // One step up in place, from a copy of the previous filter.
  method StepUp(a: array<real>, n: nat, k: real)
    requires 0 < n < a.Length
    modifies a
    ensures a[..n + 1] == Up(old(a[..n]), k)
  {
    var prev := a[..];
    var j := 1;
    while j < n
      invariant 1 <= j <= n
      invariant a[0] == prev[0]
      invariant forall i | 1 <= i < j :: a[i] == Mix(prev[i], prev[n - i], k)
      invariant forall i | j <= i < a.Length :: a[i] == prev[i]
    {
      a[j] := Mix(prev[j], prev[n - j], k);
      j := j + 1;
    }
    a[n] := k;
    assert a[..n + 1] == Up(prev[..n], k);
  }

  lemma TermAt(a: seq<real>, r: seq<real>, n: nat, j: nat)
    requires j < |a| && j <= n < |r|
    ensures Term(a, r, n)(j) == a[j] * r[n - j]
  {
    assert Abs(n - j) == n - j;
  }

  // The prediction error at lag n before the step.
  method Residual(a: array<real>, r: seq<real>, n: nat) returns (sum: real)
    requires 0 < n < a.Length && n < |r| && a[0] == 1.0
    ensures sum == Row(a[..n], r, n - 1, n)
  {
    ghost var f := Term(a[..n], r, n);
    sum := r[n];
    TermAt(a[..n], r, n, 0);
    assert 1.0 * r[n] == r[n] && Sum(1, f) == Sum(0, f) + f(0);
    var j := 1;
    while j < n
      invariant 1 <= j <= n && sum == Sum(j, f)
    {
      TermAt(a[..n], r, n, j);
      sum := sum + a[j] * r[n - j];
      j := j + 1;
    }
  }

  function Corrected(r: seq<real>): seq<real> {
    if r == [] then r else r[0 := r[0] * NOISE]
  }

  // The recursion of `analyse`: reflections and filter of one frame from its correlations.
  method Analyse(r0: seq<real>, order: nat) returns (ks: seq<real>, a: array<real>, error: real)
    requires |r0| == order + 1
    ensures ks == Levinson(Corrected(r0), order).ks && error == Levinson(Corrected(r0), order).error
    ensures fresh(a) && a[..] == Filter(ks)
  {
    var r := Corrected(r0);
    a := new real[order + 1](_ => 0.0);
    a[0] := 1.0;
    ks := [];
    error := Max(r[0], FLOOR);
    var n := 1;
    ghost var m: nat := 0;
    while n <= order
      invariant n == m + 1 && m <= order
      invariant ks == Levinson(r, m).ks && error == Levinson(r, m).error
      invariant a[..n] == Filter(ks)
    {
      assert a[0] == a[..n][0];
      var sum := Residual(a, r, n);
      var k := Clamp(Unclamped(sum, error));
      StepUp(a, n, k);
      assert (ks + [k])[..n - 1] == ks;
      ks := ks + [k];
      error := Max(Shrunk(error, k), Floor(r));
      n, m := n + 1, n;
    }
    assert a[..n] == a[..];
  }
}
