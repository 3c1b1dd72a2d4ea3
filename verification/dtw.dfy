/** Endpoint-constrained, slope-banded dynamic time warping between two lists of feature frames. */
module Dtw {
  import opened Reals

  const DIMENSIONS: nat := 13
  const MAX_FRAMES: nat := 160
  const INF: real := 100000000000000000000.0

  // A float of the source: a finite number (rounding is not modelled), an infinity or a NaN.
  datatype Float = Finite(value: real) | NonFinite

  type Frame = f: seq<Float> | |f| == DIMENSIONS witness seq(DIMENSIONS, i => NonFinite)
  type Features = seq<Frame>

  function Abs(x: real): real {
    if x < 0.0 then -x else x
  }

  function Min(x: real, y: real): real {
    if x <= y then x else y
  }

  function Min3(x: real, y: real, z: real): real {
    Min(Min(x, y), z)
  }

  predicate ValidFrame(f: Frame) {
    forall c :: 0 <= c < DIMENSIONS ==> f[c].Finite? && Abs(f[c].value) <= 64.0
  }

  predicate Valid(f: Features) {
    && 0 < |f| <= MAX_FRAMES
    && forall i :: 0 <= i < |f| ==> ValidFrame(f[i])
  }

  // ----- the cost of one cell

  // The first c squared differences, each divided by the number of dimensions.
  function CostUpTo(x: Frame, y: Frame, c: nat): (r: real)
    requires c <= DIMENSIONS && ValidFrame(x) && ValidFrame(y)
  {
    if c == 0 then 0.0
    else CostUpTo(x, y, c - 1) + Term(x[c - 1].value - y[c - 1].value)
  }

  function Term(d: real): real {
    d * d / DIMENSIONS as real
  }

  function Cost(x: Frame, y: Frame): real
    requires ValidFrame(x) && ValidFrame(y)
  {
    CostUpTo(x, y, |x|)
  }

  lemma TermBounds(d: real)
    requires Abs(d) <= 128.0
    ensures 0.0 <= Term(d) <= 16384.0 / DIMENSIONS as real
    ensures Term(-d) == Term(d)
  {
    var x := Abs(d);
    assert d * d == x * x == (-d) * (-d);
    assert x * x <= 128.0 * x;
  }

  lemma {:induction false} CostBounds(x: Frame, y: Frame, c: nat)
    requires c <= DIMENSIONS && ValidFrame(x) && ValidFrame(y)
    ensures 0.0 <= CostUpTo(x, y, c) <= c as real * (16384.0 / DIMENSIONS as real)
    ensures CostUpTo(x, y, c) == CostUpTo(y, x, c)
  {
    if c != 0 {
      CostBounds(x, y, c - 1);
      var d := x[c - 1].value - y[c - 1].value;
      TermBounds(d);
      assert y[c - 1].value - x[c - 1].value == -d;
    }
  }

  lemma CellBounds(x: Frame, y: Frame)
    requires ValidFrame(x) && ValidFrame(y)
    ensures 0.0 <= Cost(x, y) <= 16384.0 && Cost(x, y) == Cost(y, x)
  {
    CostBounds(x, y, |x|);
  }

  lemma {:induction false} CostOfEqual(x: Frame, c: nat)
    requires c <= DIMENSIONS && ValidFrame(x)
    ensures CostUpTo(x, x, c) == 0.0
  {
    if c != 0 {
      CostOfEqual(x, c - 1);
    }
  }

  // ----- the band and the warping paths

  predicate InBand(n: nat, m: nat, i: nat, j: nat)
    requires 0 < n && 0 < m
  {
    Abs(i as real / n as real - j as real / m as real) <= 0.20 + 1.0 / (if n <= m then n else m) as real
  }

  datatype Step = Diagonal | Down | Right

  function Weight(s: Step): nat {
    if s == Diagonal then 2 else 1
  }

  function Weighted(s: Step, cost: real): real {
    if s == Diagonal then 2.0 * cost else cost
  }

  function FromRow(s: Step, i: nat): nat
    requires i > 0
  {
    if s == Right then i else i - 1
  }

  function FromColumn(s: Step, j: nat): nat
    requires j > 0
  {
    if s == Down then j else j - 1
  }

  // The steps lead from the corner before (1,1) to (i,j), and every cell they enter lies in the band.
  ghost predicate IsPath(n: nat, m: nat, path: seq<Step>, i: nat, j: nat)
    requires 0 < n && 0 < m
    decreases |path|
  {
    if path == [] then i == 0 && j == 0
    else
      var s := path[|path| - 1];
      && 0 < i <= n && 0 < j <= m && InBand(n, m, i, j)
      && IsPath(n, m, path[..|path| - 1], FromRow(s, i), FromColumn(s, j))
  }

  ghost function PathCost(a: Features, b: Features, path: seq<Step>, i: nat, j: nat): real
    requires Valid(a) && Valid(b) && IsPath(|a|, |b|, path, i, j)
    decreases |path|
  {
    if path == [] then 0.0
    else
      var s := path[|path| - 1];
      PathCost(a, b, path[..|path| - 1], FromRow(s, i), FromColumn(s, j))
      + Weighted(s, Cost(a[i - 1], b[j - 1]))
  }

  ghost function TotalWeight(path: seq<Step>): nat {
    if path == [] then 0 else TotalWeight(path[..|path| - 1]) + Weight(path[|path| - 1])
  }

  // A path over an n x m grid always weighs n + m.
  lemma {:induction false} PathWeight(n: nat, m: nat, path: seq<Step>, i: nat, j: nat)
    requires 0 < n && 0 < m && IsPath(n, m, path, i, j)
    ensures TotalWeight(path) == i + j
    decreases |path|
  {
    if path != [] {
      var s := path[|path| - 1];
      PathWeight(n, m, path[..|path| - 1], FromRow(s, i), FromColumn(s, j));
    }
  }

  lemma {:induction false} PathCostBound(a: Features, b: Features, path: seq<Step>, i: nat, j: nat)
    requires Valid(a) && Valid(b) && IsPath(|a|, |b|, path, i, j)
    ensures 0.0 <= PathCost(a, b, path, i, j) <= (i + j) as real * 16384.0
    decreases |path|
  {
    if path != [] {
      var s := path[|path| - 1];
      PathCostBound(a, b, path[..|path| - 1], FromRow(s, i), FromColumn(s, j));
      CellBounds(a[i - 1], b[j - 1]);
    }
  }

  // ----- the recurrence

  // The entry at (i,j) of the table of which the code keeps two rows.
  function Entry(a: Features, b: Features, i: nat, j: nat): real
    requires Valid(a) && Valid(b) && i <= |a| && j <= |b|
    decreases i + j
  {
    if i == 0 || j == 0 then (if i == j then 0.0 else INF)
    else if !InBand(|a|, |b|, i, j) then INF
    else
      var c := Cost(a[i - 1], b[j - 1]);
      Min3(Entry(a, b, i - 1, j - 1) + 2.0 * c, Entry(a, b, i - 1, j) + c, Entry(a, b, i, j - 1) + c)
  }

  // No path is cheaper than the entry.
  lemma {:induction false} EntryIsLowerBound(a: Features, b: Features, path: seq<Step>, i: nat, j: nat)
    requires Valid(a) && Valid(b) && i <= |a| && j <= |b| && IsPath(|a|, |b|, path, i, j)
    ensures Entry(a, b, i, j) <= PathCost(a, b, path, i, j)
    decreases |path|
  {
    if path != [] {
      var s := path[|path| - 1];
      EntryIsLowerBound(a, b, path[..|path| - 1], FromRow(s, i), FromColumn(s, j));
    }
  }

  ghost predicate Achieves(a: Features, b: Features, path: seq<Step>, i: nat, j: nat, cost: real)
    requires Valid(a) && Valid(b)
  {
    IsPath(|a|, |b|, path, i, j) && PathCost(a, b, path, i, j) == cost
  }

  // Any entry below INF is the cost of a path.
  lemma {:induction false} EntryIsAchieved(a: Features, b: Features, i: nat, j: nat) returns (path: seq<Step>)
    requires Valid(a) && Valid(b) && i <= |a| && j <= |b| && Entry(a, b, i, j) < INF
    ensures Achieves(a, b, path, i, j, Entry(a, b, i, j))
    decreases i + j
  {
    if i == 0 || j == 0 {
      path := [];
    } else {
      var c := Cost(a[i - 1], b[j - 1]);
      CellBounds(a[i - 1], b[j - 1]);
      var s := if Entry(a, b, i, j) == Entry(a, b, i - 1, j - 1) + 2.0 * c then Diagonal
               else if Entry(a, b, i, j) == Entry(a, b, i - 1, j) + c then Down
               else Right;
      var head := EntryIsAchieved(a, b, FromRow(s, i), FromColumn(s, j));
      path := head + [s];
      assert path[..|path| - 1] == head;
    }
  }

  // Swapping the two inputs transposes the table.
  lemma {:induction false} EntrySymmetric(a: Features, b: Features, i: nat, j: nat)
    requires Valid(a) && Valid(b) && i <= |a| && j <= |b|
    ensures Entry(a, b, i, j) == Entry(b, a, j, i)
    decreases i + j
  {
    if i != 0 && j != 0 {
      EntrySymmetric(a, b, i - 1, j - 1);
      EntrySymmetric(a, b, i - 1, j);
      EntrySymmetric(a, b, i, j - 1);
      CellBounds(a[i - 1], b[j - 1]);
    }
  }

  // ----- the band is never blocked

  // The row of the staircase in column j: the least i with i/n >= j/m, for n <= m.
  ghost function Stair(n: nat, m: nat, j: nat): nat {
    if j == 0 then 0
    else
      var i := Stair(n, m, j - 1);
      if m * i < j * n then i + 1 else i
  }

  lemma {:induction false} StairBounds(n: nat, m: nat, j: nat)
    requires 0 < n <= m
    ensures j * n <= m * Stair(n, m, j) < j * n + m
  {
    if j != 0 {
      StairBounds(n, m, j - 1);
      var i := Stair(n, m, j - 1);
      assert (j - 1) * n == j * n - n && m * (i + 1) == m * i + m;
    }
  }

  lemma StairInBand(n: nat, m: nat, i: nat, j: nat)
    requires 0 < n <= m && j * n <= m * i < j * n + m
    ensures InBand(n, m, i, j)
  {
    var x, y := i as real / n as real, j as real / m as real;
    var rn, rm := n as real, m as real;
    Divided(i as real, rn);
    Divided(j as real, rm);
    Casts(n, m, i, j);
    Scaled(rn, rm, x, y, i as real, j as real);
  }

  lemma Divided(a: real, b: real)
    requires b > 0.0
    ensures a / b * b == a
  {
  }

  lemma Casts(n: nat, m: nat, i: nat, j: nat)
    requires j * n <= m * i < j * n + m
    ensures j as real * n as real <= m as real * i as real < j as real * n as real + m as real
  {
    assert (j * n) as real == j as real * n as real;
    assert (m * i) as real == m as real * i as real;
  }

  lemma Scaled(rn: real, rm: real, x: real, y: real, ri: real, rj: real)
    requires rn > 0.0 && rm > 0.0 && x * rn == ri && y * rm == rj
    requires rj * rn <= rm * ri < rj * rn + rm
    ensures 0.0 <= x - y < 1.0 / rn
  {
    var q := 1.0 / rn;
    assert q * rn == 1.0;
    var s := rm * rn;
    assert (y * rm) * rn == y * s && rm * (x * rn) == x * s && rm == q * s;
    assert s > 0.0;
    assert (x - y) * s >= 0.0 && (x - y - q) * s < 0.0;
  }

  ghost function StairPath(n: nat, m: nat, j: nat): seq<Step> {
    if j == 0 then []
    else StairPath(n, m, j - 1) + [if Stair(n, m, j) == Stair(n, m, j - 1) then Right else Diagonal]
  }

  lemma {:induction false} StairIsPath(n: nat, m: nat, j: nat)
    requires 0 < n <= m && j <= m
    ensures IsPath(n, m, StairPath(n, m, j), Stair(n, m, j), j)
  {
    if j != 0 {
      StairIsPath(n, m, j - 1);
      StairBounds(n, m, j);
      var i, path := Stair(n, m, j), StairPath(n, m, j);
      assert path[..|path| - 1] == StairPath(n, m, j - 1);
      StairInBand(n, m, i, j);
      StairRange(n, m, i, j);
    }
  }

  lemma StairRange(n: nat, m: nat, i: nat, j: nat)
    requires 0 < n <= m && 0 < j <= m && j * n <= m * i < j * n + m
    ensures 0 < i <= n && (j == m ==> i == n)
  {
    Mul(n, 1, j);
    Mul(n, j, m);
    MulNext(m, n, i);
    MulNext(m, i, n);
    MulNext(m, i, 1);
  }

  lemma Mul(k: nat, x: nat, y: nat)
    ensures x <= y ==> x * k <= y * k
  {
  }

  lemma MulNext(m: nat, x: nat, y: nat)
    ensures x < y ==> m * x + m <= m * y
  {
    if x < y {
      assert m * (x + 1) <= m * y;
    }
  }

  ghost function Flip(s: Step): Step {
    match s
    case Diagonal => Diagonal
    case Down => Right
    case Right => Down
  }

  ghost function Transposed(path: seq<Step>): seq<Step> {
    if path == [] then [] else Transposed(path[..|path| - 1]) + [Flip(path[|path| - 1])]
  }

  lemma {:induction false} TransposedIsPath(n: nat, m: nat, path: seq<Step>, i: nat, j: nat)
    requires 0 < n && 0 < m && IsPath(n, m, path, i, j)
    ensures IsPath(m, n, Transposed(path), j, i)
    decreases |path|
  {
    if path != [] {
      var s, head := path[|path| - 1], path[..|path| - 1];
      TransposedIsPath(n, m, head, FromRow(s, i), FromColumn(s, j));
      var t := Transposed(path);
      assert t[..|t| - 1] == Transposed(head);
    }
  }

  // Whatever the two lengths, the band holds a path from corner to corner.
  lemma BandHasPath(n: nat, m: nat) returns (path: seq<Step>)
    requires 0 < n && 0 < m
    ensures IsPath(n, m, path, n, m)
  {
    if n <= m {
      path := StairPath(n, m, m);
      StairIsPath(n, m, m);
      StairBounds(n, m, m);
      StairRange(n, m, Stair(n, m, m), m);
    } else {
      StairIsPath(m, n, n);
      StairBounds(m, n, n);
      StairRange(m, n, Stair(m, n, n), n);
      path := Transposed(StairPath(m, n, n));
      TransposedIsPath(m, n, StairPath(m, n, n), m, n);
    }
  }

  // The cost of the cheapest warping path from corner to corner.
  ghost predicate IsMinimum(a: Features, b: Features, cost: real)
    requires Valid(a) && Valid(b)
  {
    && (exists path :: Achieves(a, b, path, |a|, |b|, cost))
    && (forall path | IsPath(|a|, |b|, path, |a|, |b|) :: cost <= PathCost(a, b, path, |a|, |b|))
  }

  lemma LastEntryIsMinimum(a: Features, b: Features)
    requires Valid(a) && Valid(b)
    ensures IsMinimum(a, b, Entry(a, b, |a|, |b|))
    ensures 0.0 <= Entry(a, b, |a|, |b|) <= (|a| + |b|) as real * 16384.0
  {
    var n, m := |a|, |b|;
    var stair := BandHasPath(n, m);
    PathCostBound(a, b, stair, n, m);
    EntryIsLowerBound(a, b, stair, n, m);
    assert (n + m) as real * 16384.0 <= 320.0 * 16384.0 < INF;
    var best := EntryIsAchieved(a, b, n, m);
    PathCostBound(a, b, best, n, m);
    forall path | IsPath(n, m, path, n, m)
      ensures Entry(a, b, n, m) <= PathCost(a, b, path, n, m)
    {
      EntryIsLowerBound(a, b, path, n, m);
    }
  }

  // Equal inputs are at distance zero: the straight diagonal costs nothing.
  lemma {:induction false} EntryOfEqual(a: Features, i: nat)
    requires Valid(a) && i <= |a|
    ensures Entry(a, a, i, i) <= 0.0
    decreases i
  {
    if i != 0 {
      EntryOfEqual(a, i - 1);
      CostOfEqual(a[i - 1], |a[i - 1]|);
      assert InBand(|a|, |a|, i, i);
    }
  }

  // ----- the code

  ghost predicate IsSqrt(sqrt: real -> real) {
    forall x: real :: x >= 0.0 ==> sqrt(x) >= 0.0 && Square(sqrt(x)) == x
  }

  method CellCost(x: Frame, y: Frame) returns (cost: real)
    requires ValidFrame(x) && ValidFrame(y)
    ensures cost == Cost(x, y)
  {
    cost := 0.0;
    for c := 0 to |x|
      invariant cost == CostUpTo(x, y, c)
    {
      var d := x[c].value - y[c].value;
      cost := cost + d * d / DIMENSIONS as real;
    }
  }

  ghost predicate IsRow(a: Features, b: Features, i: nat, row: seq<real>)
    requires Valid(a) && Valid(b) && i <= |a|
  {
    |row| == |b| + 1 && forall j :: 0 <= j <= |b| ==> row[j] == Entry(a, b, i, j)
  }

  method FillRow(a: Features, b: Features, i: nat, prev: array<real>, row: array<real>)
    requires Valid(a) && Valid(b) && 0 < i <= |a| && prev != row && row.Length == |b| + 1
    requires IsRow(a, b, i - 1, prev[..])
    modifies row
    ensures IsRow(a, b, i, row[..])
  {
    forall j | 0 <= j < row.Length {
      row[j] := INF;
    }
    for j := 1 to |b| + 1
      invariant forall k :: 0 <= k < j ==> row[k] == Entry(a, b, i, k)
      invariant forall k :: j <= k <= |b| ==> row[k] == INF
    {
      assert prev[..][j - 1] == prev[j - 1] && prev[..][j] == prev[j];
      FillCell(a, b, i, j, prev, row);
    }
  }

  // One cell, from the three that precede it.
  method FillCell(a: Features, b: Features, i: nat, j: nat, prev: array<real>, row: array<real>)
    requires Valid(a) && Valid(b) && 0 < i <= |a| && 0 < j <= |b|
    requires prev != row && prev.Length == row.Length == |b| + 1 && row[j] == INF
    requires prev[j - 1] == Entry(a, b, i - 1, j - 1) && prev[j] == Entry(a, b, i - 1, j)
    requires row[j - 1] == Entry(a, b, i, j - 1)
    modifies row
    ensures row[j] == Entry(a, b, i, j) && forall k | 0 <= k < row.Length && k != j :: row[k] == old(row[k])
  {
    if InBand(|a|, |b|, i, j) {
      var cost := CellCost(a[i - 1], b[j - 1]);
      row[j] := Min3(prev[j - 1] + 2.0 * cost, prev[j] + cost, row[j - 1] + cost);
    }
  }

  method LastEntry(a: Features, b: Features) returns (r: real)
    requires Valid(a) && Valid(b)
    ensures r == Entry(a, b, |a|, |b|)
  {
    var prev := new real[|b| + 1](_ => INF);
    var row := new real[|b| + 1](_ => INF);
    prev[0] := 0.0;
    for i := 1 to |a| + 1
      invariant fresh(prev) && fresh(row) && prev != row && prev.Length == row.Length == |b| + 1
      invariant IsRow(a, b, i - 1, prev[..])
    {
      FillRow(a, b, i, prev, row);
      prev, row := row, prev;
    }
    r := prev[|b|];
    assert r == prev[..][|b|];
  }

  // r is the root of the cheapest path's cost per unit of weight.
  ghost predicate IsScore(a: Features, b: Features, r: real)
    requires Valid(a) && Valid(b)
  {
    0.0 <= r && IsMinimum(a, b, Total(r, |a| + |b|))
  }

  // The cost whose root mean over weight w is r.
  function Total(r: real, w: nat): real {
    Times(Square(r), w as real)
  }

  method RootOfMean(sqrt: real -> real, last: real, w: nat) returns (root: real)
    requires IsSqrt(sqrt) && w > 0 && 0.0 <= last <= w as real * 16384.0
    ensures 0.0 <= root <= 128.0 && Total(root, w) == last
  {
    var mean := last / w as real;
    MeanBound(last, w as real, mean);
    root := sqrt(mean);
    RootBound(root);
  }

  method Distance(sqrt: real -> real, a: Features, b: Features) returns (r: real)
    requires IsSqrt(sqrt)
    ensures r == 1000.0 <==> !Valid(a) || !Valid(b)
    ensures Valid(a) && Valid(b) ==> IsScore(a, b, r) && r <= 128.0
  {
    if !Valid(a) || !Valid(b) {
      return 1000.0;
    }
    var last := LastEntry(a, b);
    LastEntryIsMinimum(a, b);
    var root := RootOfMean(sqrt, last, |a| + |b|);
    r := if root < 1000.0 then root else 1000.0;
  }

  lemma MeanBound(last: real, w: real, mean: real)
    requires w > 0.0 && mean == last / w && 0.0 <= last <= w * 16384.0
    ensures 0.0 <= mean <= 16384.0 && mean * w == last
  {
    assert mean * w == last;
    Ordered(w, mean, 0.0);
    Ordered(w, 16384.0, mean);
  }

  // q < x would make q*w < x*w.
  lemma Ordered(w: real, q: real, x: real)
    requires w > 0.0
    ensures q < x ==> Times(q, w) < Times(x, w)
  {
  }

  lemma RootBound(root: real)
    requires root >= 0.0 && root * root <= 16384.0
    ensures root <= 128.0
  {
    assert (root - 128.0) * (root + 128.0) == root * root - 16384.0;
  }

  lemma MinimumUnique(a: Features, b: Features, c: real, d: real)
    requires Valid(a) && Valid(b) && IsMinimum(a, b, c) && IsMinimum(a, b, d)
    ensures c == d
  {
    var p :| Achieves(a, b, p, |a|, |b|, c);
    var q :| Achieves(a, b, q, |a|, |b|, d);
  }

  // The minimum does not depend on the order of the two inputs.
  lemma MinimumSymmetric(a: Features, b: Features, c: real)
    requires Valid(a) && Valid(b) && IsMinimum(a, b, c)
    ensures IsMinimum(b, a, c)
  {
    LastEntryIsMinimum(a, b);
    LastEntryIsMinimum(b, a);
    MinimumUnique(a, b, c, Entry(a, b, |a|, |b|));
    EntrySymmetric(a, b, |a|, |b|);
  }

  // A score is zero on equal inputs.
  lemma MinimumOfEqual(a: Features)
    requires Valid(a)
    ensures IsMinimum(a, a, 0.0)
  {
    LastEntryIsMinimum(a, a);
    EntryOfEqual(a, |a|);
  }

  // A path cost belongs to one score only.
  lemma TotalInjective(r: real, s: real, w: nat)
    requires 0.0 <= r && 0.0 <= s && w > 0 && Total(r, w) == Total(s, w)
    ensures r == s
  {
    var v := w as real;
    Ordered(v, Square(r), Square(s));
    Ordered(v, Square(s), Square(r));
    SquareOrdered(r, s);
    SquareOrdered(s, r);
  }

  lemma SquareOrdered(r: real, s: real)
    requires 0.0 <= r && 0.0 <= s
    ensures r < s ==> Square(r) < Square(s)
  {
    if r < s {
      var d := s - r;
      assert Square(s) == Square(r) + d * (s + r) by { Difference(r, s); }
      Positive(d, s + r);
    }
  }

  lemma Difference(r: real, s: real)
    ensures s * s == r * r + (s - r) * (s + r)
  {
  }

  // The score does not depend on the order of the two inputs, and it is 0 on equal ones.
  lemma ScoreSymmetric(a: Features, b: Features, r: real, s: real)
    requires Valid(a) && Valid(b) && IsScore(a, b, r) && IsScore(b, a, s)
    ensures r == s
    ensures a == b ==> r == 0.0
  {
    MinimumSymmetric(a, b, Total(r, |a| + |b|));
    MinimumUnique(b, a, Total(r, |a| + |b|), Total(s, |b| + |a|));
    TotalInjective(r, s, |a| + |b|);
    if a == b {
      MinimumOfEqual(a);
      MinimumUnique(a, a, 0.0, Total(r, |a| + |b|));
      TotalInjective(r, 0.0, |a| + |b|);
    }
  }
}
