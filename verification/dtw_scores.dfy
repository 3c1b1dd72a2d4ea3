/** What the costs of the time warping mean, read forwards along a path and in whole numbers. */
module DtwScores {
  import opened Dtw
  import opened Reals
  import opened Sums

  // ----- the cells that a path visits

  // The rows and the columns that a path has advanced by.
  function Rows(path: seq<Step>): nat {
    if path == [] then 0 else Rows(path[..|path| - 1]) + (if path[|path| - 1] == Right then 0 else 1)
  }

  function Columns(path: seq<Step>): nat {
    if path == [] then 0 else Columns(path[..|path| - 1]) + (if path[|path| - 1] == Down then 0 else 1)
  }

  function Apart(x: int, y: int): nat {
    if x >= y then x - y else y - x
  }

  function Lesser(n: nat, m: nat): nat {
    if n <= m then n else m
  }

  // The slopes i/n and j/m differ by at most 1/5 + 1/min(n, m), in whole numbers.
  predicate Near(n: nat, m: nat, i: nat, j: nat) {
    5 * Lesser(n, m) * Apart(i * m, j * n) <= n * m * (Lesser(n, m) + 5)
  }

  lemma BandIsNear(n: nat, m: nat, i: nat, j: nat)
    requires 0 < n && 0 < m
    ensures InBand(n, m, i, j) <==> Near(n, m, i, j)
  {
    var rn, rm, l := n as real, m as real, Lesser(n, m) as real;
    var x, y, q := i as real / rn, j as real / rm, 1.0 / l;
    Divided(i as real, rn);
    Divided(j as real, rm);
    Divided(1.0, l);
    Slopes(rn, rm, x, y, i as real, j as real);
    Cleared(Dtw.Abs(x - y), q, l, rn, rm);
    InReals(n, m, i, j);
  }

  function Gap(rn: real, rm: real, ri: real, rj: real): real {
    Dtw.Abs(ri * rm - rj * rn)
  }

  // Both sides of the band's inequality, cleared of its denominators.
  function Cross(l: real, gap: real): real {
    5.0 * l * gap
  }

  function Room(l: real, rn: real, rm: real): real {
    Times(rn, rm) * (l + 5.0)
  }

  lemma InReals(n: nat, m: nat, i: nat, j: nat)
    ensures var l, rn, rm := Lesser(n, m) as real, n as real, m as real;
            Near(n, m, i, j) <==> Cross(l, Gap(rn, rm, i as real, j as real)) <= Room(l, rn, rm)
  {
    var l, gap := Lesser(n, m), Apart(i * m, j * n);
    CastTimes(i, m);
    CastTimes(j, n);
    assert gap as real == Gap(n as real, m as real, i as real, j as real);
    CrossCast(l, gap);
    RoomCast(l, n, m);
  }

  lemma CrossCast(l: nat, gap: nat)
    ensures (5 * l * gap) as real == Cross(l as real, gap as real)
  {
    CastTimes(5 * l, gap);
  }

  lemma RoomCast(l: nat, n: nat, m: nat)
    ensures (n * m * (l + 5)) as real == Room(l as real, n as real, m as real)
  {
    CastTimes(n, m);
    CastTimes(n * m, l + 5);
  }

  lemma CastTimes(a: nat, b: nat)
    ensures (a * b) as real == a as real * b as real
  {
  }

  lemma Slopes(rn: real, rm: real, x: real, y: real, ri: real, rj: real)
    requires rn > 0.0 && rm > 0.0 && x * rn == ri && y * rm == rj
    ensures Gap(rn, rm, ri, rj) == Times(Dtw.Abs(x - y), Times(rn, rm))
  {
    var w := rn * rm;
    Positive(rn, rm);
    assert ri * rm == x * w && rj * rn == y * w;
    if x < y {
      Positive(y - x, w);
      assert (y - x) * w == y * w - x * w;
    } else if y < x {
      Positive(x - y, w);
      assert (x - y) * w == x * w - y * w;
    }
  }

  lemma Cleared(d: real, q: real, l: real, rn: real, rm: real)
    requires l > 0.0 && rn > 0.0 && rm > 0.0 && q * l == 1.0
    ensures d <= 0.2 + q <==> Cross(l, Times(d, Times(rn, rm))) <= Room(l, rn, rm)
  {
    var w := rn * rm;
    Positive(rn, rm);
    Positive(l, w);
    var s := 5.0 * (l * w);
    assert Cross(l, d * w) == d * s;
    assert q * s == 5.0 * w * (q * l);
    assert w * (l + 5.0) == (0.2 + q) * s;
    Ordered(s, 0.2 + q, d);
    Ordered(s, d, 0.2 + q);
  }

  // A path starts before (1,1), ends at (i,j), and every cell that it enters lies in the grid and the band.
  lemma {:induction false} PathVisits(n: nat, m: nat, path: seq<Step>, i: nat, j: nat)
    requires 0 < n && 0 < m
    ensures IsPath(n, m, path, i, j) <==>
              && Rows(path) == i && Columns(path) == j
              && forall k | 1 <= k <= |path| ::
                   && 1 <= Rows(path[..k]) <= n && 1 <= Columns(path[..k]) <= m
                   && Near(n, m, Rows(path[..k]), Columns(path[..k]))
    decreases |path|
  {
    if path != [] {
      var head, s := path[..|path| - 1], path[|path| - 1];
      assert path[..|path|] == path;
      assert forall k | 1 <= k <= |head| :: head[..k] == path[..k];
      BandIsNear(n, m, i, j);
      if 0 < i && 0 < j {
        PathVisits(n, m, head, FromRow(s, i), FromColumn(s, j));
      }
    }
  }

  // ----- what a path costs

  function SquaredGap(x: Frame, y: Frame): nat -> real {
    (c: nat) => if c < 13 && x[c].Finite? && y[c].Finite? then Square(x[c].value - y[c].value) else 0.0
  }

  // The mean of the thirteen squared differences.
  function MeanSquare(x: Frame, y: Frame): real {
    Sum(13, SquaredGap(x, y)) / 13.0
  }

  lemma {:induction false} CostSums(x: Frame, y: Frame, c: nat)
    requires ValidFrame(x) && ValidFrame(y) && c <= 13
    ensures 13.0 * CostUpTo(x, y, c) == Sum(c, SquaredGap(x, y))
  {
    if c != 0 {
      CostSums(x, y, c - 1);
      TermTimes(x[c - 1].value - y[c - 1].value);
    }
  }

  lemma TermTimes(d: real)
    ensures 13.0 * Term(d) == Square(d)
  {
    var q := d * d;
    assert 13.0 * (q / 13.0) == q;
  }

  lemma CostIsMeanSquare(x: Frame, y: Frame)
    requires ValidFrame(x) && ValidFrame(y)
    ensures Cost(x, y) == MeanSquare(x, y)
  {
    CostSums(x, y, 13);
  }

  function Share(w: int, c: real): real {
    Times(c, w as real)
  }

  lemma ShareGrows(w: nat, c: real)
    ensures Share(w + 1, c) == Share(w, c) + c && Share(w + 2, c) == Share(w, c) + 2.0 * c && Share(0, c) == 0.0
  {
  }

  lemma OnceOrTwice(c: real)
    ensures Share(1, c) == c && Share(2, c) == 2.0 * c
  {
  }

  // A step into a cell counts the cell once for every row and every column that it advances by.
  function Counted(a: Features, b: Features, path: seq<Step>, k: nat): real
    requires k < |path|
  {
    var i, j := Rows(path[..k + 1]), Columns(path[..k + 1]);
    if 1 <= i <= |a| && 1 <= j <= |b| then
      Share((i - Rows(path[..k])) + (j - Columns(path[..k])), MeanSquare(a[i - 1], b[j - 1]))
    else 0.0
  }

  function Contribution(a: Features, b: Features, path: seq<Step>): nat -> real {
    (k: nat) => if k < |path| then Counted(a, b, path, k) else 0.0
  }

  lemma {:induction false} PathCostIsSum(a: Features, b: Features, path: seq<Step>, i: nat, j: nat)
    requires Valid(a) && Valid(b) && IsPath(|a|, |b|, path, i, j)
    ensures PathCost(a, b, path, i, j) == Sum(|path|, Contribution(a, b, path))
    decreases |path|
  {
    if path != [] {
      var head, s := path[..|path| - 1], path[|path| - 1];
      PathCostIsSum(a, b, head, FromRow(s, i), FromColumn(s, j));
      ContributionsBefore(a, b, path);
      LastContribution(a, b, path, i, j);
    }
  }

  lemma ContributionsBefore(a: Features, b: Features, path: seq<Step>)
    requires path != []
    ensures var n := |path| - 1; Sum(n, Contribution(a, b, path[..n])) == Sum(n, Contribution(a, b, path))
  {
    var n := |path| - 1;
    var head := path[..n];
    forall k: nat | k < n
      ensures Counted(a, b, head, k) == Counted(a, b, path, k)
    {
      SameCounted(a, b, path, k);
    }
    SumEqual(n, Contribution(a, b, head), Contribution(a, b, path));
  }

  lemma SameCounted(a: Features, b: Features, path: seq<Step>, k: nat)
    requires k + 1 < |path|
    ensures Counted(a, b, path[..|path| - 1], k) == Counted(a, b, path, k)
  {
    var head := path[..|path| - 1];
    assert head[..k] == path[..k] && head[..k + 1] == path[..k + 1];
  }

  lemma LastContribution(a: Features, b: Features, path: seq<Step>, i: nat, j: nat)
    requires Valid(a) && Valid(b) && IsPath(|a|, |b|, path, i, j) && path != []
    ensures Contribution(a, b, path)(|path| - 1) == Weighted(path[|path| - 1], Cost(a[i - 1], b[j - 1]))
  {
    var n := |path| - 1;
    var s, c := path[n], MeanSquare(a[i - 1], b[j - 1]);
    Reaches(|a|, |b|, path, i, j);
    assert path[..n + 1] == path;
    CostIsMeanSquare(a[i - 1], b[j - 1]);
    Advances(path);
    OnceOrTwice(c);
    assert Counted(a, b, path, n) == Share(if s == Diagonal then 2 else 1, c);
  }

  lemma Advances(path: seq<Step>)
    requires path != []
    ensures var head := path[..|path| - 1];
            (Rows(path) - Rows(head)) + (Columns(path) - Columns(head)) == if path[|path| - 1] == Diagonal then 2 else 1
  {
  }

  lemma Reaches(n: nat, m: nat, path: seq<Step>, i: nat, j: nat)
    requires 0 < n && 0 < m && IsPath(n, m, path, i, j)
    ensures Rows(path) == i && Columns(path) == j
  {
    PathVisits(n, m, path, i, j);
  }

  // ----- scores

  // 1 to 160 frames of thirteen finite values from -64 to 64.
  lemma ValidMeans(f: Features)
    ensures Valid(f) <==> 1 <= |f| <= 160 && forall i, c | 0 <= i < |f| && 0 <= c < 13 ::
                                               f[i][c].Finite? && -64.0 <= f[i][c].value <= 64.0
  {
  }

  // Where every cell costs c, a path to (i,j) costs c for each row and each column.
  lemma {:induction false} UniformPath(a: Features, b: Features, c: real, path: seq<Step>, i: nat, j: nat)
    requires Valid(a) && Valid(b) && IsPath(|a|, |b|, path, i, j)
    requires forall x, y | x in a && y in b :: MeanSquare(x, y) == c
    ensures PathCost(a, b, path, i, j) == Share(i + j, c)
    decreases |path|
  {
    ShareGrows(0, c);
    if path != [] {
      var s := path[|path| - 1];
      var i0, j0 := FromRow(s, i), FromColumn(s, j);
      UniformPath(a, b, c, path[..|path| - 1], i0, j0);
      CostIsMeanSquare(a[i - 1], b[j - 1]);
      ShareGrows(i0 + j0, c);
    }
  }

  lemma SameShare(r: real, w: nat, c: real)
    requires w > 0 && Total(r, w) == Share(w, c)
    ensures r * r == c
  {
    Ordered(w as real, Square(r), c);
    Ordered(w as real, c, Square(r));
  }

  // There the score is the root of c: dividing by n + m takes the mean over the path.
  lemma UniformScore(a: Features, b: Features, c: real, r: real)
    requires Valid(a) && Valid(b) && IsScore(a, b, r)
    requires forall x, y | x in a && y in b :: MeanSquare(x, y) == c
    ensures r >= 0.0 && r * r == c
  {
    var w := |a| + |b|;
    var path :| Achieves(a, b, path, |a|, |b|, Total(r, w));
    UniformPath(a, b, c, path, |a|, |b|);
    SameShare(r, w, c);
  }
}
