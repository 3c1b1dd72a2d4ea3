/** The curve y^2 = x^3 + 7 as a group of prime order, and points named by their x coordinate alone. */
module Secp256k1 {
  import opened Bytes
  import opened Numbers
  import opened Options

  datatype Point = Infinity | Affine(x: nat, y: nat)

  // The field's prime, the group's order, its generator and its addition.
  datatype Curve = Curve(p: nat, n: nat, g: Point, add: (Point, Point) -> Point)

  // x^3 + 7
  function Cubic(x: int): int {
    x * x * x + 7
  }

  ghost predicate On(c: Curve, q: Point)
    requires c.p > 0
  {
    q.Affine? ==> q.x < c.p && q.y < c.p && Cong(c.p, q.y * q.y, Cubic(q.x))
  }

  function Neg(c: Curve, q: Point): Point {
    if q.Affine? && 0 < q.y <= c.p then Affine(q.x, c.p - q.y) else q
  }

  // k times q
  function Mul(c: Curve, k: nat, q: Point): Point {
    if k == 0 then Infinity else c.add(Mul(c, k - 1, q), q)
  }

  // ----- what the library guarantees

  ghost predicate Field(c: Curve) {
    IsPrime(c.p) && c.p % 4 == 3 && c.p <= Bound(32) && 2 < c.n <= Bound(32)
  }

  ghost predicate Group(c: Curve, q: Point, r: Point, s: Point)
    requires c.p > 0
  {
    On(c, q) && On(c, r) && On(c, s) ==>
      && On(c, c.add(q, r))
      && c.add(q, r) == c.add(r, q)
      && c.add(c.add(q, r), s) == c.add(q, c.add(r, s))
      && c.add(q, Infinity) == q
      && c.add(q, Neg(c, q)) == Infinity
  }

  // The order of every point but the neutral one is n.
  ghost predicate Order(c: Curve, q: Point, k: nat)
    requires c.p > 0
  {
    On(c, q) ==> Mul(c, c.n, q) == Infinity && (q != Infinity && 0 < k < c.n ==> Mul(c, k, q) != Infinity)
  }

  ghost predicate Valid(c: Curve) {
    && Field(c)
    && On(c, c.g) && c.g != Infinity
    && (forall q, r, s :: Group(c, q, r, s))
    && (forall q, k :: Order(c, q, k))
  }

  // ----- multiples

  lemma NegOn(c: Curve, q: Point)
    requires Field(c) && On(c, q)
    ensures On(c, Neg(c, q))
  {
    if q.Affine? && q.y > 0 {
      var z := c.p - q.y;
      assert z * z == q.y * q.y + c.p * (c.p - 2 * q.y);
      CongBy(c.p, z * z, q.y * q.y, c.p - 2 * q.y);
      CongTrans(c.p, z * z, q.y * q.y, Cubic(q.x));
    }
  }

  lemma {:induction false} MulOn(c: Curve, k: nat, q: Point)
    requires Valid(c) && On(c, q)
    ensures On(c, Mul(c, k, q))
  {
    if k != 0 {
      MulOn(c, k - 1, q);
      assert Group(c, Mul(c, k - 1, q), q, q);
    }
  }

  lemma {:induction false} MulAdd(c: Curve, a: nat, b: nat, q: Point)
    requires Valid(c) && On(c, q)
    ensures Mul(c, a + b, q) == c.add(Mul(c, a, q), Mul(c, b, q))
  {
    MulOn(c, a, q);
    if b == 0 {
      assert Group(c, Mul(c, a, q), q, q);
    } else {
      MulAdd(c, a, b - 1, q);
      MulOn(c, b - 1, q);
      assert Group(c, Mul(c, a, q), Mul(c, b - 1, q), q);
    }
  }

  lemma {:induction false} MulMul(c: Curve, a: nat, b: nat, q: Point)
    requires Valid(c) && On(c, q)
    ensures Mul(c, a, Mul(c, b, q)) == Mul(c, a * b, q)
  {
    if a != 0 {
      MulMul(c, a - 1, b, q);
      MulAdd(c, (a - 1) * b, b, q);
      assert (a - 1) * b + b == a * b;
    }
  }

  lemma {:induction false} MulInfinity(c: Curve, k: nat)
    requires Valid(c)
    ensures Mul(c, k, Infinity) == Infinity
  {
    if k != 0 {
      MulInfinity(c, k - 1);
      assert Group(c, Infinity, Infinity, Infinity);
    }
  }

  // Multiples depend on the factor modulo the order only.
  lemma MulMod(c: Curve, k: nat, q: Point)
    requires Valid(c) && On(c, q)
    ensures Mul(c, k % c.n, q) == Mul(c, k, q)
  {
    var t := k / c.n;
    MulMul(c, t, c.n, q);
    assert Order(c, q, 0);
    MulInfinity(c, t);
    MulOn(c, k % c.n, q);
    MulAdd(c, k % c.n, t * c.n, q);
    assert k % c.n + t * c.n == k;
    assert Group(c, Mul(c, k % c.n, q), Infinity, Infinity);
  }

  lemma InverseUnique(c: Curve, q: Point, r: Point)
    requires Valid(c) && On(c, q) && On(c, r) && c.add(q, r) == Infinity
    ensures r == Neg(c, q)
  {
    NegOn(c, q);
    assert Group(c, r, q, Neg(c, q));
    assert Group(c, q, r, r);
    assert Group(c, Neg(c, q), Infinity, Infinity);
    assert Group(c, Infinity, Neg(c, q), Infinity);
  }

  // (n - k) times q is minus k times q.
  lemma MulNeg(c: Curve, k: nat, q: Point)
    requires Valid(c) && On(c, q) && k <= c.n
    ensures Mul(c, c.n - k, q) == Neg(c, Mul(c, k, q))
  {
    MulAdd(c, k, c.n - k, q);
    assert Order(c, q, 0);
    MulOn(c, k, q);
    MulOn(c, c.n - k, q);
    InverseUnique(c, Mul(c, k, q), Mul(c, c.n - k, q));
  }

  lemma {:induction false} MulOfNeg(c: Curve, k: nat, q: Point)
    requires Valid(c) && On(c, q)
    ensures Mul(c, k, Neg(c, q)) == Neg(c, Mul(c, k, q))
  {
    assert Mul(c, c.n - 1, q) == Neg(c, q) by {
      MulNeg(c, 1, q);
      assert Group(c, Infinity, q, q);
      assert Group(c, q, Infinity, q);
    }
    MulMul(c, k, c.n - 1, q);
    MulMul(c, c.n - 1, k, q);
    assert k * (c.n - 1) == (c.n - 1) * k;
    MulOn(c, k, q);
    MulNeg(c, 1, Mul(c, k, q));
    assert Group(c, Infinity, Mul(c, k, q), q);
    assert Group(c, Mul(c, k, q), Infinity, q);
  }

  // Different multiples of a point, below the order, are different points.
  lemma MulInjective(c: Curve, a: nat, b: nat, p: Point)
    requires Valid(c) && On(c, p) && p != Infinity && a < c.n && b < c.n && Mul(c, a, p) == Mul(c, b, p)
    ensures a == b
  {
    if a < b {
      MulDiffers(c, a, b, p);
    } else if b < a {
      MulDiffers(c, b, a, p);
    }
  }

  lemma MulDiffers(c: Curve, a: nat, b: nat, p: Point)
    requires Valid(c) && On(c, p) && p != Infinity && a < b < c.n
    ensures Mul(c, a, p) != Mul(c, b, p)
  {
    var q, r := Mul(c, a, p), Mul(c, b - a, p);
    MulAdd(c, a, b - a, p);
    MulOn(c, a, p);
    MulOn(c, b - a, p);
    assert Order(c, p, b - a);
    NegOn(c, q);
    assert Group(c, r, q, Neg(c, q));
    assert Group(c, q, r, q);
    assert Group(c, Infinity, r, r) && Group(c, r, Infinity, r);
  }

  // ----- points named by x alone

  // q is the point with this x coordinate and an even y coordinate.
  ghost predicate Lifts(c: Curve, x: nat, q: Point)
    requires c.p > 0
  {
    On(c, q) && q.Affine? && q.x == x && q.y % 2 == 0
  }

  lemma LiftUnique(c: Curve, x: nat, q: Point, r: Point)
    requires Field(c) && Lifts(c, x, q) && Lifts(c, x, r)
    ensures q == r
  {
    CongSym(c.p, r.y * r.y, Cubic(x));
    CongTrans(c.p, q.y * q.y, Cubic(x), r.y * r.y);
    EvenRootUnique(c.p, q.y, r.y);
  }

  // Of a point and its negative exactly one has an even y coordinate.
  function EvenOf(c: Curve, q: Point): Point {
    if q.Affine? && q.y % 2 == 1 then Neg(c, q) else q
  }

  lemma EvenLifts(c: Curve, q: Point)
    requires Field(c) && On(c, q) && q.Affine?
    ensures Lifts(c, q.x, EvenOf(c, q))
  {
    NegOn(c, q);
    OddComplement(c.p, q.y);
  }

  lemma OddComplement(p: nat, y: nat)
    requires p % 4 == 3 && y < p
    ensures y % 2 == 1 ==> (p - y) % 2 == 0
  {
    if y % 2 == 1 {
      assert p == 4 * (p / 4) + 3 && y == 2 * (y / 2) + 1;
      Twice(2 * (p / 4) + 1 - y / 2);
    }
  }

  lemma Twice(k: int)
    ensures 2 * k % 2 == 0
  {
  }

  // A power that is a square root wherever there is one, since p is 3 modulo 4.
  lemma RootOfSquare(p: nat, a: nat, y: nat)
    requires IsPrime(p) && p % 4 == 3 && IsSquare(p, a) && y == ModPow(a, (p + 1) / 4, p)
    ensures Cong(p, y * y, a)
  {
    var e := (p + 1) / 4;
    CongModSym(p, Pow(a, e));
    CongMul(p, y, Pow(a, e), y, Pow(a, e));
    PowSquare(a, e);
    assert 2 * e == 1 + (p - 1) / 2;
    var q := Pow(a, (p - 1) / 2);
    assert Pow(a, 2 * e) == a * q;
    if Cong(p, a, 0) {
      CongRefl(p, q);
      CongMul(p, a, 0, q, q);
      CongTrans(p, y * y, a * q, 0 * q);
      CongSym(p, a, 0);
      CongTrans(p, y * y, 0, a);
    } else {
      EulerOnSquares(p, a);
      CongRefl(p, a);
      CongMul(p, a, a, q, 1);
      CongTrans(p, y * y, a * q, a);
    }
  }

  method RightHandSide(x: nat, p: nat) returns (y2: nat)
    requires p > 0
    ensures y2 < p && Cong(p, y2, Cubic(x))
  {
    y2 := x * x % p;
    CongModSym(p, x * x);
    ghost var square := y2;
    y2 := y2 * x % p;
    CongModSym(p, square * x);
    CongRefl(p, x);
    CongMul(p, square, x * x, x, x);
    CongTrans(p, y2, square * x, x * x * x);
    ghost var cube := y2;
    y2 := (y2 + 7) % p;
    CongModSym(p, cube + 7);
    CongRefl(p, 7);
    CongAdd(p, cube, x * x * x, 7, 7);
    CongTrans(p, y2, cube + 7, Cubic(x));
  }

  // lift_x: fails exactly if no point has this x coordinate.
  method LiftX(c: Curve, xbytes: seq<byte>) returns (out: Option<Point>)
    requires Field(c)
    ensures out.Some? ==> Lifts(c, Value(xbytes, 256), out.value)
    ensures out.None? ==> forall y :: !On(c, Affine(Value(xbytes, 256), y))
  {
    var x, p := Value(xbytes, 256), c.p;
    if x >= p {
      return None;
    }
    var y2 := RightHandSide(x, p);
    var y := ModPow(y2, (p + 1) / 4, p);
    SmallRemainder(p, y * y, y2);
    if y * y % p != y2 {
      NoRoot(c, x, y2, y);
      return None;
    }
    CongTrans(p, y * y, y2, Cubic(x));
    EvenLifts(c, Affine(x, y));
    if y % 2 == 1 {
      y := p - y;
    }
    out := Some(Affine(x, y));
  }

  lemma NoRoot(c: Curve, x: nat, y2: nat, y: nat)
    requires Field(c) && Cong(c.p, y2, Cubic(x)) && y == ModPow(y2, (c.p + 1) / 4, c.p) && !Cong(c.p, y * y, y2)
    ensures forall z :: !On(c, Affine(x, z))
  {
    forall z: nat | On(c, Affine(x, z))
      ensures false
    {
      CongSym(c.p, y2, Cubic(x));
      CongTrans(c.p, z * z, Cubic(x), y2);
      assert Cong(c.p, Square(z), y2);
      RootOfSquare(c.p, y2, y);
    }
  }
}
