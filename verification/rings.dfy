/** Commutative rings, given as a record of operations together with the eight laws they obey.

    The laws are stated through `Holds`, so that a proof uses exactly the instances it names. */
module Rings {

  datatype Ring<!T> = Ring(zero: T, one: T, add: (T, T) -> T, neg: T -> T, mul: (T, T) -> T) {
    function Sub(x: T, y: T): T {
      add(x, neg(y))
    }
  }

  datatype Law = AddAssoc | AddComm | AddZero | AddNeg | MulAssoc | MulComm | MulOne | Distrib

  ghost predicate Holds<T>(r: Ring<T>, law: Law, x: T, y: T, z: T) {
    match law
    case AddAssoc => r.add(r.add(x, y), z) == r.add(x, r.add(y, z))
    case AddComm => r.add(x, y) == r.add(y, x)
    case AddZero => r.add(x, r.zero) == x
    case AddNeg => r.add(x, r.neg(x)) == r.zero
    case MulAssoc => r.mul(r.mul(x, y), z) == r.mul(x, r.mul(y, z))
    case MulComm => r.mul(x, y) == r.mul(y, x)
    case MulOne => r.mul(x, r.one) == x
    case Distrib => r.mul(x, r.add(y, z)) == r.add(r.mul(x, y), r.mul(x, z))
  }

  ghost predicate Commutative<T(!new)>(r: Ring<T>) {
    forall law, x, y, z :: Holds(r, law, x, y, z)
  }

  lemma AddSwap<T(!new)>(r: Ring<T>, a: T, b: T, c: T, d: T)
    requires Commutative(r)
    ensures r.add(r.add(a, b), r.add(c, d)) == r.add(r.add(a, c), r.add(b, d))
  {
    assert Holds(r, AddAssoc, a, b, r.add(c, d));
    assert Holds(r, AddAssoc, b, c, d);
    assert Holds(r, AddComm, b, c, d);
    assert Holds(r, AddAssoc, c, b, d);
    assert Holds(r, AddAssoc, a, c, r.add(b, d));
  }

  lemma CancelAdd<T(!new)>(r: Ring<T>, x: T, y: T, z: T)
    requires Commutative(r)
    requires r.add(x, z) == r.add(y, z)
    ensures x == y
  {
    assert x == r.add(r.add(x, z), r.neg(z)) by {
      assert Holds(r, AddAssoc, x, z, r.neg(z)) && Holds(r, AddNeg, z, z, z) && Holds(r, AddZero, x, x, x);
    }
    assert y == r.add(r.add(y, z), r.neg(z)) by {
      assert Holds(r, AddAssoc, y, z, r.neg(z)) && Holds(r, AddNeg, z, z, z) && Holds(r, AddZero, y, y, y);
    }
  }

  lemma MulZero<T(!new)>(r: Ring<T>, x: T)
    requires Commutative(r)
    ensures r.mul(x, r.zero) == r.zero
  {
    var p := r.mul(x, r.zero);
    assert Holds(r, AddZero, r.zero, r.zero, r.zero);
    assert Holds(r, Distrib, x, r.zero, r.zero);
    assert r.add(p, p) == p;
    assert Holds(r, AddZero, p, p, p) && Holds(r, AddComm, p, r.zero, p);
    CancelAdd(r, p, r.zero, p);
  }

  lemma MulMinusOne<T(!new)>(r: Ring<T>, x: T)
    requires Commutative(r)
    ensures r.mul(x, r.neg(r.one)) == r.neg(x)
  {
    var m := r.neg(r.one);
    assert Holds(r, Distrib, x, r.one, m) && Holds(r, AddNeg, r.one, x, x) && Holds(r, MulOne, x, x, x);
    MulZero(r, x);
    assert r.add(x, r.mul(x, m)) == r.zero;
    assert Holds(r, AddNeg, x, x, x);
    assert Holds(r, AddComm, x, r.mul(x, m), x) && Holds(r, AddComm, x, r.neg(x), x);
    CancelAdd(r, r.mul(x, m), r.neg(x), x);
  }

  lemma MulNeg<T(!new)>(r: Ring<T>, x: T, y: T)
    requires Commutative(r)
    ensures r.mul(r.neg(x), y) == r.neg(r.mul(x, y))
  {
    var m := r.neg(r.one);
    MulMinusOne(r, x);
    MulMinusOne(r, r.mul(x, y));
    assert Holds(r, MulAssoc, x, m, y) && Holds(r, MulComm, m, y, y) && Holds(r, MulAssoc, x, y, m);
  }

  lemma NegNeg<T(!new)>(r: Ring<T>, x: T)
    requires Commutative(r)
    ensures r.neg(r.neg(x)) == x
  {
    var m := r.neg(x);
    assert Holds(r, AddNeg, m, m, m) && Holds(r, AddNeg, x, m, m);
    assert Holds(r, AddComm, m, r.neg(m), m);
    CancelAdd(r, r.neg(m), x, m);
  }

  // ----- powers

  function Pow<T>(r: Ring<T>, x: T, n: nat): T {
    if n == 0 then r.one else r.mul(x, Pow(r, x, n - 1))
  }

  lemma {:induction false} PowAdd<T(!new)>(r: Ring<T>, x: T, m: nat, n: nat)
    requires Commutative(r)
    ensures Pow(r, x, m + n) == r.mul(Pow(r, x, m), Pow(r, x, n))
  {
    var q := Pow(r, x, n);
    if m == 0 {
      assert Holds(r, MulComm, r.one, q, q) && Holds(r, MulOne, q, q, q);
    } else {
      PowAdd(r, x, m - 1, n);
      assert Holds(r, MulAssoc, x, Pow(r, x, m - 1), q);
    }
  }

  lemma {:induction false} PowMul<T(!new)>(r: Ring<T>, x: T, m: nat, n: nat)
    requires Commutative(r)
    ensures Pow(r, Pow(r, x, m), n) == Pow(r, x, m * n)
  {
    if n != 0 {
      PowMul(r, x, m, n - 1);
      PowAdd(r, x, m, m * (n - 1));
      assert m + m * (n - 1) == m * n;
    } else {
      assert m * n == 0;
    }
  }
}

/** The complex numbers over exact reals: the instance of `Ring` that the matcher computes in. */
module ComplexNumbers {
  import opened Rings

  datatype Complex = Complex(re: real, im: real)

  function Add(x: Complex, y: Complex): Complex {
    Complex(x.re + y.re, x.im + y.im)
  }

  function Neg(x: Complex): Complex {
    Complex(-x.re, -x.im)
  }

  function Mul(x: Complex, y: Complex): Complex {
    Complex(x.re * y.re - x.im * y.im, x.re * y.im + x.im * y.re)
  }

  lemma MulAssociative(x: Complex, y: Complex, z: Complex)
    ensures Mul(Mul(x, y), z) == Mul(x, Mul(y, z))
  {
    var a, b, c, d, e, f := x.re, x.im, y.re, y.im, z.re, z.im;
    Product3(a, c, e); Product3(b, d, e); Product3(a, d, f); Product3(b, c, f);
    Product3(a, c, f); Product3(b, d, f); Product3(a, d, e); Product3(b, c, e);
    assert (a * c - b * d) * e == (a * c) * e - (b * d) * e;
    assert (a * d + b * c) * f == (a * d) * f + (b * c) * f;
    assert (a * c - b * d) * f == (a * c) * f - (b * d) * f;
    assert (a * d + b * c) * e == (a * d) * e + (b * c) * e;
    assert a * (c * e - d * f) == a * (c * e) - a * (d * f);
    assert b * (c * f + d * e) == b * (c * f) + b * (d * e);
    assert a * (c * f + d * e) == a * (c * f) + a * (d * e);
    assert b * (c * e - d * f) == b * (c * e) - b * (d * f);
  }

  lemma Product3(x: real, y: real, z: real)
    ensures (x * y) * z == x * (y * z)
  {
  }

  lemma MulDistributes(x: Complex, y: Complex, z: Complex)
    ensures Mul(x, Add(y, z)) == Add(Mul(x, y), Mul(x, z))
  {
    assert x.re * (y.re + z.re) == x.re * y.re + x.re * z.re;
    assert x.im * (y.im + z.im) == x.im * y.im + x.im * z.im;
    assert x.re * (y.im + z.im) == x.re * y.im + x.re * z.im;
    assert x.im * (y.re + z.re) == x.im * y.re + x.im * z.re;
  }

  function ComplexRing(): Ring<Complex> {
    Ring(Complex(0.0, 0.0), Complex(1.0, 0.0),
         (x: Complex, y: Complex) => Add(x, y), (x: Complex) => Neg(x), (x: Complex, y: Complex) => Mul(x, y))
  }

  lemma ComplexIsRing()
    ensures Commutative(ComplexRing())
  {
    var r := ComplexRing();
    forall law, x: Complex, y: Complex, z: Complex
      ensures Holds(r, law, x, y, z)
    {
      match law {
        case MulAssoc => MulAssociative(x, y, z);
        case Distrib => MulDistributes(x, y, z);
        case _ =>
      }
    }
  }
}
