/** Arithmetic modulo a prime: what the two square-root routines rest on. */
module Numbers {

  // ----- congruence

  ghost predicate Cong(p: int, a: int, b: int)
    requires p > 0
  {
    exists k :: Off(p, a, b, k)
  }

  ghost predicate Off(p: int, a: int, b: int, k: int) {
    a == b + p * k
  }

  lemma CongBy(p: int, a: int, b: int, k: int)
    requires p > 0 && a == b + p * k
    ensures Cong(p, a, b)
  {
    assert Off(p, a, b, k);
  }

  lemma CongRefl(p: int, a: int)
    requires p > 0
    ensures Cong(p, a, a)
  {
    CongBy(p, a, a, 0);
  }

  lemma CongSym(p: int, a: int, b: int)
    requires p > 0 && Cong(p, a, b)
    ensures Cong(p, b, a)
  {
    var k :| Off(p, a, b, k);
    assert p * (-k) == -(p * k);
    CongBy(p, b, a, -k);
  }

  lemma CongTrans(p: int, a: int, b: int, c: int)
    requires p > 0 && Cong(p, a, b) && Cong(p, b, c)
    ensures Cong(p, a, c)
  {
    var k :| Off(p, a, b, k);
    var l :| Off(p, b, c, l);
    assert p * (k + l) == p * k + p * l;
    CongBy(p, a, c, k + l);
  }

  lemma CongAdd(p: int, a: int, b: int, c: int, d: int)
    requires p > 0 && Cong(p, a, b) && Cong(p, c, d)
    ensures Cong(p, a + c, b + d)
  {
    var k :| Off(p, a, b, k);
    var l :| Off(p, c, d, l);
    assert p * (k + l) == p * k + p * l;
    CongBy(p, a + c, b + d, k + l);
  }

  lemma CongMul(p: int, a: int, b: int, c: int, d: int)
    requires p > 0 && Cong(p, a, b) && Cong(p, c, d)
    ensures Cong(p, a * c, b * d)
  {
    var k :| Off(p, a, b, k);
    var l :| Off(p, c, d, l);
    MulExpand(p, b, d, k, l);
    CongBy(p, a * c, b * d, b * l + k * d + k * (p * l));
  }

  lemma MulExpand(p: int, b: int, d: int, k: int, l: int)
    ensures (b + p * k) * (d + p * l) == b * d + p * (b * l + k * d + k * (p * l))
  {
    var x, y := p * k, p * l;
    assert (b + x) * (d + y) == b * d + b * y + x * d + x * y;
    assert b * y == p * (b * l);
    assert x * d == p * (k * d);
    assert x * y == p * (k * y);
    assert p * (b * l + k * d + k * y) == p * (b * l) + p * (k * d) + p * (k * y);
  }

  lemma CongMod(p: int, a: int)
    requires p > 0
    ensures Cong(p, a, a % p)
  {
    assert a == p * (a / p) + a % p;
    CongBy(p, a, a % p, a / p);
  }

  // Within one period, congruent numbers are equal.
  lemma CongSmall(p: int, a: int, b: int)
    requires p > 0 && Cong(p, a, b) && 0 <= a < p && 0 <= b < p
    ensures a == b
  {
    var k :| Off(p, a, b, k);
    if k > 0 {
      MulAtLeast(p, k);
    } else if k < 0 {
      assert p * -k == -(p * k);
      MulAtLeast(p, -k);
    }
  }

  lemma MulAtLeast(p: int, k: int)
    requires p > 0 && k > 0
    ensures p * k >= p
  {
  }

  lemma ModEqual(p: int, a: int, b: int)
    requires p > 0
    ensures a % p == b % p <==> Cong(p, a, b)
  {
    CongMod(p, a);
    CongMod(p, b);
    if Cong(p, a, b) {
      CongSym(p, a, a % p);
      CongTrans(p, a % p, a, b);
      CongTrans(p, a % p, b, b % p);
      CongSmall(p, a % p, b % p);
    }
    if a % p == b % p {
      CongSym(p, b, b % p);
      CongTrans(p, a, a % p, b);
    }
  }

  // ----- primes

  ghost predicate IsPrime(p: nat) {
    p >= 2 && forall d :: 2 <= d < p ==> p % d != 0
  }

  // A prime that divides a product divides a factor (Euclid), by descending on a.
  lemma {:induction false} Euclid(p: nat, a: nat, b: int)
    requires IsPrime(p) && 0 < a < p && Cong(p, a * b, 0)
    ensures Cong(p, b, 0)
    decreases a
  {
    if a == 1 {
      assert a * b == b;
    } else {
      var q, r := p / a, p % a;
      assert p == a * q + r;
      assert 0 < r < a;
      // r*b == p*b - q*(a*b)
      assert a * q == q * a;
      Distribute(p, q * a, r, b);
      assert (q * a) * b == q * (a * b);
      CongRefl(p, q);
      CongMul(p, q, q, a * b, 0);
      CongSym(p, q * (a * b), q * 0);
      CongBy(p, p * b, 0, b);
      var k :| Off(p, a * b, 0, k);
      assert q * (a * b) == q * (p * k) == p * (q * k);
      assert p * (b - q * k) == p * b - p * (q * k);
      CongBy(p, r * b, 0, b - q * k);
      Euclid(p, r, b);
    }
  }

  lemma Distribute(p: int, x: int, r: int, b: int)
    requires p == x + r
    ensures p * b == x * b + r * b
  {
  }

  lemma EuclidAny(p: nat, a: int, b: int)
    requires IsPrime(p) && Cong(p, a * b, 0)
    ensures Cong(p, a, 0) || Cong(p, b, 0)
  {
    var c := a % p;
    CongMod(p, a);
    if c == 0 {
    } else {
      CongSym(p, a, c);
      CongRefl(p, b);
      CongMul(p, c, a, b, b);
      CongTrans(p, c * b, a * b, 0);
      Euclid(p, c, b);
    }
  }

  // A factor that is not a multiple of p can be cancelled.
  lemma Cancel(p: nat, a: int, b: int, c: int)
    requires IsPrime(p) && !Cong(p, a, 0) && Cong(p, a * b, a * c)
    ensures Cong(p, b, c)
  {
    CongRefl(p, -(a * c));
    CongAdd(p, a * b, a * c, -(a * c), -(a * c));
    assert a * (b - c) == a * b - a * c;
    EuclidAny(p, a, b - c);
    CongRefl(p, c);
    CongAdd(p, b - c, 0, c, c);
  }

  // ----- powers

  function Pow(a: int, n: nat): int {
    if n == 0 then 1 else a * Pow(a, n - 1)
  }

  lemma {:induction false} PowAdd(a: int, m: nat, n: nat)
    ensures Pow(a, m + n) == Pow(a, m) * Pow(a, n)
  {
    if m != 0 {
      PowAdd(a, m - 1, n);
      assert a * (Pow(a, m - 1) * Pow(a, n)) == (a * Pow(a, m - 1)) * Pow(a, n);
    }
  }

  lemma {:induction false} PowSquare(a: int, n: nat)
    ensures Pow(a * a, n) == Pow(a, 2 * n) == Pow(a, n) * Pow(a, n)
  {
    PowAdd(a, n, n);
    if n != 0 {
      PowSquare(a, n - 1);
      assert Pow(a, 2 * n) == a * Pow(a, 2 * n - 1);
      assert a * (a * Pow(a, 2 * n - 2)) == (a * a) * Pow(a, 2 * n - 2);
    }
  }

  lemma {:induction false} CongPow(p: int, a: int, b: int, n: nat)
    requires p > 0 && Cong(p, a, b)
    ensures Cong(p, Pow(a, n), Pow(b, n))
  {
    if n == 0 {
      CongRefl(p, 1);
    } else {
      CongPow(p, a, b, n - 1);
      CongMul(p, a, b, Pow(a, n - 1), Pow(b, n - 1));
    }
  }

  // ----- Fermat's little theorem

  function Product(s: seq<int>): int {
    if s == [] then 1 else s[|s| - 1] * Product(s[..|s| - 1])
  }

  function Factorial(n: nat): int {
    if n == 0 then 1 else n * Factorial(n - 1)
  }

  lemma {:induction false} ProductRemove(s: seq<int>, i: nat)
    requires i < |s|
    ensures Product(s) == s[i] * Product(s[..i] + s[i + 1..])
    decreases |s|
  {
    var n := |s| - 1;
    if i == n {
      assert s[..i] + s[i + 1..] == s[..n];
    } else {
      var t := s[..n];
      ProductRemove(t, i);
      var u, v := s[..i] + s[i + 1..], t[..i] + t[i + 1..];
      assert u[..|u| - 1] == v && u[|u| - 1] == s[n];
      assert s[n] * (s[i] * Product(v)) == s[i] * (s[n] * Product(v));
    }
  }

  ghost predicate Permutes(s: seq<int>, n: nat) {
    && |s| == n
    && (forall i :: 0 <= i < n ==> 1 <= s[i] <= n)
    && (forall i, j :: 0 <= i < j < n ==> s[i] != s[j])
  }

  lemma {:induction false} PigeonHole(s: seq<int>, n: nat)
    requires |s| > n >= 1 && forall i :: 0 <= i < |s| ==> 1 <= s[i] <= n
    ensures exists i, j :: 0 <= i < j < |s| && s[i] == s[j]
    decreases n
  {
    if n == 1 {
      assert s[0] == s[1] == 1;
    } else if i, j :| 0 <= i < j < |s| && s[i] == n && s[j] == n {
    } else if i :| 0 <= i < |s| && s[i] == n {
      var t := s[..i] + s[i + 1..];
      PigeonHole(t, n - 1);
      var k, l :| 0 <= k < l < |t| && t[k] == t[l];
      var k', l' := if k < i then k else k + 1, if l < i then l else l + 1;
      assert s[k'] == s[l'];
    } else {
      PigeonHole(s, n - 1);
    }
  }

  lemma {:induction false} PermutationProduct(s: seq<int>, n: nat)
    requires Permutes(s, n)
    ensures Product(s) == Factorial(n)
    decreases n
  {
    if n > 0 {
      if n == 1 {
        assert s[0] == 1;
      } else if n !in s {
        PigeonHole(s, n - 1);
      }
      var i :| 0 <= i < n && s[i] == n;
      ProductRemove(s, i);
      PermutationProduct(s[..i] + s[i + 1..], n - 1);
    }
  }

  // a*1 mod p, a*2 mod p, ..., a*n mod p
  function Multiples(p: nat, a: int, n: nat): seq<int>
    requires p > 0
  {
    seq(n, i => (a * (i + 1)) % p)
  }

  lemma {:induction false} MultiplesProduct(p: nat, a: int, n: nat)
    requires p > 0
    ensures Cong(p, Product(Multiples(p, a, n)), Pow(a, n) * Factorial(n))
  {
    if n == 0 {
      CongRefl(p, 1);
    } else {
      MultiplesProduct(p, a, n - 1);
      var s := Multiples(p, a, n);
      assert s[..n - 1] == Multiples(p, a, n - 1);
      CongMod(p, a * n);
      CongSym(p, a * n, (a * n) % p);
      var x, f := Pow(a, n - 1), Factorial(n - 1);
      CongMul(p, (a * n) % p, a * n, Product(s[..n - 1]), x * f);
      assert (a * n) * (x * f) == (a * x) * (n * f);
    }
  }

  lemma MultiplesPermute(p: nat, a: int)
    requires IsPrime(p) && !Cong(p, a, 0)
    ensures Permutes(Multiples(p, a, p - 1), p - 1)
  {
    var s := Multiples(p, a, p - 1);
    forall i | 0 <= i < p - 1
      ensures 1 <= s[i] <= p - 1
    {
      CongMod(p, a * (i + 1));
      if s[i] == 0 {
        EuclidAny(p, a, i + 1);
        CongSmall(p, i + 1, 0);
      }
    }
    forall i, j | 0 <= i < j < p - 1
      ensures s[i] != s[j]
    {
      if s[i] == s[j] {
        ModEqual(p, a * (i + 1), a * (j + 1));
        Cancel(p, a, i + 1, j + 1);
        CongSmall(p, i + 1, j + 1);
      }
    }
  }

  lemma {:induction false} FactorialNotZero(p: nat, n: nat)
    requires IsPrime(p) && n < p
    ensures !Cong(p, Factorial(n), 0)
  {
    if n == 0 {
      if Cong(p, 1, 0) { CongSmall(p, 1, 0); }
    } else {
      FactorialNotZero(p, n - 1);
      if Cong(p, Factorial(n), 0) {
        EuclidAny(p, n, Factorial(n - 1));
        CongSmall(p, n, 0);
      }
    }
  }

  // For a prime p and a not divisible by p, a^(p-1) is 1 modulo p.
  lemma Fermat(p: nat, a: int)
    requires IsPrime(p) && !Cong(p, a, 0)
    ensures Cong(p, Pow(a, p - 1), 1)
  {
    var f := Factorial(p - 1);
    MultiplesPermute(p, a);
    PermutationProduct(Multiples(p, a, p - 1), p - 1);
    MultiplesProduct(p, a, p - 1);
    CongSym(p, f, Pow(a, p - 1) * f);
    FactorialNotZero(p, p - 1);
    assert Pow(a, p - 1) * f == f * Pow(a, p - 1) && f == f * 1;
    Cancel(p, f, Pow(a, p - 1), 1);
  }

  // ----- square roots of one, and of two to the half

  lemma RootsOfOne(p: nat, x: int)
    requires IsPrime(p) && Cong(p, x * x, 1)
    ensures Cong(p, x, 1) || Cong(p, x, -1)
  {
    assert (x - 1) * (x + 1) == x * x - 1;
    CongRefl(p, -1);
    CongAdd(p, x * x, 1, -1, -1);
    EuclidAny(p, x - 1, x + 1);
    if Cong(p, x - 1, 0) {
      CongRefl(p, 1);
      CongAdd(p, x - 1, 0, 1, 1);
    } else {
      CongAdd(p, x + 1, 0, -1, -1);
    }
  }

  // 2*4*...*2n, and 1*3*...*(2n-1)
  function EvenProduct(n: nat): int {
    if n == 0 then 1 else 2 * n * EvenProduct(n - 1)
  }

  function OddProduct(n: nat): int {
    if n == 0 then 1 else (2 * n - 1) * OddProduct(n - 1)
  }

  lemma {:induction false} EvenProductIsPower(n: nat)
    ensures EvenProduct(n) == Pow(2, n) * Factorial(n)
  {
    if n != 0 {
      EvenProductIsPower(n - 1);
      var x, f := Pow(2, n - 1), Factorial(n - 1);
      assert 2 * n * (x * f) == (2 * x) * (n * f);
    }
  }

  lemma {:induction false} EvenTimesOdd(n: nat)
    ensures EvenProduct(n) * OddProduct(n) == Factorial(2 * n)
  {
    if n != 0 {
      EvenTimesOdd(n - 1);
      var e, o := EvenProduct(n - 1), OddProduct(n - 1);
      assert (2 * n * e) * ((2 * n - 1) * o) == 2 * n * ((2 * n - 1) * (e * o));
      assert Factorial(2 * n) == 2 * n * Factorial(2 * n - 1);
    }
  }

  // Modulo p == 4q+1 the top t even factors of 2*4*...*4q are minus the first t odd numbers.
  lemma {:induction false} TopEvens(p: nat, q: nat, t: nat)
    requires p == 4 * q + 1 && t <= q
    ensures Cong(p, EvenProduct(2 * q), Pow(-1, t) * OddProduct(t) * EvenProduct(2 * q - t))
  {
    if t == 0 {
      assert Pow(-1, 0) * OddProduct(0) * EvenProduct(2 * q) == EvenProduct(2 * q);
      CongRefl(p, EvenProduct(2 * q));
    } else {
      TopEvens(p, q, t - 1);
      var s, o, e := Pow(-1, t - 1), OddProduct(t - 1), EvenProduct(2 * q - t);
      var k := 2 * (2 * q - t + 1);
      assert EvenProduct(2 * q - t + 1) == k * e;
      assert k == p - (2 * t - 1);
      CongBy(p, k, -(2 * t - 1), 1);
      CongRefl(p, s * o * e);
      CongMul(p, k, -(2 * t - 1), s * o * e, s * o * e);
      Reorder(s, o, e, k, 2 * t - 1);
      CongTrans(p, EvenProduct(2 * q), s * o * (k * e), Pow(-1, t) * OddProduct(t) * e);
    }
  }

  lemma Reorder(s: int, o: int, e: int, k: int, j: int)
    ensures s * o * (k * e) == k * (s * o * e)
    ensures (-1 * s) * (j * o) * e == -j * (s * o * e)
  {
    assert s * o * (k * e) == k * ((s * o) * e);
    assert (-1 * s) * (j * o) == -j * (s * o);
  }

  lemma {:induction false} MinusOnePower(n: nat)
    ensures Pow(-1, n) == if n % 2 == 0 then 1 else -1
  {
    if n != 0 {
      MinusOnePower(n - 1);
    }
  }

  // For a prime p == 5 (mod 8), 2^((p-1)/2) is -1 modulo p.
  lemma TwoToTheHalf(p: nat)
    requires IsPrime(p) && p % 8 == 5
    ensures Cong(p, Pow(2, (p - 1) / 2), -1)
  {
    var q := (p - 1) / 4;
    assert p == 4 * q + 1 && q % 2 == 1 && (p - 1) / 2 == 2 * q;
    var x, f := Pow(2, 2 * q), Factorial(2 * q);
    TopEvens(p, q, q);
    MinusOnePower(q);
    EvenTimesOdd(q);
    EvenProductIsPower(2 * q);
    assert Pow(-1, q) * OddProduct(q) * EvenProduct(q) == f * -1;
    assert x * f == f * x;
    FactorialNotZero(p, 2 * q);
    Cancel(p, f, x, -1);
  }

  // ----- squares

  ghost predicate IsSquare(p: nat, a: int)
    requires p > 0
  {
    exists b :: Cong(p, Square(b), a)
  }

  function Square(b: int): int {
    b * b
  }

  // Half of Fermat's power is 1 on squares that are not multiples of p.
  lemma EulerOnSquares(p: nat, a: int)
    requires IsPrime(p) && p % 2 == 1 && IsSquare(p, a) && !Cong(p, a, 0)
    ensures Cong(p, Pow(a, (p - 1) / 2), 1)
  {
    var b :| Cong(p, Square(b), a);
    var h := (p - 1) / 2;
    if Cong(p, b, 0) {
      CongMul(p, b, 0, b, 0);
      CongSym(p, b * b, a);
      CongTrans(p, a, b * b, 0);
    }
    Fermat(p, b);
    PowSquare(b, h);
    CongPow(p, b * b, a, h);
    CongSym(p, Pow(b * b, h), Pow(a, h));
    CongTrans(p, Pow(a, h), Pow(b * b, h), 1);
  }

  // Two roots of the same square agree up to sign, so at most one of them is even.
  lemma EvenRootUnique(p: nat, y: nat, z: nat)
    requires IsPrime(p) && p % 2 == 1 && y < p && z < p && y % 2 == 0 && z % 2 == 0
    requires Cong(p, y * y, z * z)
    ensures y == z
  {
    assert (y - z) * (y + z) == y * y - z * z;
    CongRefl(p, -(z * z));
    CongAdd(p, y * y, z * z, -(z * z), -(z * z));
    EuclidAny(p, y - z, y + z);
    if Cong(p, y - z, 0) {
      CongRefl(p, z);
      CongAdd(p, y - z, 0, z, z);
      CongSmall(p, y, z);
    } else {
      var k :| Off(p, y + z, 0, k);
      BelowTwice(p, k, y + z);
    }
  }

  lemma BelowTwice(p: nat, k: int, n: nat)
    requires p > 0 && n == p * k && n < 2 * p
    ensures k == 0 || k == 1
  {
    Monotone(p, k, -1);
    Monotone(p, 2, k);
  }

  lemma Monotone(p: nat, k: int, l: int)
    ensures k <= l ==> p * k <= p * l
  {
  }

  // ----- remainders

  function ModPow(b: int, e: nat, p: nat): nat
    requires p > 0
  {
    Pow(b, e) % p
  }

  lemma CongModSym(p: nat, a: int)
    requires p > 0
    ensures Cong(p, a % p, a)
  {
    CongMod(p, a);
    CongSym(p, a, a % p);
  }

  lemma SmallRemainder(p: nat, n: nat, a: nat)
    requires p > 0 && a < p
    ensures n % p == a <==> Cong(p, n, a)
  {
    ModEqual(p, n, a);
    CongMod(p, a);
    CongSmall(p, a, a % p);
  }
}
