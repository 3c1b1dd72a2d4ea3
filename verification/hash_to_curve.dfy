/** Hashing to an affine point of Curve25519 by trying counters until a candidate x lies on the curve. */
module HashToCurve {
  import opened Bytes
  import opened Numbers

  const A_CURVE25519: nat := 486662
  const MAX_INPUT_SIZE: nat := 65536
  const MAX_DOMAIN_SIZE: nat := 256
  const MAX_TRIES: nat := 4096
  const SHA512_LENGTH: nat := 64
  const SEED_TAG: seq<char> := "ECAI-H2C-CURVE25519-AFFINE-V1:SEED"
  const CANDIDATE_TAG: seq<char> := "ECAI-H2C-CURVE25519-AFFINE-V1:CANDIDATE"

  // ----- the field

  datatype Params = Params(p: nat, sqrtExp: nat, sqrtFixup: nat)

  ghost predicate ValidParams(c: Params) {
    && IsPrime(c.p) && c.p % 8 == 5
    && c.sqrtExp == (c.p + 3) / 8
    && c.sqrtFixup == ModPow(2, (c.p - 1) / 4, c.p)
  }

  method InitCurveParams(p: nat) returns (c: Params)
    requires IsPrime(p) && p % 8 == 5
    ensures ValidParams(c) && c.p == p
  {
    c := Params(p, (p + 3) / 8, ModPow(2, (p - 1) / 4, p));
  }

  // x^3 + A*x^2 + x
  function CurveRhs(x: int): int {
    x * x * x + A_CURVE25519 * (x * x) + x
  }

  method Rhs(x: nat, p: nat) returns (rhs: nat)
    requires p > 0
    ensures rhs < p && Cong(p, rhs, CurveRhs(x))
  {
    var x2 := x * x % p;
    var x3 := x2 * x % p;
    var t := x2 * A_CURVE25519 % p;
    rhs := x3 + t;
    rhs := rhs + x;
    RhsReduced(p, x, x2, x3, t);
    CongMod(p, rhs);
    CongSym(p, rhs, rhs % p);
    CongTrans(p, rhs % p, rhs, CurveRhs(x));
    rhs := rhs % p;
  }

  lemma RhsReduced(p: nat, x: nat, x2: nat, x3: nat, t: nat)
    requires p > 0 && x2 == x * x % p && x3 == x2 * x % p && t == x2 * A_CURVE25519 % p
    ensures Cong(p, x3 + t + x, CurveRhs(x))
  {
    CongModSym(p, x * x);
    CongModSym(p, x2 * x);
    CongModSym(p, x2 * A_CURVE25519);
    CongRefl(p, x);
    CongRefl(p, A_CURVE25519);
    CongMul(p, x2, x * x, x, x);
    CongTrans(p, x3, x2 * x, x * x * x);
    CongMul(p, x2, x * x, A_CURVE25519, A_CURVE25519);
    CongTrans(p, t, x2 * A_CURVE25519, x * x * A_CURVE25519);
    CongAdd(p, x3, x * x * x, t, x * x * A_CURVE25519);
    CongAdd(p, x3 + t, x * x * x + x * x * A_CURVE25519, x, x);
  }

  // ----- the square root

  // The first candidate squares to a * a^((p-1)/4).
  lemma CandidateSquare(p: nat, a: nat, y: nat)
    requires IsPrime(p) && p % 8 == 5 && y == ModPow(a, (p + 3) / 8, p)
    ensures Cong(p, y * y, a * Pow(a, (p - 1) / 4))
  {
    var e := (p + 3) / 8;
    CongModSym(p, Pow(a, e));
    CongMul(p, y, Pow(a, e), y, Pow(a, e));
    PowSquare(a, e);
    assert 2 * e == 1 + (p - 1) / 4;
  }

  lemma Quarters(p: nat)
    requires p % 8 == 5
    ensures 2 * ((p - 1) / 4) == (p - 1) / 2
  {
    var k := p / 8;
    assert p == 8 * k + 5;
    assert (p - 1) / 4 == 2 * k + 1;
  }

  // On a square, a^((p-1)/4) is 1 or -1.
  lemma QuarterPower(p: nat, a: nat)
    requires IsPrime(p) && p % 8 == 5 && IsSquare(p, a) && !Cong(p, a, 0)
    ensures var q := Pow(a, (p - 1) / 4); Cong(p, q, 1) || Cong(p, q, -1)
  {
    var k := (p - 1) / 4;
    EulerOnSquares(p, a);
    PowSquare(a, k);
    Quarters(p);
    RootsOfOne(p, Pow(a, k));
  }

  // The fix-up factor squares to -1.
  lemma FixupSquare(c: Params)
    requires ValidParams(c)
    ensures Cong(c.p, c.sqrtFixup * c.sqrtFixup, -1)
  {
    var p := c.p;
    var k := (p - 1) / 4;
    CongModSym(p, Pow(2, k));
    CongMul(p, c.sqrtFixup, Pow(2, k), c.sqrtFixup, Pow(2, k));
    PowSquare(2, k);
    Quarters(p);
    TwoToTheHalf(p);
    CongTrans(p, c.sqrtFixup * c.sqrtFixup, Pow(2, 2 * k), -1);
  }

  lemma FixedSquare(c: Params, y: nat)
    requires ValidParams(c)
    ensures var z := y * c.sqrtFixup % c.p; Cong(c.p, z * z, -(y * y))
  {
    var p, f := c.p, c.sqrtFixup;
    var z := y * f % p;
    CongModSym(p, y * f);
    CongMul(p, z, y * f, z, y * f);
    ProductSquare(y, f);
    FixupSquare(c);
    CongRefl(p, y * y);
    CongMul(p, y * y, y * y, f * f, -1);
    CongTrans(p, z * z, (y * y) * (f * f), -(y * y));
  }

  lemma ProductSquare(y: int, f: int)
    ensures (y * f) * (y * f) == (y * y) * (f * f)
    ensures (y * y) * -1 == -(y * y)
  {
  }

  // If neither candidate squares to a, then a is no square.
  lemma SqrtComplete(c: Params, a: nat, y: nat, z: nat)
    requires ValidParams(c) && a < c.p
    requires y == ModPow(a, c.sqrtExp, c.p) && z == y * c.sqrtFixup % c.p
    requires IsSquare(c.p, a)
    ensures Cong(c.p, y * y, a) || Cong(c.p, z * z, a)
  {
    var p, q := c.p, Pow(a, (c.p - 1) / 4);
    CandidateSquare(p, a, y);
    CongRefl(p, a);
    if Cong(p, a, 0) {
      CongSmall(p, a, 0);
      assert a * q == 0;
    } else {
      QuarterPower(p, a);
      if Cong(p, q, 1) {
        CongMul(p, a, a, q, 1);
        CongTrans(p, y * y, a * q, a);
      } else {
        CongMul(p, a, a, q, -1);
        CongTrans(p, y * y, a * q, a * -1);
        FixedSquare(c, y);
        CongRefl(p, -1);
        CongMul(p, y * y, a * -1, -1, -1);
        assert (y * y) * -1 == -(y * y) && (a * -1) * -1 == a;
        CongTrans(p, z * z, -(y * y), a);
      }
    }
  }

  // Succeeds exactly on the squares, with a root.
  method FpSqrt(a: nat, c: Params) returns (ok: bool, y: nat)
    requires ValidParams(c) && a < c.p
    ensures ok <==> IsSquare(c.p, a)
    ensures ok ==> y < c.p && Cong(c.p, y * y, a)
  {
    y := ModPow(a, c.sqrtExp, c.p);
    ghost var y0 := y;
    var check := y * y % c.p;
    SmallRemainder(c.p, y * y, a);
    if check != a {
      y := y * c.sqrtFixup % c.p;
      check := y * y % c.p;
      SmallRemainder(c.p, y * y, a);
      if check != a {
        if IsSquare(c.p, a) {
          SqrtComplete(c, a, y0, y);
        }
        return false, y;
      }
    }
    assert Cong(c.p, Square(y), a);
    return true, y;
  }

  method CanonicalizeEvenY(y0: nat, p: nat) returns (y: nat)
    requires y0 < p && p % 2 == 1
    ensures y % 2 == 0 && y < p && Cong(p, y * y, y0 * y0)
  {
    y := y0;
    if y % 2 == 1 {
      y := p - y;
      assert (p - y0) * (p - y0) == y0 * y0 + p * (p - 2 * y0);
      CongBy(p, y * y, y0 * y0, p - 2 * y0);
    } else {
      CongRefl(p, y * y);
    }
  }

  // ----- bytes

  function FromLe(b: seq<byte>): nat {
    if b == [] then 0 else b[0] + 256 * FromLe(b[1..])
  }

  function ToLe(v: nat, n: nat): (b: seq<byte>)
    ensures |b| == n
  {
    if n == 0 then [] else [v % 256] + ToLe(v / 256, n - 1)
  }

  lemma {:induction false} LeRoundTrip(v: nat, n: nat)
    requires v < Bound(n)
    ensures FromLe(ToLe(v, n)) == v
  {
    if n != 0 {
      LeRoundTrip(v / 256, n - 1);
    }
  }

  // The little-endian export to n bytes, with the top bit of the last byte cleared.
  function ExportLe(v: nat, n: nat): (b: seq<byte>)
    requires n > 0
    ensures |b| == n && b[n - 1] < 128
  {
    var t := ToLe(v, n);
    t[n - 1 := t[n - 1] % 128]
  }

  // Clearing that bit loses nothing below 2^(8n-1).
  lemma ExportRoundTrip(v: nat, n: nat)
    requires n > 0 && v < 128 * Bound(n - 1)
    ensures FromLe(ExportLe(v, n)) == v
  {
    LeRoundTrip(v, n);
    TopByteSmall(v, n - 1);
    assert ExportLe(v, n) == ToLe(v, n);
  }

  lemma {:induction false} TopByteSmall(v: nat, n: nat)
    requires v < 128 * Bound(n)
    ensures ToLe(v, n + 1)[n] < 128
  {
    if n == 0 {
      assert ToLe(v, 1) == [v % 256] + ToLe(v / 256, 0);
    } else {
      TopByteSmall(v / 256, n - 1);
      assert ToLe(v, n + 1)[n] == ToLe(v / 256, n)[n - 1];
    }
  }

  function Ascii(s: seq<char>): (b: seq<byte>)
    ensures |b| == |s|
  {
    seq(|s|, i requires 0 <= i < |s| => s[i] as nat % 256)
  }

  // What the seed hashes: domain and input, each with its length in front.
  function SeedInput(domain: seq<byte>, input: seq<byte>): seq<byte> {
    Ascii(SEED_TAG) + LastDigits(|domain|, 4) + domain + LastDigits(|input|, 8) + input
  }

  // Different (domain, input) pairs are never hashed as the same bytes.
  lemma SeedInputInjective(d: seq<byte>, i: seq<byte>, d': seq<byte>, i': seq<byte>)
    requires |d| <= MAX_DOMAIN_SIZE && |d'| <= MAX_DOMAIN_SIZE
    requires SeedInput(d, i) == SeedInput(d', i')
    ensures d == d' && i == i'
  {
    var s, s' := SeedInput(d, i), SeedInput(d', i');
    var n := |SEED_TAG|;
    SeedParts(d, i);
    SeedParts(d', i');
    FourDigits(|d|, |d'|);
    assert s[n + 4..n + 4 + |d|] == s'[n + 4..n + 4 + |d'|];
    assert s[n + 12 + |d|..] == s'[n + 12 + |d'|..];
  }

  // The fields of a seed input in place.
  lemma SeedParts(d: seq<byte>, i: seq<byte>)
    ensures var s, n := SeedInput(d, i), |SEED_TAG|;
            && |s| == n + 12 + |d| + |i|
            && s[n..n + 4] == LastDigits(|d|, 4) && s[n + 4..n + 4 + |d|] == d && s[n + 12 + |d|..] == i
  {
  }

  lemma FourDigits(a: nat, b: nat)
    requires a <= MAX_DOMAIN_SIZE && b <= MAX_DOMAIN_SIZE
    ensures LastDigits(a, 4) == LastDigits(b, 4) ==> a == b
  {
    assert Bound(2) == 256 * Bound(1) && Bound(3) == 256 * Bound(2) && Bound(4) == 256 * Bound(3);
    ValueOfDigits(a, 4);
    ValueOfDigits(b, 4);
  }

  // ----- the search

  datatype Outcome =
    | Point(x: seq<byte>, y: seq<byte>, counter: nat)
    | InvalidDomainSize
    | InputTooLarge
    | NotFound

  // The x that counter c proposes.
  function Candidate(sha512: seq<byte> -> seq<byte>, p: nat, domain: seq<byte>, input: seq<byte>, c: nat): nat
    requires p > 0 && forall m :: |sha512(m)| == SHA512_LENGTH
  {
    var seed := sha512(SeedInput(domain, input));
    Value(sha512(Ascii(CANDIDATE_TAG) + seed + LastDigits(c, 4))[..32], 256) % p
  }

  // x is the abscissa of a point with coordinates modulo p
  ghost predicate OnCurve(p: nat, x: nat)
    requires p > 0
  {
    IsSquare(p, CurveRhs(x))
  }

  lemma SquareUpTo(p: nat, a: int, b: int)
    requires p > 0 && Cong(p, a, b)
    ensures IsSquare(p, a) <==> IsSquare(p, b)
  {
    CongSym(p, a, b);
    if IsSquare(p, a) {
      var r :| Cong(p, Square(r), a);
      CongTrans(p, Square(r), a, b);
    }
    if IsSquare(p, b) {
      var r :| Cong(p, Square(r), b);
      CongTrans(p, Square(r), b, a);
    }
  }

  // The point with abscissa x and even ordinate.
  ghost predicate IsEvenPoint(p: nat, x: nat, y: nat)
    requires p > 0
  {
    x < p && y < p && y % 2 == 0 && Cong(p, y * y, CurveRhs(x))
  }

  // An abscissa has at most one even ordinate, so the result is determined by its counter.
  lemma EvenPointUnique(p: nat, x: nat, y: nat, z: nat)
    requires IsPrime(p) && p % 2 == 1 && IsEvenPoint(p, x, y) && IsEvenPoint(p, x, z)
    ensures y == z
  {
    CongSym(p, z * z, CurveRhs(x));
    CongTrans(p, y * y, CurveRhs(x), z * z);
    EvenRootUnique(p, y, z);
  }

  method TryCandidate(x: nat, c: Params) returns (ok: bool, y: nat)
    requires ValidParams(c) && x < c.p
    ensures ok <==> OnCurve(c.p, x)
    ensures ok ==> IsEvenPoint(c.p, x, y)
  {
    var rhs := Rhs(x, c.p);
    SquareUpTo(c.p, rhs, CurveRhs(x));
    ok, y := FpSqrt(rhs, c);
    if ok {
      ghost var y0 := y;
      y := CanonicalizeEvenY(y, c.p);
      CongTrans(c.p, y * y, y0 * y0, rhs);
      CongTrans(c.p, y * y, rhs, CurveRhs(x));
    }
  }

  // The first n counters propose no abscissa of a point.
  ghost predicate NoneBelow(sha512: seq<byte> -> seq<byte>, p: nat, domain: seq<byte>, input: seq<byte>, n: nat)
    requires p > 0 && forall m :: |sha512(m)| == SHA512_LENGTH
  {
    forall c | 0 <= c < n :: !OnCurve(p, Candidate(sha512, p, domain, input, c))
  }

  lemma OneMore(sha512: seq<byte> -> seq<byte>, p: nat, domain: seq<byte>, input: seq<byte>, n: nat)
    requires p > 0 && forall m :: |sha512(m)| == SHA512_LENGTH
    requires NoneBelow(sha512, p, domain, input, n) && !OnCurve(p, Candidate(sha512, p, domain, input, n))
    ensures NoneBelow(sha512, p, domain, input, n + 1)
  {
  }

  // The least counter whose candidate is on the curve, with its even ordinate.
  method Hash(sha512: seq<byte> -> seq<byte>, p: nat, domain: seq<byte>, input: seq<byte>) returns (r: Outcome)
    requires IsPrime(p) && p % 8 == 5 && p <= 128 * Bound(31)
    requires forall m :: |sha512(m)| == SHA512_LENGTH
    ensures r == InvalidDomainSize <==> domain == [] || |domain| > 256
    ensures r == InputTooLarge <==> 0 < |domain| <= 256 && |input| > 65536
    ensures r == NotFound ==>
              forall c | 0 <= c < 4096 :: !OnCurve(p, Candidate(sha512, p, domain, input, c))
    ensures r.Point? ==>
              && r.counter < 4096
              && FromLe(r.x) == Candidate(sha512, p, domain, input, r.counter)
              && IsEvenPoint(p, FromLe(r.x), FromLe(r.y))
              && forall c | 0 <= c < r.counter :: !OnCurve(p, Candidate(sha512, p, domain, input, c))
  {
    if |domain| == 0 || |domain| > MAX_DOMAIN_SIZE {
      return InvalidDomainSize;
    }
    if |input| > MAX_INPUT_SIZE {
      return InputTooLarge;
    }
    var params := InitCurveParams(p);
    var seed := sha512(SeedInput(domain, input));
    var ctr := 0;
    while ctr < MAX_TRIES
      invariant 0 <= ctr <= MAX_TRIES
      invariant NoneBelow(sha512, p, domain, input, ctr)
    {
      var h := sha512(Ascii(CANDIDATE_TAG) + seed + LastDigits(ctr, 4));
      var x := Value(h[..32], 256) % p;
      assert x == Candidate(sha512, p, domain, input, ctr);
      var ok, y := TryCandidate(x, params);
      if ok {
        ExportRoundTrip(x, 32);
        ExportRoundTrip(y, 32);
        return Point(ExportLe(x, 32), ExportLe(y, 32), ctr);
      }
      OneMore(sha512, p, domain, input, ctr);
      ctr := ctr + 1;
    }
    return NotFound;
  }
}
