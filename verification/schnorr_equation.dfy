/** Signatures of BIP-340 with every hash input written out: the equation that a verifier decides, and
    how messages are bound to challenges and nonces. */
module SchnorrEquation {
  import opened Bytes
  import opened Numbers
  import opened Schnorr
  import opened Secp256k1

  // ----- verification

  // The point with this x coordinate and an even y coordinate, without the word for it.
  ghost predicate EvenPoint(c: Curve, x: nat, q: Point)
    requires c.p > 0
  {
    On(c, q) && q.Affine? && q.x == x && q.y % 2 == 0
  }

  // s*G == R + e*P, where e is the hash of R's x coordinate, the key and the message.
  ghost predicate Equation(c: Curve, h: Hash, pub: seq<byte>, msg: seq<byte>, sig: seq<byte>, p: Point, r: Point)
    requires c.p > 0 && |sig| == 64
  {
    && EvenPoint(c, Value(pub, 256), p) && EvenPoint(c, Value(sig[..32], 256), r)
    && Mul(c, Value(sig[32..], 256), c.g)
         == c.add(r, Mul(c, Value(h("BIP0340/challenge", sig[..32] + pub + msg), 256), p))
  }

  lemma AcceptsIffEquation(c: Curve, h: Hash, pub: seq<byte>, msg: seq<byte>, sig: seq<byte>)
    requires Valid(c) && |sig| == 64
    ensures Accepts(c, h, pub, msg, sig) <==>
              Value(sig[32..], 256) < c.n && exists p, r :: Equation(c, h, pub, msg, sig, p, r)
  {
    if Accepts(c, h, pub, msg, sig) {
      var p, r := Balances(c, h, pub, msg, sig);
    }
    if Number(sig[32..]) < c.n && exists p, r :: Equation(c, h, pub, msg, sig, p, r) {
      var p, r :| Equation(c, h, pub, msg, sig, p, r);
      var e := Number(h("BIP0340/challenge", sig[..32] + pub + msg));
      MulMod(c, e, p);
      MulOn(c, e, p);
      AddThenSubtract(c, r, Mul(c, e, p));
      assert Balanced(c, p, Challenge(c, h, sig[..32], pub, msg), sig);
    }
  }

  lemma Balances(c: Curve, h: Hash, pub: seq<byte>, msg: seq<byte>, sig: seq<byte>) returns (p: Point, r: Point)
    requires Valid(c) && |sig| == 64 && Accepts(c, h, pub, msg, sig)
    ensures Equation(c, h, pub, msg, sig, p, r)
  {
    var e := Number(h("BIP0340/challenge", sig[..32] + pub + msg));
    p :| Lifts(c, Number(pub), p) && Balanced(c, p, Challenge(c, h, sig[..32], pub, msg), sig);
    MulMod(c, e, p);
    MulOn(c, e, p);
    MulOn(c, Number(sig[32..]), c.g);
    var sg, ep := Mul(c, Number(sig[32..]), c.g), Mul(c, e, p);
    r := c.add(sg, Neg(c, ep));
    AddBack(c, sg, ep);
  }

  lemma AddBack(c: Curve, q: Point, z: Point)
    requires Valid(c) && On(c, q) && On(c, z)
    ensures c.add(c.add(q, Neg(c, z)), z) == q
  {
    NegOn(c, z);
    assert Group(c, q, Neg(c, z), z) && Group(c, z, Neg(c, z), z);
  }

  // ----- what binds the message

  // One signature under one key is accepted for two messages only if their challenge hashes agree modulo n.
  lemma MessageBound(c: Curve, h: Hash, pub: seq<byte>, m: seq<byte>, m': seq<byte>, sig: seq<byte>)
    requires Valid(c) && |sig| == 64 && Accepts(c, h, pub, m, sig) && Accepts(c, h, pub, m', sig)
    ensures Value(h("BIP0340/challenge", sig[..32] + pub + m), 256) % c.n
         == Value(h("BIP0340/challenge", sig[..32] + pub + m'), 256) % c.n
  {
    var p, r := Balances(c, h, pub, m, sig);
    var p', r' := Balances(c, h, pub, m', sig);
    LiftUnique(c, Number(pub), p, p');
    LiftUnique(c, Number(sig[..32]), r, r');
    var e, e' := Number(h("BIP0340/challenge", sig[..32] + pub + m)), Number(h("BIP0340/challenge", sig[..32] + pub + m'));
    SameMultiple(c, r, p, e, e');
  }

  lemma SameMultiple(c: Curve, r: Point, p: Point, e: nat, e': nat)
    requires Valid(c) && On(c, r) && On(c, p) && p != Infinity
    requires c.add(r, Mul(c, e, p)) == c.add(r, Mul(c, e', p))
    ensures e % c.n == e' % c.n
  {
    var q, q' := Mul(c, e, p), Mul(c, e', p);
    MulOn(c, e, p);
    MulOn(c, e', p);
    CancelLeft(c, r, q, q');
    MulMod(c, e, p);
    MulMod(c, e', p);
    MulInjective(c, e % c.n, e' % c.n, p);
  }

  lemma CancelLeft(c: Curve, r: Point, q: Point, q': Point)
    requires Valid(c) && On(c, r) && On(c, q) && On(c, q') && c.add(r, q) == c.add(r, q')
    ensures q == q'
  {
    NegOn(c, r);
    AddThenSubtract(c, q, r);
    AddThenSubtract(c, q', r);
    assert Group(c, q, r, r) && Group(c, q', r, r);
  }

  // ----- the nonce

  // The hash input of the nonce: the key masked with the hash of the auxiliary bytes, the public key, the message.
  ghost predicate NonceInput(c: Curve, h: Hash, d: nat, msg: seq<byte>, aux: seq<byte>, input: seq<byte>)
    requires Valid(c) && Hash32(h) && ScalarOk(c, d)
  {
    var point := Mul(c, d, c.g);
    && |input| == 64 + |msg| && input[32..64] == XOnly(point) && input[64..] == msg
    && forall i, k | 0 <= i < 32 && 0 <= k < 8 ::
         var key := LastDigits(if point.Affine? && point.y % 2 == 1 then c.n - d else d, 32)[i];
         Bit(input[i], k) == if Bit(key, k) == Bit(h("BIP0340/aux", aux)[i], k) then 0 else 1
  }

  lemma NonceHashes(c: Curve, h: Hash, d: nat, msg: seq<byte>, aux: seq<byte>) returns (input: seq<byte>)
    requires Valid(c) && Hash32(h) && ScalarOk(c, d)
    ensures NonceInput(c, h, d, msg, aux, input)
    ensures SigningNonce(c, h, d, msg, aux) == Value(h("BIP0340/nonce", input), 256) % c.n
  {
    var key, ah := LastDigits(EvenScalar(c, d), 32), h("BIP0340/aux", aux);
    var t := XorBytes(key, ah);
    input := t + XOnly(Mul(c, d, c.g)) + msg;
    forall i, k | 0 <= i < 32 && 0 <= k < 8
      ensures Bit(input[i], k) == if Bit(key[i], k) == Bit(ah[i], k) then 0 else 1
    {
      XorByteAt(key[i], ah[i], k);
    }
  }

  // Two signatures of one key name the same nonce point only if their nonce hashes agree, or cancel, modulo n.
  lemma NonceBound(c: Curve, k: nat, k': nat)
    requires Valid(c) && ScalarOk(c, k) && ScalarOk(c, k') && XOnly(Mul(c, k, c.g)) == XOnly(Mul(c, k', c.g))
    ensures k == k' || k + k' == c.n
  {
    KeyLifts(c, k);
    KeyLifts(c, k');
    LiftUnique(c, Number(XOnly(Mul(c, k, c.g))), Mul(c, EvenScalar(c, k), c.g), Mul(c, EvenScalar(c, k'), c.g));
    EvenScalarPoint(c, k);
    EvenScalarPoint(c, k');
    MulInjective(c, EvenScalar(c, k), EvenScalar(c, k'), c.g);
  }

  // ----- the curve and the shared secret

  // The points other than the neutral one are the solutions of y^2 == x^3 + 7 modulo p.
  lemma OnWritten(c: Curve, x: nat, y: nat) returns (k: int)
    requires c.p > 0 && On(c, Affine(x, y))
    ensures x < c.p && y < c.p && y * y == x * x * x + 7 + k * c.p
  {
    k :| Off(c.p, y * y, Cubic(x), k);
  }

  lemma SolutionIsOn(c: Curve, x: nat, y: nat, k: int)
    requires c.p > 0 && x < c.p && y < c.p && y * y == x * x * x + 7 + k * c.p
    ensures On(c, Affine(x, y))
  {
    assert Off(c.p, y * y, Cubic(x), k);
  }

  // The secret of two key holders is the x coordinate of the product of both scalars with the generator.
  lemma SharedIsProduct(c: Curve, a: seq<byte>, b: seq<byte>, pb: seq<byte>, s: seq<byte>, k: nat)
    requires Valid(c) && PublicKeyOf(c, b, pb) && Shares(c, a, pb, s) && k == Value(a, 256) * Value(b, 256)
    ensures Mul(c, k, c.g).Affine? && |s| == 32 && Value(s, 256) == Mul(c, k, c.g).x
  {
    SharedXOf(c, a, b, pb, s, k);
    ProductAffine(c, Number(a), Number(b), k);
    XOnlyBack(c, Mul(c, k, c.g));
  }

  lemma SharedXOf(c: Curve, a: seq<byte>, b: seq<byte>, pb: seq<byte>, s: seq<byte>, k: nat)
    requires Valid(c) && PublicKeyOf(c, b, pb) && Shares(c, a, pb, s) && k == Number(a) * Number(b)
    ensures s == XOnly(Mul(c, k, c.g))
  {
    var q :| Lifts(c, Number(pb), q) && s == XOnly(Mul(c, Number(a), q));
    SharedX(c, Number(a), Number(b), q);
  }

  lemma ProductAffine(c: Curve, d: nat, e: nat, k: nat)
    requires Valid(c) && ScalarOk(c, d) && ScalarOk(c, e) && k == d * e
    ensures On(c, Mul(c, k, c.g)) && Mul(c, k, c.g).Affine?
  {
    MulOn(c, k, c.g);
    MulMul(c, d, e, c.g);
    PublicPoint(c, e);
    assert Order(c, Mul(c, e, c.g), d);
  }
}
