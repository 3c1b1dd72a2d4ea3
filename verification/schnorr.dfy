/** Keys, signatures of BIP-340 and shared secrets over the abstract curve; the tagged hash is a parameter. */
module Schnorr {
  import opened Bytes
  import opened Numbers
  import opened Options
  import opened Secp256k1

  // hash(tag, message)
  type Hash = (string, seq<byte>) -> seq<byte>

  ghost predicate Hash32(h: Hash) {
    forall tag, m :: |h(tag, m)| == 32
  }

  function Number(b: seq<byte>): nat {
    Value(b, 256)
  }

  predicate ScalarOk(c: Curve, d: nat) {
    0 < d < c.n
  }

  // The x coordinate of a point, as 32 bytes.
  function XOnly(q: Point): (b: seq<byte>)
    ensures |b| == 32
  {
    LastDigits(if q.Affine? then q.x else 0, 32)
  }

  lemma XOnlyBack(c: Curve, q: Point)
    requires Field(c) && On(c, q) && q.Affine?
    ensures Number(XOnly(q)) == q.x
  {
    ValueOfDigits(q.x, 32);
  }

  lemma PublicPoint(c: Curve, d: nat)
    requires Valid(c) && ScalarOk(c, d)
    ensures On(c, Mul(c, d, c.g)) && Mul(c, d, c.g).Affine?
  {
    MulOn(c, d, c.g);
    assert Order(c, c.g, d);
  }

  // ----- keys

  // The scalar of the two, d or n - d, whose point has an even y coordinate.
  function EvenScalar(c: Curve, d: nat): nat
    requires d <= c.n
  {
    var q := Mul(c, d, c.g);
    if q.Affine? && q.y % 2 == 1 then c.n - d else d
  }

  lemma EvenScalarPoint(c: Curve, d: nat)
    requires Valid(c) && ScalarOk(c, d)
    ensures ScalarOk(c, EvenScalar(c, d)) && Mul(c, EvenScalar(c, d), c.g) == EvenOf(c, Mul(c, d, c.g))
    ensures Mul(c, d, c.g).Affine? && Lifts(c, Mul(c, d, c.g).x, Mul(c, EvenScalar(c, d), c.g))
  {
    PublicPoint(c, d);
    EvenLifts(c, Mul(c, d, c.g));
    MulNeg(c, d, c.g);
  }

  // pub_from_priv_raw
  method PublicFromPrivate(c: Curve, priv: seq<byte>) returns (out: Option<(seq<byte>, bool)>)
    requires Valid(c)
    ensures out.Some? <==> ScalarOk(c, Number(priv))
    ensures out.Some? ==>
      var q := Mul(c, Number(priv), c.g); q.Affine? && out.value == (XOnly(q), q.y % 2 == 1)
  {
    var d := Number(priv);
    if !ScalarOk(c, d) {
      return None;
    }
    PublicPoint(c, d);
    var q := Mul(c, d, c.g);
    out := Some((XOnly(q), q.y % 2 == 1));
  }

  // normalize_priv: the even scalar of a key and its public form; fails exactly for scalars out of range.
  method NormalizePriv(c: Curve, priv: seq<byte>) returns (out: Option<(seq<byte>, seq<byte>)>)
    requires Valid(c) && |priv| == 32
    ensures out.Some? <==> ScalarOk(c, Number(priv))
    ensures out.Some? ==> |out.value.0| == 32 && Number(out.value.0) == EvenScalar(c, Number(priv))
    ensures out.Some? ==> out.value.1 == XOnly(Mul(c, Number(priv), c.g))
  {
    var d := Number(priv);
    var pub := PublicFromPrivate(c, priv);
    if pub.None? {
      return None;
    }
    if pub.value.1 {
      var adj := LastDigits(c.n - d, 32);
      ValueOfDigits(c.n - d, 32);
      EvenScalarPoint(c, d);
      var again := PublicFromPrivate(c, adj);
      if again.None? || again.value.1 {
        return None;
      }
      out := Some((adj, again.value.0));
    } else {
      out := Some((priv, pub.value.0));
    }
  }

  // ----- verification

  // The challenge of a signature whose nonce point has the x coordinate rx.
  function Challenge(c: Curve, h: Hash, rx: seq<byte>, pub: seq<byte>, msg: seq<byte>): nat
    requires c.n > 0
  {
    Number(h("BIP0340/challenge", rx + pub + msg)) % c.n
  }

  // s*G - e*P is the even point with the x coordinate that the signature names.
  ghost predicate Accepts(c: Curve, h: Hash, pub: seq<byte>, msg: seq<byte>, sig: seq<byte>)
    requires Valid(c) && |sig| == 64
  {
    Number(sig[32..]) < c.n &&
    exists q :: Lifts(c, Number(pub), q) && Balanced(c, q, Challenge(c, h, sig[..32], pub, msg), sig)
  }

  ghost predicate Balanced(c: Curve, q: Point, e: nat, sig: seq<byte>)
    requires c.p > 0 && |sig| == 64
  {
    Lifts(c, Number(sig[..32]), c.add(Mul(c, Number(sig[32..]), c.g), Neg(c, Mul(c, e, q))))
  }

  // schnorr_verify
  method Verify(c: Curve, h: Hash, pub: seq<byte>, msg: seq<byte>, sig: seq<byte>) returns (ok: bool)
    requires Valid(c) && |sig| == 64
    ensures ok <==> Accepts(c, h, pub, msg, sig)
  {
    var r, s := Number(sig[..32]), Number(sig[32..]);
    if r >= c.p || s >= c.n {
      return false;
    }
    var lifted := LiftX(c, pub);
    if lifted.None? {
      return false;
    }
    var q := lifted.value;
    var e := Challenge(c, h, sig[..32], pub, msg);
    var ne := if e == 0 then 0 else c.n - e;
    var point := c.add(Mul(c, s, c.g), Mul(c, ne, q));
    Subtracted(c, q, e, ne, s);
    OnlyLift(c, h, pub, msg, sig, q);
    if point == Infinity || point.y % 2 == 1 {
      return false;
    }
    SameX(c, point, sig[..32]);
    ok := XOnly(point) == sig[..32];
  }

  // Adding (n - e)*q is subtracting e*q.
  lemma Subtracted(c: Curve, q: Point, e: nat, ne: nat, s: nat)
    requires Valid(c) && On(c, q) && e < c.n && ne == if e == 0 then 0 else c.n - e
    ensures Mul(c, ne, q) == Neg(c, Mul(c, e, q))
    ensures On(c, c.add(Mul(c, s, c.g), Mul(c, ne, q)))
  {
    MulNeg(c, e, q);
    MulOn(c, s, c.g);
    MulOn(c, ne, q);
    assert Group(c, Mul(c, s, c.g), Mul(c, ne, q), q);
  }

  lemma OnlyLift(c: Curve, h: Hash, pub: seq<byte>, msg: seq<byte>, sig: seq<byte>, q: Point)
    requires Valid(c) && |sig| == 64 && Lifts(c, Number(pub), q) && Number(sig[32..]) < c.n
    ensures Accepts(c, h, pub, msg, sig) <==> Balanced(c, q, Challenge(c, h, sig[..32], pub, msg), sig)
  {
    forall r | Lifts(c, Number(pub), r)
      ensures r == q
    {
      LiftUnique(c, Number(pub), q, r);
    }
  }

  lemma SameX(c: Curve, q: Point, b: seq<byte>)
    requires Field(c) && On(c, q) && q.Affine? && |b| == 32
    ensures XOnly(q) == b <==> q.x == Number(b)
  {
    XOnlyBack(c, q);
    DigitsOfValue(b);
  }

  // ----- signing

  function XorBytes(a: seq<byte>, b: seq<byte>): (x: seq<byte>)
    requires |a| == |b|
    ensures |x| == |a|
  {
    seq(|a|, i requires 0 <= i < |a| => XorByte(a[i], b[i]))
  }

  method XorWith(a: seq<byte>, b: seq<byte>) returns (t: seq<byte>)
    requires |a| == |b|
    ensures t == XorBytes(a, b)
  {
    t := [];
    for i := 0 to |a|
      invariant t == XorBytes(a, b)[..i]
    {
      t := t + [XorByte(a[i], b[i])];
    }
  }

  // The secret nonce of a signature, from the normalized key.
  function NonceOf(c: Curve, h: Hash, d: seq<byte>, pub: seq<byte>, msg: seq<byte>, aux: seq<byte>): nat
    requires c.n > 0 && |d| == |h("BIP0340/aux", aux)|
  {
    Number(h("BIP0340/nonce", XorBytes(d, h("BIP0340/aux", aux)) + pub + msg)) % c.n
  }

  function Product(c: Curve, e: nat, d: nat): nat
    requires c.n > 0
  {
    e * d % c.n
  }

  function Response(c: Curve, k: nat, e: nat, d: nat): nat
    requires c.n > 0
  {
    (k + Product(c, e, d)) % c.n
  }

  lemma ProductOfMultiples(c: Curve, e: nat, d: nat)
    requires Valid(c)
    ensures Mul(c, Product(c, e, d), c.g) == Mul(c, e, Mul(c, d, c.g))
  {
    MulMod(c, e * d, c.g);
    MulMul(c, e, d, c.g);
  }

  // The response times G is k*G plus e times d*G.
  lemma SumOfMultiples(c: Curve, k: nat, e: nat, d: nat)
    requires Valid(c)
    ensures Mul(c, Response(c, k, e, d), c.g) == c.add(Mul(c, k, c.g), Mul(c, e, Mul(c, d, c.g)))
  {
    var m := Product(c, e, d);
    MulMod(c, k + m, c.g);
    MulAdd(c, k, m, c.g);
    ProductOfMultiples(c, e, d);
  }

  // Adding a point and taking it away again.
  lemma AddThenSubtract(c: Curve, q: Point, r: Point)
    requires Valid(c) && On(c, q) && On(c, r)
    ensures c.add(c.add(q, r), Neg(c, r)) == q
  {
    NegOn(c, r);
    assert Group(c, q, r, Neg(c, r)) && Group(c, r, q, q);
  }

  // The equation that a signer solves: s*G - e*P is the nonce point.
  lemma SolvedForS(c: Curve, d: nat, k: nat, e: nat, q: Point)
    requires Valid(c) && q == Mul(c, d, c.g)
    ensures c.add(Mul(c, Response(c, k, e, d), c.g), Neg(c, Mul(c, e, q))) == Mul(c, k, c.g)
  {
    SumOfMultiples(c, k, e, d);
    MulOn(c, k, c.g);
    MulOn(c, d, c.g);
    MulOn(c, e, q);
    AddThenSubtract(c, Mul(c, k, c.g), Mul(c, e, q));
  }

  // The signature that the even scalars of a key and of a nonce give.
  function Signature(c: Curve, h: Hash, d: nat, k: nat, msg: seq<byte>): (sig: seq<byte>)
    requires ScalarOk(c, d) && ScalarOk(c, k)
    ensures |sig| == 64
  {
    var rx, pub := XOnly(Mul(c, k, c.g)), XOnly(Mul(c, d, c.g));
    rx + LastDigits(Response(c, EvenScalar(c, k), Challenge(c, h, rx, pub, msg), EvenScalar(c, d)), 32)
  }

  lemma SignatureParts(c: Curve, h: Hash, d: nat, k: nat, msg: seq<byte>)
    requires Valid(c) && ScalarOk(c, d) && ScalarOk(c, k)
    ensures var sig, rx := Signature(c, h, d, k, msg), XOnly(Mul(c, k, c.g));
            && sig[..32] == rx
            && Number(sig[32..])
                 == Response(c, EvenScalar(c, k), Challenge(c, h, rx, XOnly(Mul(c, d, c.g)), msg), EvenScalar(c, d))
            && Number(sig[32..]) < c.n
  {
    var sig, rx := Signature(c, h, d, k, msg), XOnly(Mul(c, k, c.g));
    var s := Response(c, EvenScalar(c, k), Challenge(c, h, rx, XOnly(Mul(c, d, c.g)), msg), EvenScalar(c, d));
    ValueOfDigits(s, 32);
    assert sig[32..] == LastDigits(s, 32);
  }

  // Such a signature is accepted.
  lemma SignatureAccepted(c: Curve, h: Hash, d: nat, k: nat, msg: seq<byte>)
    requires Valid(c) && ScalarOk(c, d) && ScalarOk(c, k)
    ensures Accepts(c, h, XOnly(Mul(c, d, c.g)), msg, Signature(c, h, d, k, msg))
  {
    var sig, rx, pub := Signature(c, h, d, k, msg), XOnly(Mul(c, k, c.g)), XOnly(Mul(c, d, c.g));
    var e, q := Challenge(c, h, rx, pub, msg), Mul(c, EvenScalar(c, d), c.g);
    KeyLifts(c, d);
    KeyLifts(c, k);
    SignatureParts(c, h, d, k, msg);
    SolvedForS(c, EvenScalar(c, d), EvenScalar(c, k), e, q);
    assert Balanced(c, q, e, sig);
  }

  // The even scalar's point is the one that the public form names.
  lemma KeyLifts(c: Curve, d: nat)
    requires Valid(c) && ScalarOk(c, d)
    ensures Lifts(c, Number(XOnly(Mul(c, d, c.g))), Mul(c, EvenScalar(c, d), c.g))
  {
    PublicPoint(c, d);
    EvenScalarPoint(c, d);
    XOnlyBack(c, Mul(c, d, c.g));
  }

  // The nonce for a key with scalar d.
  ghost function SigningNonce(c: Curve, h: Hash, d: nat, msg: seq<byte>, aux: seq<byte>): nat
    requires Valid(c) && Hash32(h) && ScalarOk(c, d)
  {
    NonceOf(c, h, LastDigits(EvenScalar(c, d), 32), XOnly(Mul(c, d, c.g)), msg, aux)
  }

  // schnorr_sign_aux
  method Sign(c: Curve, h: Hash, secret: seq<byte>, msg: seq<byte>, aux: seq<byte>)
    returns (out: Option<(seq<byte>, seq<byte>)>)
    requires Valid(c) && Hash32(h) && |secret| == 32
    ensures out.Some? <==> ScalarOk(c, Number(secret)) && SigningNonce(c, h, Number(secret), msg, aux) != 0
    ensures out.Some? ==> out.value.0 == XOnly(Mul(c, Number(secret), c.g)) && |out.value.1| == 64
    ensures out.Some? ==> Accepts(c, h, out.value.0, msg, out.value.1)
    ensures out.Some? ==> out.value.1[..32] == XOnly(Mul(c, SigningNonce(c, h, Number(secret), msg, aux), c.g))
  {
    var normal := NormalizePriv(c, secret);
    if normal.None? {
      return None;
    }
    var dbytes, pk := normal.value.0, normal.value.1;
    DigitsOfValue(dbytes);
    var t := XorWith(dbytes, h("BIP0340/aux", aux));
    var k0 := Number(h("BIP0340/nonce", t + pk + msg)) % c.n;
    if k0 == 0 {
      return None;
    }
    var sig := Respond(c, h, Number(dbytes), Number(secret), k0, pk, msg);
    SignatureAccepted(c, h, Number(secret), k0, msg);
    out := Some((pk, sig));
  }

  // The second half of signing, from the normalized scalar d of the key with scalar d0.
  method Respond(c: Curve, h: Hash, d: nat, ghost d0: nat, k0: nat, pk: seq<byte>, msg: seq<byte>)
    returns (sig: seq<byte>)
    requires Valid(c) && ScalarOk(c, d0) && ScalarOk(c, k0) && d == EvenScalar(c, d0) && pk == XOnly(Mul(c, d0, c.g))
    ensures sig == Signature(c, h, d0, k0, msg)
  {
    PublicPoint(c, k0);
    var point := Mul(c, k0, c.g);
    var k := if point.y % 2 == 1 then c.n - k0 else k0;
    var rx := XOnly(point);
    var e := Challenge(c, h, rx, pk, msg);
    var ed := Product(c, e, d);
    var s := (k + ed) % c.n;
    sig := rx + LastDigits(s, 32);
  }

  // ----- what a verifier relies on

  // For a key, a message and a nonce point at most one signature is accepted.
  lemma AcceptedUnique(c: Curve, h: Hash, pub: seq<byte>, msg: seq<byte>, sig: seq<byte>, other: seq<byte>)
    requires Valid(c) && |sig| == |other| == 64 && sig[..32] == other[..32]
    requires Accepts(c, h, pub, msg, sig) && Accepts(c, h, pub, msg, other)
    ensures sig == other
  {
    var q :| Lifts(c, Number(pub), q) && Balanced(c, q, Challenge(c, h, sig[..32], pub, msg), sig);
    var e := Challenge(c, h, sig[..32], pub, msg);
    var s, t := Number(sig[32..]), Number(other[32..]);
    OnlyLift(c, h, pub, msg, other, q);
    MulOn(c, e, q);
    MulOn(c, s, c.g);
    MulOn(c, t, c.g);
    var sp, tp, ep := Mul(c, s, c.g), Mul(c, t, c.g), Mul(c, e, q);
    LiftUnique(c, Number(sig[..32]), c.add(sp, Neg(c, ep)), c.add(tp, Neg(c, ep)));
    CancelRight(c, sp, tp, ep);
    MulInjective(c, s, t, c.g);
    DigitsOfValue(sig[32..]);
    DigitsOfValue(other[32..]);
    assert sig == sig[..32] + sig[32..] && other == other[..32] + other[32..];
  }

  lemma CancelRight(c: Curve, q: Point, r: Point, z: Point)
    requires Valid(c) && On(c, q) && On(c, r) && On(c, z) && c.add(q, Neg(c, z)) == c.add(r, Neg(c, z))
    ensures q == r
  {
    NegOn(c, z);
    assert Group(c, z, z, z) && Group(c, Neg(c, z), z, z);
    assert Group(c, q, Neg(c, z), z) && Group(c, r, Neg(c, z), z);
  }

  // ----- shared secrets

  // out is the x coordinate of priv times the even point that the peer's key names.
  ghost predicate Shares(c: Curve, priv: seq<byte>, peer: seq<byte>, out: seq<byte>)
    requires Valid(c)
  {
    ScalarOk(c, Number(priv)) &&
    exists q :: Lifts(c, Number(peer), q) && out == XOnly(Mul(c, Number(priv), q))
  }

  // ecdh_xonly
  method Ecdh(c: Curve, priv: seq<byte>, peer: seq<byte>) returns (out: Option<seq<byte>>)
    requires Valid(c)
    ensures out.Some? ==> Shares(c, priv, peer, out.value)
    ensures out.None? ==> forall secret :: !Shares(c, priv, peer, secret)
  {
    var d := Number(priv);
    if !ScalarOk(c, d) {
      return None;
    }
    var lifted := LiftX(c, peer);
    if lifted.None? {
      return None;
    }
    var s := Mul(c, d, lifted.value);
    assert Order(c, lifted.value, d);
    if s == Infinity {
      return None;
    }
    out := Some(XOnly(s));
  }

  predicate PublicKeyOf(c: Curve, priv: seq<byte>, pub: seq<byte>) {
    ScalarOk(c, Number(priv)) && pub == XOnly(Mul(c, Number(priv), c.g))
  }

  lemma XOnlyOfNeg(c: Curve, q: Point)
    ensures XOnly(Neg(c, q)) == XOnly(q) && XOnly(EvenOf(c, q)) == XOnly(q)
  {
  }

  // The multiple of a lifted key has the x coordinate of the product of both scalars.
  lemma SharedX(c: Curve, a: nat, b: nat, q: Point)
    requires Valid(c) && ScalarOk(c, b) && Lifts(c, Number(XOnly(Mul(c, b, c.g))), q)
    ensures XOnly(Mul(c, a, q)) == XOnly(Mul(c, a * b, c.g))
  {
    var p := Mul(c, b, c.g);
    PublicPoint(c, b);
    XOnlyBack(c, p);
    EvenLifts(c, p);
    LiftUnique(c, p.x, q, EvenOf(c, p));
    MulOfNeg(c, a, p);
    MulMul(c, a, b, c.g);
    XOnlyOfNeg(c, Mul(c, a, p));
  }

  // The two sides of an exchange, each with its own key and the other's public key, get the same secret.
  lemma SharedAgrees(c: Curve, a: seq<byte>, b: seq<byte>, pa: seq<byte>, pb: seq<byte>, s: seq<byte>, t: seq<byte>)
    requires Valid(c) && PublicKeyOf(c, a, pa) && PublicKeyOf(c, b, pb)
    requires Shares(c, a, pb, s) && Shares(c, b, pa, t)
    ensures s == t
  {
    var q :| Lifts(c, Number(pb), q) && s == XOnly(Mul(c, Number(a), q));
    var r :| Lifts(c, Number(pa), r) && t == XOnly(Mul(c, Number(b), r));
    SharedX(c, Number(a), Number(b), q);
    SharedX(c, Number(b), Number(a), r);
    assert Number(a) * Number(b) == Number(b) * Number(a);
  }

  // Between two valid keys there always is one.
  lemma SharedExists(c: Curve, a: seq<byte>, b: seq<byte>, pb: seq<byte>)
    requires Valid(c) && ScalarOk(c, Number(a)) && PublicKeyOf(c, b, pb)
    ensures exists s :: Shares(c, a, pb, s)
  {
    var p := Mul(c, Number(b), c.g);
    PublicPoint(c, Number(b));
    XOnlyBack(c, p);
    EvenLifts(c, p);
    assert Shares(c, a, pb, XOnly(Mul(c, Number(a), EvenOf(c, p))));
  }
}
