/** What the search hashes, byte by byte, and the curve in full. */
module HashToCurveInputs {
  import opened Bytes
  import opened HashToCurve
  import opened Numbers

  // The bytes are the codes of these characters.
  predicate Spells(b: seq<byte>, s: string) {
    |b| == |s| && forall i | 0 <= i < |b| :: b[i] == s[i] as int
  }

  // The tag, the domain with its length in four bytes, the input with its length in eight.
  ghost predicate SeedMessage(m: seq<byte>, domain: seq<byte>, input: seq<byte>) {
    var n := 38 + |domain|;
    && |m| == n + 8 + |input| && Spells(m[..34], "ECAI-H2C-CURVE25519-AFFINE-V1:SEED")
    && Value(m[34..38], 256) == |domain| && m[38..n] == domain
    && Value(m[n..n + 8], 256) == |input| && m[n + 8..] == input
  }

  // The tag, the seed's hash, and the counter in four bytes.
  ghost predicate CandidateMessage(m: seq<byte>, seed: seq<byte>, c: nat) {
    && |m| == 107 && Spells(m[..39], "ECAI-H2C-CURVE25519-AFFINE-V1:CANDIDATE")
    && m[39..103] == seed && Value(m[103..], 256) == c
  }

  // The abscissa proposed at counter c: the first half of that hash, most significant byte first, modulo p.
  lemma CandidateWritten(sha512: seq<byte> -> seq<byte>, p: nat, domain: seq<byte>, input: seq<byte>, c: nat)
    returns (s: seq<byte>, m: seq<byte>)
    requires p > 0 && forall m :: |sha512(m)| == 64
    requires |domain| <= 256 && |input| <= 65536 && c < 4096
    ensures SeedMessage(s, domain, input) && CandidateMessage(m, sha512(s), c)
    ensures Candidate(sha512, p, domain, input, c) == Value(sha512(m)[..32], 256) % p
  {
    s := SeedInput(domain, input);
    m := Ascii(CANDIDATE_TAG) + sha512(s) + LastDigits(c, 4);
    SeedWritten(domain, input);
    TagSpelled(CANDIDATE_TAG);
    SmallNumbers();
    ValueOfDigits(c, 4);
    assert m[..39] == Ascii(CANDIDATE_TAG) && m[39..103] == sha512(s) && m[103..] == LastDigits(c, 4);
  }

  lemma SeedWritten(domain: seq<byte>, input: seq<byte>)
    requires |domain| <= 256 && |input| <= 65536
    ensures SeedMessage(SeedInput(domain, input), domain, input)
  {
    var m, n := SeedInput(domain, input), 38 + |domain|;
    TagSpelled(SEED_TAG);
    SmallNumbers();
    ValueOfDigits(|domain|, 4);
    ValueOfDigits(|input|, 8);
    FiveFields(Ascii(SEED_TAG), LastDigits(|domain|, 4), domain, LastDigits(|input|, 8), input, m);
  }

  lemma FiveFields(a: seq<byte>, b: seq<byte>, c: seq<byte>, d: seq<byte>, e: seq<byte>, m: seq<byte>)
    requires m == a + b + c + d + e && |a| == 34 && |b| == 4 && |d| == 8
    ensures var n := 38 + |c|;
            && |m| == n + 8 + |e| && m[..34] == a && m[34..38] == b && m[38..n] == c && m[n..n + 8] == d
            && m[n + 8..] == e
  {
  }

  lemma TagSpelled(tag: string)
    requires forall i | 0 <= i < |tag| :: tag[i] as int < 128
    ensures Spells(Ascii(tag), tag)
  {
  }

  lemma SmallNumbers()
    ensures Bound(4) > 65536 && Bound(8) > 65536
  {
    assert Bound(2) == 256 * Bound(1) && Bound(3) == 256 * Bound(2) && Bound(4) == 256 * Bound(3);
    assert Bound(5) == 256 * Bound(4) && Bound(6) == 256 * Bound(5) && Bound(7) == 256 * Bound(6);
    assert Bound(8) == 256 * Bound(7);
  }

  // No two seeds or counters are hashed as the same bytes.
  lemma CandidateMessageDetermines(m: seq<byte>, seed: seq<byte>, c: nat, seed': seq<byte>, c': nat)
    requires CandidateMessage(m, seed, c) && CandidateMessage(m, seed', c')
    ensures seed == seed' && c == c'
  {
  }

  // ----- the curve

  // The points found: an even ordinate with y^2 == x^3 + 486662*x^2 + x modulo p.
  lemma EvenPointWritten(p: nat, x: nat, y: nat) returns (k: int)
    requires p > 0 && IsEvenPoint(p, x, y)
    ensures x < p && y < p && y % 2 == 0 && y * y == x * x * x + 486662 * (x * x) + x + k * p
  {
    k :| Off(p, y * y, CurveRhs(x), k);
  }

  lemma OnCurveWritten(p: nat, x: nat, r: int, k: int)
    requires p > 0 && r * r == x * x * x + 486662 * (x * x) + x + k * p
    ensures OnCurve(p, x)
  {
    assert Off(p, Square(r), CurveRhs(x), k);
  }

  // The last byte of an export weighs most.
  lemma {:induction false} FromLeLast(b: seq<byte>, d: byte)
    ensures FromLe(b + [d]) == FromLe(b) + d * Power(256, |b|)
  {
    if b == [] {
      assert ([] + [d])[1..] == [];
    } else {
      FromLeLast(b[1..], d);
      assert (b + [d])[1..] == b[1..] + [d];
      Regroup(b[0], FromLe(b[1..]), d, Power(256, |b| - 1));
    }
  }

  lemma Regroup(a: nat, x: nat, d: nat, w: nat)
    ensures a + 256 * (x + d * w) == a + 256 * x + d * (w * 256)
  {
    assert d * (w * 256) == 256 * (d * w);
  }
}
