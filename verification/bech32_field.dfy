/** The checksum register as BIP-173 describes it: the remainder of a polynomial over the field of 32
    elements, six five-bit coefficients in one register. */
module Bech32Field {
  import opened Bech32

  // ----- the field: polynomials over two elements modulo a^5 + a^3 + 1

  // Times a.
  function Doubled(x: bv32): bv32 {
    Xor((x << 1) & 31, if x & 16 != 0 then 9 else 0)
  }

  function Part(t: bv32, mask: bv32, x: bv32): bv32 {
    if t & mask != 0 then x else 0
  }

  // The product of two field elements: the multiples of x by the powers of a that t holds.
  function Product(t: bv32, x: bv32): bv32 {
    Xor(Xor(Xor(Xor(
      Part(t, 1, x),
      Part(t, 2, Doubled(x))),
      Part(t, 4, Doubled(Doubled(x)))),
      Part(t, 8, Doubled(Doubled(Doubled(x))))),
      Part(t, 16, Doubled(Doubled(Doubled(Doubled(x))))))
  }

  // The coefficients of the generator x^6 + 29x^5 + 22x^4 + 20x^3 + 21x^2 + 29x + 18.
  function Generator(k: nat): bv32 {
    if k == 0 then 18 else if k == 1 then 29 else if k == 2 then 21 else if k == 3 then 20
    else if k == 4 then 22 else 29
  }

  // The coefficient of x^k in a register.
  function Coefficient(chk: bv32, k: nat): bv32 {
    if k == 0 then chk & 31
    else if k == 1 then (chk >> 5) & 31
    else if k == 2 then (chk >> 10) & 31
    else if k == 3 then (chk >> 15) & 31
    else if k == 4 then (chk >> 20) & 31
    else (chk >> 25) & 31
  }

  // ----- one step

  lemma Mix0(a: bv32, b: bv32)
    ensures (a ^ b) & 31 == (a & 31) ^ (b & 31)
  {
  }

  lemma Mix1(a: bv32, b: bv32)
    ensures ((a ^ b) >> 5) & 31 == ((a >> 5) & 31) ^ ((b >> 5) & 31)
  {
  }

  lemma Mix2(a: bv32, b: bv32)
    ensures ((a ^ b) >> 10) & 31 == ((a >> 10) & 31) ^ ((b >> 10) & 31)
  {
  }

  lemma Mix3(a: bv32, b: bv32)
    ensures ((a ^ b) >> 15) & 31 == ((a >> 15) & 31) ^ ((b >> 15) & 31)
  {
  }

  lemma Mix4(a: bv32, b: bv32)
    ensures ((a ^ b) >> 20) & 31 == ((a >> 20) & 31) ^ ((b >> 20) & 31)
  {
  }

  lemma Mix5(a: bv32, b: bv32)
    ensures ((a ^ b) >> 25) & 31 == ((a >> 25) & 31) ^ ((b >> 25) & 31)
  {
  }

  lemma CoefficientMixes(a: bv32, b: bv32, k: nat)
    ensures Coefficient(Xor(a, b), k) == Xor(Coefficient(a, k), Coefficient(b, k))
  {
    if k == 0 {
      Mix0(a, b);
    } else if k == 1 {
      Mix1(a, b);
    } else if k == 2 {
      Mix2(a, b);
    } else if k == 3 {
      Mix3(a, b);
    } else if k == 4 {
      Mix4(a, b);
    } else {
      Mix5(a, b);
    }
  }

  // Moving the register up moves each of its symbols to the next place.
  lemma Up0(chk: bv32)
    ensures Raised(chk) & 31 == 0
  {
  }

  lemma Up1(chk: bv32)
    ensures (Raised(chk) >> 5) & 31 == chk & 31
  {
  }

  lemma Up2(chk: bv32)
    ensures (Raised(chk) >> 10) & 31 == (chk >> 5) & 31
  {
  }

  lemma Up3(chk: bv32)
    ensures (Raised(chk) >> 15) & 31 == (chk >> 10) & 31
  {
  }

  lemma Up4(chk: bv32)
    ensures (Raised(chk) >> 20) & 31 == (chk >> 15) & 31
  {
  }

  lemma Up5(chk: bv32)
    ensures (Raised(chk) >> 25) & 31 == (chk >> 20) & 31
  {
  }

  lemma RaisedAt(chk: bv32, k: nat)
    requires k < 6
    ensures Coefficient(Raised(chk), k) == if k == 0 then 0 else Coefficient(chk, k - 1)
  {
    if k == 0 {
      Up0(chk);
    } else if k == 1 {
      Up1(chk);
    } else if k == 2 {
      Up2(chk);
    } else if k == 3 {
      Up3(chk);
    } else if k == 4 {
      Up4(chk);
    } else {
      Up5(chk);
    }
  }

  // The five constants are the generator times the powers of a.
  lemma ConstantsAt(k: nat)
    requires k < 6
    ensures var g := Generator(k);
            && Coefficient(0x3b6a57b2, k) == g
            && Coefficient(0x26508e6d, k) == Doubled(g)
            && Coefficient(0x1ea119fa, k) == Doubled(Doubled(g))
            && Coefficient(0x3d4233dd, k) == Doubled(Doubled(Doubled(g)))
            && Coefficient(0x2a1462b3, k) == Doubled(Doubled(Doubled(Doubled(g))))
  {
  }

  lemma TopBits(chk: bv32)
    requires chk < 0x40000000
    ensures var t := Coefficient(chk, 5);
            && Has(chk, 0x2000000) == (t & 1 != 0) && Has(chk, 0x4000000) == (t & 2 != 0)
            && Has(chk, 0x8000000) == (t & 4 != 0) && Has(chk, 0x10000000) == (t & 8 != 0)
            && Has(chk, 0x20000000) == (t & 16 != 0)
  {
  }

  // What a gate adds to coefficient k, if its bit of the top coefficient t is set.
  lemma GateAt(chk: bv32, mask: bv32, g: bv32, k: nat, t: bv32, bit: bv32, x: bv32)
    requires Has(chk, mask) == (t & bit != 0) && Coefficient(g, k) == x
    ensures Coefficient(Gate(chk, mask, g), k) == Part(t, bit, x)
  {
  }

  // Coefficient by coefficient, whatever the six summands are.
  lemma SumAt(s: bv32, g0: bv32, g1: bv32, g2: bv32, g3: bv32, g4: bv32, k: nat,
              x: bv32, a: bv32, b: bv32, c: bv32, d: bv32, e: bv32)
    requires Coefficient(s, k) == x && Coefficient(g0, k) == a && Coefficient(g1, k) == b
    requires Coefficient(g2, k) == c && Coefficient(g3, k) == d && Coefficient(g4, k) == e
    ensures Coefficient(Xor(Xor(Xor(Xor(Xor(s, g0), g1), g2), g3), g4), k) == Xor(x, Xor(Xor(Xor(Xor(a, b), c), d), e))
  {
    CoefficientMixes(s, g0, k);
    CoefficientMixes(Xor(s, g0), g1, k);
    CoefficientMixes(Xor(Xor(s, g0), g1), g2, k);
    CoefficientMixes(Xor(Xor(Xor(s, g0), g1), g2), g3, k);
    CoefficientMixes(Xor(Xor(Xor(Xor(s, g0), g1), g2), g3), g4, k);
    FiveSums(x, a, b, c, d, e);
  }

  lemma FiveSums(x: bv32, a: bv32, b: bv32, c: bv32, d: bv32, e: bv32)
    ensures Xor(Xor(Xor(Xor(Xor(x, a), b), c), d), e) == Xor(x, Xor(Xor(Xor(Xor(a, b), c), d), e))
  {
    Associative(x, a, b);
    Associative(x, Xor(a, b), c);
    Associative(x, Xor(Xor(a, b), c), d);
    Associative(x, Xor(Xor(Xor(a, b), c), d), e);
  }

  lemma Gate0At(chk: bv32, k: nat)
    requires chk < 0x40000000 && k < 6
    ensures Coefficient(Gate(chk, 0x2000000, 0x3b6a57b2), k)
         == Part(Coefficient(chk, 5), 1, Generator(k))
  {
    ConstantsAt(k);
    TopBits(chk);
    GateAt(chk, 0x2000000, 0x3b6a57b2, k, Coefficient(chk, 5), 1, Generator(k));
  }

  lemma Gate1At(chk: bv32, k: nat)
    requires chk < 0x40000000 && k < 6
    ensures Coefficient(Gate(chk, 0x4000000, 0x26508e6d), k)
         == Part(Coefficient(chk, 5), 2, Doubled(Generator(k)))
  {
    ConstantsAt(k);
    TopBits(chk);
    GateAt(chk, 0x4000000, 0x26508e6d, k, Coefficient(chk, 5), 2, Doubled(Generator(k)));
  }

  lemma Gate2At(chk: bv32, k: nat)
    requires chk < 0x40000000 && k < 6
    ensures Coefficient(Gate(chk, 0x8000000, 0x1ea119fa), k)
         == Part(Coefficient(chk, 5), 4, Doubled(Doubled(Generator(k))))
  {
    ConstantsAt(k);
    TopBits(chk);
    GateAt(chk, 0x8000000, 0x1ea119fa, k, Coefficient(chk, 5), 4, Doubled(Doubled(Generator(k))));
  }

  lemma Gate3At(chk: bv32, k: nat)
    requires chk < 0x40000000 && k < 6
    ensures Coefficient(Gate(chk, 0x10000000, 0x3d4233dd), k)
         == Part(Coefficient(chk, 5), 8, Doubled(Doubled(Doubled(Generator(k)))))
  {
    ConstantsAt(k);
    TopBits(chk);
    GateAt(chk, 0x10000000, 0x3d4233dd, k, Coefficient(chk, 5), 8, Doubled(Doubled(Doubled(Generator(k)))));
  }

  lemma Gate4At(chk: bv32, k: nat)
    requires chk < 0x40000000 && k < 6
    ensures Coefficient(Gate(chk, 0x20000000, 0x2a1462b3), k)
         == Part(Coefficient(chk, 5), 16, Doubled(Doubled(Doubled(Doubled(Generator(k))))))
  {
    ConstantsAt(k);
    TopBits(chk);
    GateAt(chk, 0x20000000, 0x2a1462b3, k, Coefficient(chk, 5), 16, Doubled(Doubled(Doubled(Doubled(Generator(k))))));
  }

  // Turning the register multiplies by x and takes away the top coefficient times the generator.
  lemma TurnDivides(chk: bv32, k: nat)
    requires chk < 0x40000000 && k < 6
    ensures Coefficient(Turn(chk), k)
         == Xor(if k == 0 then 0 else Coefficient(chk, k - 1), Product(Coefficient(chk, 5), Generator(k)))
  {
    RaisedAt(chk, k);
    Gate0At(chk, k);
    Gate1At(chk, k);
    Gate2At(chk, k);
    Gate3At(chk, k);
    Gate4At(chk, k);
    var g, t := Generator(k), Coefficient(chk, 5);
    SumAt(Raised(chk), Gate(chk, 0x2000000, 0x3b6a57b2), Gate(chk, 0x4000000, 0x26508e6d),
          Gate(chk, 0x8000000, 0x1ea119fa), Gate(chk, 0x10000000, 0x3d4233dd), Gate(chk, 0x20000000, 0x2a1462b3), k,
          Coefficient(Raised(chk), k), Part(t, 1, g), Part(t, 2, Doubled(g)), Part(t, 4, Doubled(Doubled(g))),
          Part(t, 8, Doubled(Doubled(Doubled(g)))), Part(t, 16, Doubled(Doubled(Doubled(Doubled(g))))));
  }

  // A step is the polynomial times x plus the symbol, modulo the generator.
  lemma StepDivides(chk: bv32, v: bv32, k: nat)
    requires chk < 0x40000000 && v < 32 && k < 6
    ensures Coefficient(Step(chk, v), k)
         == Xor(if k == 0 then v else Coefficient(chk, k - 1), Product(Coefficient(chk, 5), Generator(k)))
  {
    TurnDivides(chk, k);
    CoefficientMixes(Turn(chk), v, k);
    SymbolAt(v, k);
    Swapped(if k == 0 then 0 else Coefficient(chk, k - 1), Product(Coefficient(chk, 5), Generator(k)),
            if k == 0 then v else 0);
  }

  lemma SymbolAt(v: bv32, k: nat)
    requires v < 32
    ensures Coefficient(v, k) == if k == 0 then v else 0
  {
  }

  lemma Swapped(x: bv32, y: bv32, v: bv32)
    ensures Xor(Xor(x, y), v) == Xor(Xor(x, v), y) && Xor(x, 0) == x && Xor(0, v) == v
  {
    Associative(x, y, v);
    Associative(x, v, y);
    Commutative(y, v);
    ZeroMixes(x);
    ZeroMixes(v);
  }

  lemma ZeroMixes(x: bv32)
    ensures Xor(x, 0) == x && Xor(0, x) == x
  {
  }

  // ----- whole words

  // The coefficient of x^k after one more symbol.
  function NextAt(c: seq<bv32>, x: bv32, k: nat): bv32
    requires |c| == 6 && k < 6
  {
    Xor(if k == 0 then x else c[k - 1], Product(c[5], Generator(k)))
  }

  // The remainder of a word, lowest coefficient first: BIP-173 reads a leading 1 in front of it.
  function Remainder(v: seq<bv8>): (c: seq<bv32>)
    ensures |c| == 6
  {
    if v == [] then [1, 0, 0, 0, 0, 0]
    else
      var c, x := Remainder(v[..|v| - 1]), Widen(v[|v| - 1]);
      seq(6, k requires 0 <= k < 6 => NextAt(c, x, k))
  }

  // The words that BIP-173 accepts.
  predicate Closed(v: seq<bv8>) {
    Remainder(v) == [1, 0, 0, 0, 0, 0]
  }

  lemma {:induction false} RegisterIsRemainder(v: seq<bv8>)
    requires Word(v)
    ensures Register(v) < 0x40000000
    ensures forall k | 0 <= k < 6 :: Coefficient(Register(v), k) == Remainder(v)[k]
    decreases |v|
  {
    if v == [] {
      assert Wide(v) == [];
      StartsAtOne();
    } else {
      var head := v[..|v| - 1];
      RegisterIsRemainder(head);
      RegisterStep(v);
      WidenSmall(v[|v| - 1]);
      NextRemainder(Register(head), Widen(v[|v| - 1]), Remainder(head));
    }
  }

  lemma RegisterStep(v: seq<bv8>)
    requires v != []
    ensures Register(v) == Step(Register(v[..|v| - 1]), Widen(v[|v| - 1]))
  {
    assert Wide(v)[..|v| - 1] == Wide(v[..|v| - 1]);
  }

  lemma NextRemainder(chk: bv32, x: bv32, c: seq<bv32>)
    requires chk < 0x40000000 && x < 32 && |c| == 6 && forall k | 0 <= k < 6 :: Coefficient(chk, k) == c[k]
    ensures Step(chk, x) < 0x40000000
    ensures forall k | 0 <= k < 6 :: Coefficient(Step(chk, x), k) == NextAt(c, x, k)
  {
    StepFits(chk, x);
    forall k | 0 <= k < 6
      ensures Coefficient(Step(chk, x), k) == NextAt(c, x, k)
    {
      StepDivides(chk, x, k);
    }
  }

  // They are the words that bring the register to 1.
  lemma ClosedIsOne(v: seq<bv8>)
    requires Word(v)
    ensures Register(v) == 1 ==> Closed(v)
  {
    RegisterIsRemainder(v);
    StartsAtOne();
  }

  lemma StartsAtOne()
    ensures Coefficient(1, 0) == 1
    ensures forall k | 1 <= k < 6 :: Coefficient(1, k) == 0
  {
  }

  lemma WidenSmall(x: bv8)
    requires x < 32
    ensures Widen(x) < 32
  {
  }
}
