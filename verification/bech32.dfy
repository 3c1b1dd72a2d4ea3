/** The checksum of BIP-173: its register, the six symbols that close a word, and what they detect. */
module Bech32 {
  import opened LinearCode

  // ----- exclusive or on registers

  function Xor(a: bv32, b: bv32): bv32 {
    a ^ b
  }

  lemma Associative(a: bv32, b: bv32, c: bv32)
    ensures Xor(Xor(a, b), c) == Xor(a, Xor(b, c))
  {
  }

  lemma Commutative(a: bv32, b: bv32)
    ensures Xor(a, b) == Xor(b, a)
  {
  }

  lemma Regroup(a: bv32, b: bv32, c: bv32)
    ensures Xor(Xor(a, b), c) == Xor(Xor(a, c), b)
  {
    Associative(a, b, c);
    Commutative(b, c);
    Associative(a, c, b);
  }

  lemma Interchange(a: bv32, b: bv32, c: bv32, d: bv32)
    ensures Xor(Xor(a, b), Xor(c, d)) == Xor(Xor(a, c), Xor(b, d))
  {
    Associative(Xor(a, b), c, d);
    Regroup(a, b, c);
    Associative(Xor(a, c), b, d);
  }

  lemma Neutral(a: bv32)
    ensures Xor(a, 0) == a && Xor(0, a) == a && Xor(a, a) == 0
  {
  }

  lemma Toggle(a: bv32, b: bv32)
    ensures Xor(a, Xor(a, b)) == b
  {
    Associative(a, a, b);
    Neutral(a);
    Neutral(b);
  }

  lemma Cancel(a: bv32, b: bv32)
    ensures Xor(a, b) == 0 <==> a == b
  {
    Toggle(a, b);
    Neutral(a);
  }

  // ----- the checksum register

  const G: seq<bv32> := [0x3b6a57b2, 0x26508e6d, 0x1ea119fa, 0x3d4233dd, 0x2a1462b3]

  predicate Has(chk: bv32, mask: bv32) {
    chk & mask != 0
  }

  // The generator g, if the register has the bit of mask.
  function Gate(chk: bv32, mask: bv32, g: bv32): bv32 {
    if Has(chk, mask) then g else 0
  }

  // The register moved up by one symbol.
  function Raised(chk: bv32): bv32 {
    (chk & 0x1ffffff) << 5
  }

  // The five bits of the top symbol, each reduced by its generator.
  function Reduced(start: bv32, chk: bv32): bv32 {
    Xor(Xor(Xor(Xor(Xor(start,
      Gate(chk, 0x2000000, 0x3b6a57b2)),
      Gate(chk, 0x4000000, 0x26508e6d)),
      Gate(chk, 0x8000000, 0x1ea119fa)),
      Gate(chk, 0x10000000, 0x3d4233dd)),
      Gate(chk, 0x20000000, 0x2a1462b3))
  }

  // The register moved up by one symbol and reduced.
  function Turn(chk: bv32): bv32 {
    Reduced(Raised(chk), chk)
  }

  lemma RaisedLinear(a: bv32, b: bv32)
    ensures Raised(Xor(a, b)) == Xor(Raised(a), Raised(b))
  {
  }

  predicate OneBit(mask: bv32) {
    mask == 0x2000000 || mask == 0x4000000 || mask == 0x8000000 || mask == 0x10000000 || mask == 0x20000000
  }

  lemma BitLinear(a: bv32, b: bv32, mask: bv32)
    requires OneBit(mask)
    ensures Has(Xor(a, b), mask) == (Has(a, mask) != Has(b, mask))
  {
  }

  lemma GateLinear(a: bv32, b: bv32, mask: bv32, g: bv32)
    requires OneBit(mask)
    ensures Gate(Xor(a, b), mask, g) == Xor(Gate(a, mask, g), Gate(b, mask, g))
  {
    BitLinear(a, b, mask);
    Neutral(g);
    Neutral(0);
  }

  lemma GateStep(a: bv32, b: bv32, mask: bv32, g: bv32, s: bv32, t: bv32)
    requires OneBit(mask)
    ensures Xor(Xor(s, t), Gate(Xor(a, b), mask, g)) == Xor(Xor(s, Gate(a, mask, g)), Xor(t, Gate(b, mask, g)))
  {
    GateLinear(a, b, mask, g);
    Interchange(s, t, Gate(a, mask, g), Gate(b, mask, g));
  }

  // Turning the register is linear over exclusive or.
  lemma TurnLinear(a: bv32, b: bv32)
    ensures Turn(Xor(a, b)) == Xor(Turn(a), Turn(b))
  {
    RaisedLinear(a, b);
    var s0, t0 := Raised(a), Raised(b);
    GateStep(a, b, 0x2000000, 0x3b6a57b2, s0, t0);
    var s1, t1 := Xor(s0, Gate(a, 0x2000000, 0x3b6a57b2)), Xor(t0, Gate(b, 0x2000000, 0x3b6a57b2));
    GateStep(a, b, 0x4000000, 0x26508e6d, s1, t1);
    var s2, t2 := Xor(s1, Gate(a, 0x4000000, 0x26508e6d)), Xor(t1, Gate(b, 0x4000000, 0x26508e6d));
    GateStep(a, b, 0x8000000, 0x1ea119fa, s2, t2);
    var s3, t3 := Xor(s2, Gate(a, 0x8000000, 0x1ea119fa)), Xor(t2, Gate(b, 0x8000000, 0x1ea119fa));
    GateStep(a, b, 0x10000000, 0x3d4233dd, s3, t3);
    var s4, t4 := Xor(s3, Gate(a, 0x10000000, 0x3d4233dd)), Xor(t3, Gate(b, 0x10000000, 0x3d4233dd));
    GateStep(a, b, 0x20000000, 0x2a1462b3, s4, t4);
  }

  // A register below 2^25 is only moved up.
  lemma TurnSmall(a: bv32)
    requires a < 0x2000000
    ensures Turn(a) == a << 5
  {
    Small(a);
    Neutral(a << 5);
  }

  lemma Small(a: bv32)
    requires a < 0x2000000
    ensures Raised(a) == a << 5
    ensures !Has(a, 0x2000000) && !Has(a, 0x4000000) && !Has(a, 0x8000000) && !Has(a, 0x10000000) && !Has(a, 0x20000000)
  {
  }

  // No choice of generators clears the low five bits.
  lemma Independent(x: bv32, g0: bv32, g1: bv32, g2: bv32, g3: bv32, g4: bv32)
    requires x & 31 == 0 && Xor(Xor(Xor(Xor(Xor(x, g0), g1), g2), g3), g4) == 0
    requires (g0 == 0 || g0 == 0x3b6a57b2) && (g1 == 0 || g1 == 0x26508e6d) && (g2 == 0 || g2 == 0x1ea119fa)
    requires (g3 == 0 || g3 == 0x3d4233dd) && (g4 == 0 || g4 == 0x2a1462b3)
    ensures g0 == g1 == g2 == g3 == g4 == 0 && x == 0
  {
  }

  lemma RaisedClear(a: bv32)
    ensures Raised(a) & 31 == 0
  {
  }

  lemma GateChoice(a: bv32, mask: bv32, g: bv32)
    ensures Gate(a, mask, g) == 0 || Gate(a, mask, g) == g
    ensures g != 0 && Gate(a, mask, g) == 0 ==> !Has(a, mask)
  {
  }

  // The register holds 30 bits, and turning it loses none of them.
  lemma TurnInjective(a: bv32)
    requires a < 0x40000000 && Turn(a) == 0
    ensures a == 0
  {
    RaisedClear(a);
    GateChoice(a, 0x2000000, 0x3b6a57b2);
    GateChoice(a, 0x4000000, 0x26508e6d);
    GateChoice(a, 0x8000000, 0x1ea119fa);
    GateChoice(a, 0x10000000, 0x3d4233dd);
    GateChoice(a, 0x20000000, 0x2a1462b3);
    Independent(Raised(a), Gate(a, 0x2000000, 0x3b6a57b2), Gate(a, 0x4000000, 0x26508e6d),
      Gate(a, 0x8000000, 0x1ea119fa), Gate(a, 0x10000000, 0x3d4233dd), Gate(a, 0x20000000, 0x2a1462b3));
    Empty(a);
  }

  lemma Empty(a: bv32)
    requires a < 0x40000000 && Raised(a) == 0
    requires !Has(a, 0x2000000) && !Has(a, 0x4000000) && !Has(a, 0x8000000) && !Has(a, 0x10000000) && !Has(a, 0x20000000)
    ensures a == 0
  {
  }

  lemma TurnFits(a: bv32)
    ensures Turn(a) < 0x40000000
  {
  }

  // ----- the register as a linear code

  function Step(chk: bv32, v: bv32): bv32 {
    Xor(Turn(chk), v)
  }

  function Limit(k: nat): bv32 {
    if k == 0 then 1
    else if k == 1 then 0x20
    else if k == 2 then 0x400
    else if k == 3 then 0x8000
    else if k == 4 then 0x100000
    else if k == 5 then 0x2000000
    else 0x40000000
  }

  // a fits in k five-bit symbols.
  predicate Below(k: nat, a: bv32) {
    a < Limit(k)
  }

  const POLYMOD: Code<bv32> := Code(Step, Xor, 0, Below)

  lemma StepLinear(a: bv32, b: bv32, x: bv32, y: bv32)
    ensures Step(Xor(a, b), Xor(x, y)) == Xor(Step(a, x), Step(b, y))
  {
    TurnLinear(a, b);
    Interchange(Turn(a), Turn(b), x, y);
  }

  lemma SymbolsMix(a: bv32, b: bv32)
    requires a < 0x20 && b < 0x20
    ensures Xor(a, b) < 0x20
  {
  }

  lemma StepShifts(k: nat, a: bv32, x: bv32)
    requires k < SIZE && a < Limit(k) && x < 0x20
    ensures Step(a, x) < Limit(k + 1)
    ensures Step(a, x) == 0 ==> a == 0 && x == 0
  {
    LimitRises(k);
    TurnSmall(a);
    ShiftedFits(k, a, x);
  }

  lemma LimitRises(k: nat)
    requires k < SIZE
    ensures Limit(k) <= 0x2000000
  {
  }

  lemma ShiftedFits(k: nat, a: bv32, x: bv32)
    requires k < SIZE && a < Limit(k) && x < 0x20
    ensures Xor(a << 5, x) < Limit(k + 1)
    ensures Xor(a << 5, x) == 0 ==> a == 0 && x == 0
  {
  }

  lemma StepFits(a: bv32, x: bv32)
    requires x < 0x20
    ensures Step(a, x) < 0x40000000
  {
    TurnFits(a);
    Fits30(Turn(a), x);
  }

  lemma Fits30(a: bv32, b: bv32)
    requires a < 0x40000000 && b < 0x40000000
    ensures Xor(a, b) < 0x40000000
  {
  }

  lemma StepInjective(a: bv32, b: bv32, x: bv32)
    requires a < 0x40000000 && b < 0x40000000 && Step(a, x) == Step(b, x)
    ensures a == b
  {
    Undo(Turn(a), Turn(b), x);
    Cancel(Turn(a), Turn(b));
    TurnLinear(a, b);
    Fits30(a, b);
    TurnInjective(Xor(a, b));
    Cancel(a, b);
  }

  lemma Undo(a: bv32, b: bv32, c: bv32)
    requires Xor(a, c) == Xor(b, c)
    ensures a == b
  {
  }

  lemma PolymodLinear()
    ensures Linear(POLYMOD)
  {
    forall a, b, x, y
      ensures Commutes(POLYMOD, a, b, x, y)
    {
      StepLinear(a, b, x, y);
    }
    forall a, b
      ensures Cancels(POLYMOD, a, b)
    {
      Neutral(a);
      Cancel(a, b);
      Toggle(a, b);
      if a < 0x20 && b < 0x20 {
        SymbolsMix(a, b);
      }
    }
  }

  lemma PolymodShifting()
    ensures Shifting(POLYMOD)
  {
    forall k: nat, a, x | k < SIZE && Below(k, a) && Below(1, x)
      ensures Below(k + 1, Step(a, x)) && (Step(a, x) == 0 ==> a == 0 && x == 0)
    {
      StepShifts(k, a, x);
    }
  }

  lemma PolymodInjective()
    ensures Injective(POLYMOD)
  {
    forall a, x | Below(SIZE, a) && Below(1, x)
      ensures Below(SIZE, Step(a, x))
    {
      StepFits(a, x);
    }
    forall a, b, x | Below(SIZE, a) && Below(SIZE, b) && Below(1, x) && Step(a, x) == Step(b, x)
      ensures a == b
    {
      StepInjective(a, b, x);
    }
  }

  // The register of BIP-173 detects every change confined to six consecutive symbols.
  lemma PolymodLawful()
    ensures Lawful(POLYMOD)
  {
    PolymodLinear();
    PolymodShifting();
    PolymodInjective();
  }

  // ----- the checksum of a word of bytes

  function Widen(x: bv8): bv32 {
    x as bv32
  }

  function Wide(v: seq<bv8>): (w: seq<bv32>)
    ensures |w| == |v|
  {
    seq(|v|, i requires 0 <= i < |v| => Widen(v[i]))
  }

  predicate Word(v: seq<bv8>) {
    forall i | 0 <= i < |v| :: v[i] < 32
  }

  // The register that a code leaves on a word.
  function RegisterOf(c: Code<bv32>, v: seq<bv8>): bv32 {
    Run(c, 1, Wide(v))
  }

  function Register(v: seq<bv8>): bv32 {
    RegisterOf(POLYMOD, v)
  }

  method Polymod(v: array<bv8>, n: nat) returns (chk: bv32)
    requires n <= v.Length
    ensures chk == Register(v[..n])
  {
    chk := 1;
    for i := 0 to n
      invariant chk == Register(v[..i])
    {
      chk := Fold(chk, v[i]);
      assert Wide(v[..i + 1])[..i] == Wide(v[..i]);
    }
  }

  // The generators selected by the low n bits of top, folded into start.
  function Selected(start: bv32, top: bv32, n: nat): bv32
    requires n <= |G|
  {
    if n == 0 then start
    else Xor(Selected(start, top, n - 1), if (top >> (n - 1)) & 1 == 1 then G[n - 1] else 0)
  }

  // The inner loop.
  method Select(start: bv32, top: bv32) returns (chk: bv32)
    ensures chk == Selected(start, top, 5)
  {
    chk := start;
    for j := 0 to 5
      invariant chk == Selected(start, top, j)
    {
      Neutral(chk);
      if (top >> j) & 1 == 1 {
        chk := Xor(chk, G[j]);
      }
    }
  }

  // One round of the outer loop.
  method Fold(chk0: bv32, v: bv8) returns (chk: bv32)
    ensures chk == Step(chk0, Widen(v))
  {
    chk := Select(((chk0 & 0x1ffffff) << 5) ^ Widen(v), chk0 >> 25);
    SelectedAll(Xor(Raised(chk0), Widen(v)), chk0);
    Late(Raised(chk0), Widen(v), chk0);
  }

  lemma SelectedAll(start: bv32, chk: bv32)
    ensures Selected(start, chk >> 25, 5) == Reduced(start, chk)
  {
    var top := chk >> 25;
    assert Selected(start, top, 1) == Xor(start, Gate(chk, 0x2000000, 0x3b6a57b2));
    assert Selected(start, top, 2) == Xor(Selected(start, top, 1), Gate(chk, 0x4000000, 0x26508e6d));
    assert Selected(start, top, 3) == Xor(Selected(start, top, 2), Gate(chk, 0x8000000, 0x1ea119fa));
    assert Selected(start, top, 4) == Xor(Selected(start, top, 3), Gate(chk, 0x10000000, 0x3d4233dd));
    assert Selected(start, top, 5) == Xor(Selected(start, top, 4), Gate(chk, 0x20000000, 0x2a1462b3));
  }

  // A symbol may be added before the generators or after them.
  lemma Late(start: bv32, v: bv32, chk: bv32)
    ensures Reduced(Xor(start, v), chk) == Xor(Reduced(start, chk), v)
  {
    var s1 := Xor(start, Gate(chk, 0x2000000, 0x3b6a57b2));
    var s2 := Xor(s1, Gate(chk, 0x4000000, 0x26508e6d));
    var s3 := Xor(s2, Gate(chk, 0x8000000, 0x1ea119fa));
    var s4 := Xor(s3, Gate(chk, 0x10000000, 0x3d4233dd));
    Regroup(start, v, Gate(chk, 0x2000000, 0x3b6a57b2));
    Regroup(s1, v, Gate(chk, 0x4000000, 0x26508e6d));
    Regroup(s2, v, Gate(chk, 0x8000000, 0x1ea119fa));
    Regroup(s3, v, Gate(chk, 0x10000000, 0x3d4233dd));
    Regroup(s4, v, Gate(chk, 0x20000000, 0x2a1462b3));
  }

  // ----- the six symbols appended

  const ZEROS: seq<bv8> := [0, 0, 0, 0, 0, 0]

  // The symbol of m that begins at a bit.
  function Cut(m: bv32, shift: nat): (c: bv8)
    requires shift < 32
    ensures c < 32
  {
    ((m >> shift) & 31) as bv8
  }

  function Parts(m: bv32): (c: seq<bv8>)
    ensures |c| == 6 && Word(c)
  {
    [Cut(m, 25), Cut(m, 20), Cut(m, 15), Cut(m, 10), Cut(m, 5), Cut(m, 0)]
  }

  function ChecksumOf(c: Code<bv32>, v: seq<bv8>): (w: seq<bv8>)
    ensures |w| == 6 && Word(w)
  {
    Parts(RegisterOf(c, v + ZEROS) ^ 1)
  }

  function Checksum(v: seq<bv8>): (c: seq<bv8>)
    ensures |c| == 6 && Word(c)
  {
    ChecksumOf(POLYMOD, v)
  }

  // What the symbols of bytes mean to a code.
  ghost predicate Reads(c: Code<bv32>) {
    Lawful(c) && TakesOne(c) && TakesSymbols(c) && ShiftsIn(c)
  }

  ghost predicate TakesOne(c: Code<bv32>) {
    && c.zero == 0 && c.below(SIZE, 1)
    && (forall m :: c.mix(m, 1) == m ^ 1)
    && (forall m :: c.below(SIZE, m) ==> c.below(SIZE, m ^ 1))
  }

  ghost predicate TakesSymbols(c: Code<bv32>) {
    forall x: bv8 | x < 32 :: c.below(1, Widen(x))
  }

  ghost predicate ShiftsIn(c: Code<bv32>) {
    forall m :: c.below(SIZE, m) ==> Shifted(c, Wide(Parts(m))) == m
  }

  lemma WideConcat(v: seq<bv8>, w: seq<bv8>)
    ensures Wide(v + w) == Wide(v) + Wide(w)
  {
  }

  lemma WideSymbols(c: Code<bv32>, v: seq<bv8>)
    requires Reads(c) && Word(v)
    ensures Symbols(c, Wide(v))
  {
  }

  lemma WideZeros(c: Code<bv32>)
    requires Reads(c)
    ensures Zeros(c, Wide(ZEROS))
  {
    assert Widen(0) == 0;
  }

  lemma WideInjective(v: seq<bv8>, w: seq<bv8>)
    requires Wide(v) == Wide(w)
    ensures v == w
  {
    forall i | 0 <= i < |v|
      ensures v[i] == w[i]
    {
      assert Wide(v)[i] == Wide(w)[i];
      Narrow(v[i], w[i]);
    }
  }

  lemma Narrow(x: bv8, y: bv8)
    requires Widen(x) == Widen(y)
    ensures x == y
  {
  }

  lemma RegisterFits(c: Code<bv32>, v: seq<bv8>)
    requires Reads(c) && Word(v)
    ensures c.below(SIZE, RegisterOf(c, v))
  {
    WideSymbols(c, v);
    RunFits(c, 1, Wide(v));
  }

  lemma CodeCloses(c: Code<bv32>, v: seq<bv8>)
    requires Reads(c) && Word(v)
    ensures RegisterOf(c, v + ChecksumOf(c, v)) == 1
  {
    var w := ChecksumOf(c, v);
    RegisterFits(c, v + ZEROS);
    WideConcat(v, w);
    WideConcat(v, ZEROS);
    WideZeros(c);
    Closes(c, 1, 1, Wide(v), Wide(ZEROS), Wide(w));
  }

  lemma CodeUnique(c: Code<bv32>, v: seq<bv8>, x: seq<bv8>, y: seq<bv8>)
    requires Reads(c) && Word(v) && Word(x) && Word(y) && |x| == |y| == 6 && RegisterOf(c, v + x) == RegisterOf(c, v + y)
    ensures x == y
  {
    WideSymbols(c, v);
    WideSymbols(c, x);
    WideSymbols(c, y);
    WideConcat(v, x);
    WideConcat(v, y);
    ClosingUnique(c, 1, Wide(v), Wide(x), Wide(y));
    WideInjective(x, y);
  }

  lemma CodeDetects(c: Code<bv32>, p: seq<bv8>, x: seq<bv8>, y: seq<bv8>, s: seq<bv8>)
    requires Reads(c) && Word(p) && Word(x) && Word(y) && Word(s) && |x| == |y| == 6
    requires RegisterOf(c, p + x + s) == RegisterOf(c, p + y + s)
    ensures x == y
  {
    WideSymbols(c, p);
    WideSymbols(c, x);
    WideSymbols(c, y);
    WideSymbols(c, s);
    WideConcat(p, x);
    WideConcat(p, y);
    WideConcat(p + x, s);
    WideConcat(p + y, s);
    if Wide(x) != Wide(y) {
      BurstDetected(c, 1, Wide(p), Wide(x), Wide(y), Wide(s));
    }
    WideInjective(x, y);
  }

  // v and w agree outside the six places from k.
  predicate Near(v: seq<bv8>, w: seq<bv8>, k: nat) {
    |v| == |w| && k + 6 <= |v| && forall i | 0 <= i < |v| && !(k <= i < k + 6) :: v[i] == w[i]
  }

  lemma CodeFarApart(c: Code<bv32>, v: seq<bv8>, w: seq<bv8>, k: nat)
    requires Reads(c) && Word(v) && Word(w) && Near(v, w, k) && RegisterOf(c, v) == RegisterOf(c, w)
    ensures v == w
  {
    var p, x, y, s := v[..k], v[k..k + 6], w[k..k + 6], v[k + 6..];
    NearParts(v, w, k);
    CodeDetects(c, p, x, y, s);
  }

  lemma NearParts(v: seq<bv8>, w: seq<bv8>, k: nat)
    requires Near(v, w, k) && Word(v) && Word(w)
    ensures v == v[..k] + v[k..k + 6] + v[k + 6..] && w == v[..k] + w[k..k + 6] + v[k + 6..]
    ensures Word(v[..k]) && Word(v[k..k + 6]) && Word(w[k..k + 6]) && Word(v[k + 6..])
  {
  }

  // ----- the register of BIP-173 reads symbols

  lemma RunSix<T>(c: Code<T>, v: seq<T>)
    requires |v| == 6
    ensures Shifted(c, v) == c.step(c.step(c.step(c.step(c.step(c.step(c.zero, v[0]), v[1]), v[2]), v[3]), v[4]), v[5])
  {
    assert v[..5][..4] == v[..4] && v[..4][..3] == v[..3] && v[..3][..2] == v[..2] && v[..2][..1] == v[..1];
    assert Run(c, c.zero, v[..1]) == c.step(c.zero, v[0]);
    assert Run(c, c.zero, v[..3]) == c.step(c.step(Run(c, c.zero, v[..1]), v[1]), v[2]);
    assert Run(c, c.zero, v[..5]) == c.step(c.step(Run(c, c.zero, v[..3]), v[3]), v[4]);
  }

  lemma StepUp(a: bv32, c: bv32, b: bv32)
    requires a < 0x2000000 && Xor(a << 5, c) == b
    ensures Step(a, c) == b
  {
    TurnSmall(a);
  }

  lemma CutFirst(m: bv32)
    requires Below(SIZE, m)
    ensures Xor(0 << 5, Widen(Cut(m, 25))) == m >> 25
  {
  }

  lemma CutSecond(m: bv32)
    requires Below(SIZE, m)
    ensures Xor((m >> 25) << 5, Widen(Cut(m, 20))) == m >> 20
  {
  }

  lemma CutThird(m: bv32)
    requires Below(SIZE, m)
    ensures Xor((m >> 20) << 5, Widen(Cut(m, 15))) == m >> 15
  {
  }

  lemma CutFourth(m: bv32)
    requires Below(SIZE, m)
    ensures Xor((m >> 15) << 5, Widen(Cut(m, 10))) == m >> 10
  {
  }

  lemma CutFifth(m: bv32)
    requires Below(SIZE, m)
    ensures Xor((m >> 10) << 5, Widen(Cut(m, 5))) == m >> 5
  {
  }

  lemma CutLast(m: bv32)
    requires Below(SIZE, m)
    ensures Xor((m >> 5) << 5, Widen(Cut(m, 0))) == m
  {
  }

  lemma HeadsSmall(m: bv32)
    requires Below(SIZE, m)
    ensures m >> 25 < 0x2000000 && m >> 20 < 0x2000000 && m >> 15 < 0x2000000 && m >> 10 < 0x2000000 && m >> 5 < 0x2000000
  {
  }

  lemma StepFirst(m: bv32)
    requires Below(SIZE, m)
    ensures Step(0, Widen(Cut(m, 25))) == m >> 25
  {
    CutFirst(m);
    HeadsSmall(m);
    StepUp(0, Widen(Cut(m, 25)), m >> 25);
  }

  lemma StepSecond(m: bv32)
    requires Below(SIZE, m)
    ensures Step(m >> 25, Widen(Cut(m, 20))) == m >> 20
  {
    CutSecond(m);
    HeadsSmall(m);
    StepUp(m >> 25, Widen(Cut(m, 20)), m >> 20);
  }

  lemma StepThird(m: bv32)
    requires Below(SIZE, m)
    ensures Step(m >> 20, Widen(Cut(m, 15))) == m >> 15
  {
    CutThird(m);
    HeadsSmall(m);
    StepUp(m >> 20, Widen(Cut(m, 15)), m >> 15);
  }

  lemma StepFourth(m: bv32)
    requires Below(SIZE, m)
    ensures Step(m >> 15, Widen(Cut(m, 10))) == m >> 10
  {
    CutFourth(m);
    HeadsSmall(m);
    StepUp(m >> 15, Widen(Cut(m, 10)), m >> 10);
  }

  lemma StepFifth(m: bv32)
    requires Below(SIZE, m)
    ensures Step(m >> 10, Widen(Cut(m, 5))) == m >> 5
  {
    CutFifth(m);
    HeadsSmall(m);
    StepUp(m >> 10, Widen(Cut(m, 5)), m >> 5);
  }

  lemma StepLast(m: bv32)
    requires Below(SIZE, m)
    ensures Step(m >> 5, Widen(Cut(m, 0))) == m
  {
    CutLast(m);
    HeadsSmall(m);
    StepUp(m >> 5, Widen(Cut(m, 0)), m);
  }

  // Six symbols shifted into an empty register are the number they were cut from.
  lemma PartsShiftIn(m: bv32)
    requires Below(SIZE, m)
    ensures Shifted(POLYMOD, Wide(Parts(m))) == m
  {
    RunSix(POLYMOD, Wide(Parts(m)));
    StepFirst(m);
    StepSecond(m);
    StepThird(m);
    StepFourth(m);
    StepFifth(m);
    StepLast(m);
  }

  lemma FlipFits(m: bv32)
    requires Below(SIZE, m)
    ensures Below(SIZE, m ^ 1)
  {
  }

  lemma SymbolFits(x: bv8)
    requires x < 32
    ensures Below(1, Widen(x))
  {
  }

  lemma PolymodTakesSymbols()
    ensures TakesSymbols(POLYMOD)
  {
    forall x: bv8 | x < 32
      ensures Below(1, Widen(x))
    {
      SymbolFits(x);
    }
  }

  lemma PolymodTakesOne()
    ensures TakesOne(POLYMOD)
  {
    forall m | Below(SIZE, m)
      ensures Below(SIZE, m ^ 1)
    {
      FlipFits(m);
    }
  }

  lemma PolymodShiftsIn()
    ensures ShiftsIn(POLYMOD)
  {
    forall m | Below(SIZE, m)
      ensures Shifted(POLYMOD, Wide(Parts(m))) == m
    {
      PartsShiftIn(m);
    }
  }

  lemma PolymodReads()
    ensures Reads(POLYMOD)
  {
    PolymodLawful();
    PolymodTakesOne();
    PolymodTakesSymbols();
    PolymodShiftsIn();
  }

  // The computed symbols bring the register to 1 ...
  lemma ChecksumCloses(v: seq<bv8>)
    requires Word(v)
    ensures Register(v + Checksum(v)) == 1
  {
    PolymodReads();
    CodeCloses(POLYMOD, v);
  }

  // ... no other six symbols do ...
  lemma ChecksumUnique(v: seq<bv8>, c: seq<bv8>)
    requires Word(v) && Word(c) && |c| == 6 && Register(v + c) == 1
    ensures c == Checksum(v)
  {
    PolymodReads();
    CodeCloses(POLYMOD, v);
    CodeUnique(POLYMOD, v, c, Checksum(v));
  }

  // ... and words that differ only within six consecutive symbols never leave the same register.
  lemma ChangeDetected(v: seq<bv8>, w: seq<bv8>, k: nat)
    requires Word(v) && Word(w) && Near(v, w, k) && Register(v) == Register(w)
    ensures v == w
  {
    PolymodReads();
    CodeFarApart(POLYMOD, v, w, k);
  }
}
