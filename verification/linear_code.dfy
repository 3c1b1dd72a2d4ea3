/** Checksum registers that are linear over an exclusive or: what they detect. */
module LinearCode {

  // step folds a symbol into the register; below(k, a) says that a fits in k symbols; a register holds SIZE of them.
  datatype Code<!T> = Code(step: (T, T) -> T, mix: (T, T) -> T, zero: T, below: (nat, T) -> bool)

  const SIZE: nat := 6

  predicate Commutes<T(==)>(c: Code<T>, a: T, b: T, x: T, y: T) {
    c.step(c.mix(a, b), c.mix(x, y)) == c.mix(c.step(a, x), c.step(b, y))
  }

  predicate Cancels<T(==)>(c: Code<T>, a: T, b: T) {
    && c.mix(a, a) == c.zero
    && c.mix(a, c.zero) == a && c.mix(c.zero, a) == a
    && c.mix(a, c.mix(a, b)) == b
    && (c.mix(a, b) == c.zero ==> a == b)
    && (c.below(1, a) && c.below(1, b) ==> c.below(1, c.mix(a, b)))
  }

  // Mixing is an exclusive or, and folding commutes with it.
  ghost predicate Linear<T(!new)>(c: Code<T>) {
    && (forall a, b, x, y :: Commutes(c, a, b, x, y))
    && (forall a, b :: Cancels(c, a, b))
  }

  // A register that is not full loses nothing.
  ghost predicate Shifting<T(!new)>(c: Code<T>) {
    && c.below(0, c.zero)
    && (forall k: nat, a, x {:trigger c.below(k, a), c.step(a, x)} :: k < SIZE && c.below(k, a) && c.below(1, x) ==>
          c.below(k + 1, c.step(a, x)) && (c.step(a, x) == c.zero ==> a == c.zero && x == c.zero))
  }

  // Nor does a full one, the symbol being known.
  ghost predicate Injective<T(!new)>(c: Code<T>) {
    && (forall a, x {:trigger c.step(a, x)} :: c.below(SIZE, a) && c.below(1, x) ==> c.below(SIZE, c.step(a, x)))
    && (forall a, b, x {:trigger c.step(a, x), c.step(b, x)} ::
          c.below(SIZE, a) && c.below(SIZE, b) && c.below(1, x) && c.step(a, x) == c.step(b, x) ==> a == b)
  }

  ghost predicate Lawful<T(!new)>(c: Code<T>) {
    Linear(c) && Shifting(c) && Injective(c)
  }

  predicate Symbols<T>(c: Code<T>, v: seq<T>) {
    forall i | 0 <= i < |v| :: c.below(1, v[i])
  }

  predicate Zeros<T(==)>(c: Code<T>, v: seq<T>) {
    forall i | 0 <= i < |v| :: v[i] == c.zero
  }

  // The register after the symbols v.
  function Run<T>(c: Code<T>, chk: T, v: seq<T>): T {
    if v == [] then chk else c.step(Run(c, chk, v[..|v| - 1]), v[|v| - 1])
  }

  function Mixed<T>(c: Code<T>, v: seq<T>, w: seq<T>): (u: seq<T>)
    requires |v| == |w|
    ensures |u| == |v|
  {
    seq(|v|, i requires 0 <= i < |v| => c.mix(v[i], w[i]))
  }

  lemma {:induction false} RunLinear<T(!new)>(c: Code<T>, a: T, b: T, v: seq<T>, w: seq<T>)
    requires Linear(c) && |v| == |w|
    ensures Run(c, c.mix(a, b), Mixed(c, v, w)) == c.mix(Run(c, a, v), Run(c, b, w))
  {
    if v != [] {
      var n := |v| - 1;
      RunLinear(c, a, b, v[..n], w[..n]);
      assert Mixed(c, v, w)[..n] == Mixed(c, v[..n], w[..n]);
      assert Commutes(c, Run(c, a, v[..n]), Run(c, b, w[..n]), v[n], w[n]);
    }
  }

  lemma {:induction false} RunConcat<T>(c: Code<T>, chk: T, v: seq<T>, w: seq<T>)
    ensures Run(c, chk, v + w) == Run(c, Run(c, chk, v), w)
  {
    if w == [] {
      assert v + w == v;
    } else {
      var n := |w| - 1;
      RunConcat(c, chk, v, w[..n]);
      assert (v + w)[..|v| + n] == v + w[..n];
    }
  }

  lemma {:induction false} RunFits<T(!new)>(c: Code<T>, chk: T, v: seq<T>)
    requires Injective(c) && c.below(SIZE, chk) && Symbols(c, v)
    ensures c.below(SIZE, Run(c, chk, v))
  {
    if v != [] {
      RunFits(c, chk, v[..|v| - 1]);
    }
  }

  // Different registers stay different over equal symbols.
  lemma {:induction false} RunInjective<T(!new)>(c: Code<T>, a: T, b: T, v: seq<T>)
    requires Injective(c) && c.below(SIZE, a) && c.below(SIZE, b) && a != b && Symbols(c, v)
    ensures Run(c, a, v) != Run(c, b, v)
  {
    if v != [] {
      var n := |v| - 1;
      RunInjective(c, a, b, v[..n]);
      RunFits(c, a, v[..n]);
      RunFits(c, b, v[..n]);
    }
  }

  // From an empty register a register's worth of symbols is just shifted in.
  lemma {:induction false} RunShifts<T(!new)>(c: Code<T>, v: seq<T>)
    requires Shifting(c) && |v| <= SIZE && Symbols(c, v)
    ensures c.below(|v|, Run(c, c.zero, v))
    ensures Run(c, c.zero, v) == c.zero ==> forall i | 0 <= i < |v| :: v[i] == c.zero
  {
    if v != [] {
      var n := |v| - 1;
      RunShifts(c, v[..n]);
      assert forall i | 0 <= i < n :: v[i] == v[..n][i];
    }
  }

  lemma WindowDetected<T(!new)>(c: Code<T>, r: T, x: seq<T>, y: seq<T>)
    requires Lawful(c) && |x| == |y| == SIZE && x != y && Symbols(c, x) && Symbols(c, y)
    ensures Run(c, r, x) != Run(c, r, y)
  {
    var d := Mixed(c, x, y);
    RunLinear(c, r, r, x, y);
    assert Symbols(c, d) by {
      forall i | 0 <= i < |d|
        ensures c.below(1, d[i])
      {
        assert Cancels(c, x[i], y[i]);
      }
    }
    RunShifts(c, d);
    assert Cancels(c, r, r);
    assert Cancels(c, Run(c, r, x), Run(c, r, x));
    var i :| 0 <= i < |x| && x[i] != y[i];
    assert Cancels(c, x[i], y[i]);
    assert d[i] != c.zero;
  }

  // A change confined to a register's worth of consecutive symbols always changes the checksum.
  lemma BurstDetected<T(!new)>(c: Code<T>, start: T, p: seq<T>, x: seq<T>, y: seq<T>, s: seq<T>)
    requires Lawful(c) && c.below(SIZE, start) && |x| == |y| == SIZE && x != y
    requires Symbols(c, p) && Symbols(c, x) && Symbols(c, y) && Symbols(c, s)
    ensures Run(c, start, p + x + s) != Run(c, start, p + y + s)
  {
    var r := Run(c, start, p);
    RunFits(c, start, p);
    RunConcat(c, start, p, x);
    RunConcat(c, start, p, y);
    RunConcat(c, start, p + x, s);
    RunConcat(c, start, p + y, s);
    WindowDetected(c, r, x, y);
    RunFits(c, r, x);
    RunFits(c, r, y);
    RunInjective(c, Run(c, r, x), Run(c, r, y), s);
  }

  // The register that symbols shift into an empty one.
  function Shifted<T>(c: Code<T>, v: seq<T>): T {
    Run(c, c.zero, v)
  }

  // Symbols in place of as many zeros mix what they shift in into the register.
  lemma InPlaceOfZeros<T(!new)>(c: Code<T>, start: T, v: seq<T>, zeros: seq<T>, w: seq<T>)
    requires Linear(c) && |zeros| == |w| && Zeros(c, zeros)
    ensures Run(c, start, v + w) == c.mix(Run(c, start, v + zeros), Shifted(c, w))
  {
    var r := Run(c, start, v);
    RunConcat(c, start, v, w);
    RunConcat(c, start, v, zeros);
    RunLinear(c, r, c.zero, zeros, w);
    assert Cancels(c, r, r);
    assert Mixed(c, zeros, w) == w by {
      forall i | 0 <= i < |w|
        ensures Mixed(c, zeros, w)[i] == w[i]
      {
        assert Cancels(c, w[i], w[i]);
      }
    }
  }

  // Symbols that shift in what zeros would leave, mixed with the target, bring the register to the target.
  lemma Closes<T(!new)>(c: Code<T>, start: T, target: T, v: seq<T>, zeros: seq<T>, w: seq<T>)
    requires Linear(c) && |zeros| == |w| && Zeros(c, zeros)
    requires Shifted(c, w) == c.mix(Run(c, start, v + zeros), target)
    ensures Run(c, start, v + w) == target
  {
    InPlaceOfZeros(c, start, v, zeros, w);
    assert Cancels(c, Run(c, start, v + zeros), target);
  }

  // At most one register's worth of symbols closes a word.
  lemma ClosingUnique<T(!new)>(c: Code<T>, start: T, v: seq<T>, x: seq<T>, y: seq<T>)
    requires Lawful(c) && c.below(SIZE, start) && |x| == |y| == SIZE
    requires Symbols(c, v) && Symbols(c, x) && Symbols(c, y) && Run(c, start, v + x) == Run(c, start, v + y)
    ensures x == y
  {
    assert v + x + [] == v + x && v + y + [] == v + y;
    if x != y {
      BurstDetected(c, start, v, x, y, []);
    }
  }
}
