/** The synthesis filter 1/A(z) rebuilt from reflections below 1 is stable: A has no zero on or outside
    the unit circle. Written in w = 1/z, where the delay of one sample is a factor w. */
module LpcStability {
  import opened ComplexNumbers
  import opened Lpc
  import opened Reals
  import opened Sums

  function Norm(x: Complex): real {
    Square(x.re) + Square(x.im)
  }

  function Real(x: real): Complex {
    Complex(x, 0.0)
  }

  // x + k*y
  function MixC(x: Complex, y: Complex, k: real): Complex {
    Complex(Mix(x.re, y.re, k), Mix(x.im, y.im, k))
  }

  // The sum of a[j] * w^j.
  function Eval(a: seq<real>, w: Complex): Complex {
    if a == [] then Real(0.0) else Add(Real(a[0]), Mul(w, Eval(a[1..], w)))
  }

  // No pole of 1/A lies on or outside the unit circle.
  ghost predicate NoPoleOutside(a: seq<real>) {
    forall w: Complex | Norm(w) <= 1.0 :: Norm(Eval(a, w)) > 0.0
  }

  // ----- one step up, as polynomials

  function Reversed(a: seq<real>): (r: seq<real>)
    ensures |r| == |a|
  {
    seq(|a|, j requires 0 <= j < |a| => a[|a| - 1 - j])
  }

  ghost predicate Mixes(a: seq<real>, u: seq<real>, v: seq<real>, k: real) {
    |a| == |u| == |v| && forall j | 0 <= j < |a| :: a[j] == Mix(u[j], v[j], k)
  }

  lemma {:induction false} EvalMix(a: seq<real>, u: seq<real>, v: seq<real>, k: real, w: Complex)
    requires Mixes(a, u, v, k)
    ensures Eval(a, w) == MixC(Eval(u, w), Eval(v, w), k)
    decreases |a|
  {
    if a != [] {
      EvalMix(a[1..], u[1..], v[1..], k, w);
      var x, y := Eval(u[1..], w), Eval(v[1..], w);
      MulMix(w, x, y, k);
    } else {
      assert k * 0.0 == 0.0;
    }
  }

  lemma MulMix(w: Complex, x: Complex, y: Complex, k: real)
    ensures Mul(w, MixC(x, y, k)) == MixC(Mul(w, x), Mul(w, y), k)
  {
    TimesMix(w.re, x.re, y.re, k);
    TimesMix(w.im, x.im, y.im, k);
    TimesMix(w.re, x.im, y.im, k);
    TimesMix(w.im, x.re, y.re, k);
    assert k * (w.re * y.re - w.im * y.im) == k * (w.re * y.re) - k * (w.im * y.im);
    assert k * (w.re * y.im + w.im * y.re) == k * (w.re * y.im) + k * (w.im * y.re);
  }

  lemma TimesMix(c: real, x: real, y: real, k: real)
    ensures c * Mix(x, y, k) == Mix(c * x, c * y, k)
  {
    assert c * (x + k * y) == c * x + c * (k * y);
    assert c * (k * y) == k * (c * y);
  }

  lemma TimesZero(w: Complex)
    ensures Mul(w, Real(0.0)) == Real(0.0)
  {
  }

  lemma EvalOne(x: real, w: Complex)
    ensures Eval([x], w) == Real(x)
  {
    TimesZero(w);
    assert [x][1..] == [] && Eval([], w) == Real(0.0);
  }

  lemma {:induction false} EvalPadded(a: seq<real>, w: Complex)
    ensures Eval(a + [0.0], w) == Eval(a, w)
    decreases |a|
  {
    if a == [] {
      EvalOne(0.0, w);
    } else {
      assert (a + [0.0])[1..] == a[1..] + [0.0];
      EvalPadded(a[1..], w);
    }
  }

  lemma EvalDelayed(a: seq<real>, w: Complex)
    ensures Eval([0.0] + a, w) == Mul(w, Eval(a, w))
  {
    assert ([0.0] + a)[1..] == a;
  }

  // The filter of the next order, and its reversal, mix the filter with its delayed reversal.
  lemma UpMixes(prev: seq<real>, k: real)
    requires |prev| > 0 && prev[0] == 1.0
    ensures Mixes(Up(prev, k), prev + [0.0], [0.0] + Reversed(prev), k)
    ensures Mixes(Reversed(Up(prev, k)), [0.0] + Reversed(prev), prev + [0.0], k)
  {
    var n := |prev|;
    assert k * 1.0 == k && k * 0.0 == 0.0;
    forall j | 0 <= j <= n
      ensures Up(prev, k)[j] == Mix((prev + [0.0])[j], ([0.0] + Reversed(prev))[j], k)
    {
    }
    forall j | 0 <= j <= n
      ensures Reversed(Up(prev, k))[j] == Mix(([0.0] + Reversed(prev))[j], (prev + [0.0])[j], k)
    {
      assert Reversed(Up(prev, k))[j] == Up(prev, k)[n - j];
    }
  }

  // ----- what a step up keeps inside the unit circle

  // The filter does not vanish, and outweighs its reversal.
  ghost predicate Outweighs(a: Complex, b: Complex) {
    Norm(a) > 0.0 && Norm(b) <= Norm(a)
  }

  lemma NormOfProduct(w: Complex, x: Complex)
    ensures Norm(Mul(w, x)) == Times(Norm(w), Norm(x))
  {
    var a, b, c, d := w.re, w.im, x.re, x.im;
    SquareOfSum(a * c, -(b * d));
    SquareOfSum(a * d, b * c);
    assert (a * c) * (-(b * d)) == -((a * d) * (b * c));
    SquareOfProduct(a, c);
    SquareOfProduct(b, d);
    SquareOfProduct(a, d);
    SquareOfProduct(b, c);
    assert (-(b * d)) * (-(b * d)) == (b * d) * (b * d);
    assert (a * a + b * b) * (c * c + d * d)
        == (a * a) * (c * c) + (a * a) * (d * d) + (b * b) * (c * c) + (b * b) * (d * d);
  }

  lemma SquareOfSum(x: real, y: real)
    ensures (x + y) * (x + y) == x * x + 2.0 * (x * y) + y * y
  {
  }

  lemma SquareOfProduct(x: real, y: real)
    ensures (x * y) * (x * y) == (x * x) * (y * y)
  {
  }

  function Inner(x: Complex, y: Complex): real {
    x.re * y.re + x.im * y.im
  }

  lemma NormOfMix(x: Complex, y: Complex, k: real)
    ensures Norm(MixC(x, y, k)) == Norm(x) + 2.0 * (k * Inner(x, y)) + (k * k) * Norm(y)
  {
    SquareOfSum(x.re, k * y.re);
    SquareOfSum(x.im, k * y.im);
    SquareOfProduct(k, y.re);
    SquareOfProduct(k, y.im);
    assert x.re * (k * y.re) == k * (x.re * y.re);
    assert x.im * (k * y.im) == k * (x.im * y.im);
    assert k * Inner(x, y) == k * (x.re * y.re) + k * (x.im * y.im);
    assert (k * k) * Norm(y) == (k * k) * (y.re * y.re) + (k * k) * (y.im * y.im);
  }

  lemma NormNotNegative(x: Complex)
    ensures Norm(x) >= 0.0
  {
    SquareNotNegative(x.re);
    SquareNotNegative(x.im);
  }

  lemma Shrinks(c: real, x: real)
    requires c <= 1.0 && x >= 0.0
    ensures Times(c, x) <= x
  {
    assert (1.0 - c) * x >= 0.0;
  }

  lemma NormPositive(x: Complex)
    requires x != Real(0.0)
    ensures Norm(x) > 0.0
  {
    if x.re != 0.0 {
      SquarePositive(x.re);
      SquareNotNegative(x.im);
    } else {
      SquarePositive(x.im);
      SquareNotNegative(x.re);
    }
  }

  lemma SquarePositive(x: real)
    requires x != 0.0
    ensures Square(x) > 0.0
  {
    SameSign(x, x);
  }

  lemma SameSign(x: real, y: real)
    requires (x > 0.0 && y > 0.0) || (x < 0.0 && y < 0.0)
    ensures Times(x, y) > 0.0
  {
  }

  // The difference of the norms shrinks by 1 - k^2.
  lemma NormsApart(a: Complex, d: Complex, k: real)
    ensures Norm(MixC(a, d, k)) - Norm(MixC(d, a, k)) == Shrunk(Norm(a) - Norm(d), k)
  {
    NormOfMix(a, d, k);
    NormOfMix(d, a, k);
    assert Inner(a, d) == Inner(d, a);
    assert Gain(k) * (Norm(a) - Norm(d)) == (Norm(a) - Norm(d)) - (k * k) * (Norm(a) - Norm(d));
    assert (k * k) * (Norm(a) - Norm(d)) == (k * k) * Norm(a) - (k * k) * Norm(d);
  }

  lemma NormOfMultiple(a: Complex, d: Complex, k: real)
    requires a.re == -(k * d.re) && a.im == -(k * d.im)
    ensures Norm(a) == Times(k * k, Norm(d))
  {
    SquareOfProduct(k, d.re);
    SquareOfProduct(k, d.im);
    NegatedSquare(k * d.re);
    NegatedSquare(k * d.im);
    assert (k * k) * Norm(d) == (k * k) * (d.re * d.re) + (k * k) * (d.im * d.im);
  }

  lemma NegatedSquare(x: real)
    ensures (-x) * (-x) == x * x
  {
  }

  // A number that is at most c < 1 times one that is no larger than itself is not positive.
  lemma NotItsOwnPart(c: real, x: real, y: real)
    requires c < 1.0 && x == Times(c, y) && 0.0 <= y <= x
    ensures x <= 0.0
  {
    assert (1.0 - c) * y == y - c * y;
    if y > 0.0 {
      Positive(1.0 - c, y);
    }
  }

  // a + k*d does not vanish when d is no larger than a.
  lemma MixNotZero(a: Complex, d: Complex, k: real)
    requires -1.0 < k < 1.0 && Outweighs(a, d)
    ensures Norm(MixC(a, d, k)) > 0.0
  {
    if MixC(a, d, k) != Real(0.0) {
      NormPositive(MixC(a, d, k));
    } else {
      NormOfMultiple(a, d, k);
      GainPositive(k);
      NormNotNegative(d);
      NotItsOwnPart(k * k, Norm(a), Norm(d));
    }
  }

  lemma ShrunkNotNegative(x: real, k: real)
    requires x >= 0.0 && Gain(k) > 0.0
    ensures Shrunk(x, k) >= 0.0
  {
  }

  lemma StepOutweighs(a: Complex, b: Complex, w: Complex, k: real)
    requires -1.0 < k < 1.0 && Norm(w) <= 1.0 && Outweighs(a, b)
    ensures Outweighs(MixC(a, Mul(w, b), k), MixC(Mul(w, b), a, k))
  {
    var d := Mul(w, b);
    NormOfProduct(w, b);
    NormNotNegative(b);
    Shrinks(Norm(w), Norm(b));
    MixNotZero(a, d, k);
    NormsApart(a, d, k);
    GainPositive(k);
    ShrunkNotNegative(Norm(a) - Norm(d), k);
  }

  lemma {:induction false} FilterOutweighs(ks: seq<real>, w: Complex)
    requires Contracting(ks) && Norm(w) <= 1.0
    ensures Outweighs(Eval(Filter(ks), w), Eval(Reversed(Filter(ks)), w))
    decreases |ks|
  {
    if ks == [] {
      assert Reversed(Filter([])) == [1.0];
      EvalOne(1.0, w);
    } else {
      var prev, k := Filter(ks[..|ks| - 1]), ks[|ks| - 1];
      FilterOutweighs(ks[..|ks| - 1], w);
      UpMixes(prev, k);
      EvalMix(Up(prev, k), prev + [0.0], [0.0] + Reversed(prev), k, w);
      EvalMix(Reversed(Up(prev, k)), [0.0] + Reversed(prev), prev + [0.0], k, w);
      EvalPadded(prev, w);
      EvalDelayed(Reversed(prev), w);
      StepOutweighs(Eval(prev, w), Eval(Reversed(prev), w), w, k);
    }
  }

  // The filter rebuilt from any reflections below 1 is stable.
  lemma ContractingIsStable(ks: seq<real>)
    requires Contracting(ks)
    ensures NoPoleOutside(Filter(ks))
  {
    forall w: Complex | Norm(w) <= 1.0
      ensures Norm(Eval(Filter(ks), w)) > 0.0
    {
      FilterOutweighs(ks, w);
    }
  }

  // So is every filter that the recursion yields, clamped or not.
  lemma AnalysisIsStable(r: seq<real>, n: nat)
    ensures NoPoleOutside(Filter(Levinson(r, n).ks))
  {
    ReflectionsClamped(r, n);
    ContractingIsStable(Levinson(r, n).ks);
  }
}
