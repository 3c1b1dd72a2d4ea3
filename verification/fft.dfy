/** Powers of two and the reversal of the low d bits of an index. */
module Bits {

  function Pow2(n: nat): (r: nat)
    ensures r >= 1
  {
    if n == 0 then 1 else 2 * Pow2(n - 1)
  }

  lemma {:induction false} Pow2Monotone(m: nat, n: nat)
    requires m <= n
    ensures Pow2(m) <= Pow2(n)
  {
    if m < n {
      Pow2Monotone(m, n - 1);
    }
  }

  lemma {:induction false} Pow2Add(m: nat, n: nat)
    ensures Pow2(m + n) == Pow2(m) * Pow2(n)
  {
    if m != 0 {
      Pow2Add(m - 1, n);
    }
  }

  lemma MulOrder(d: nat, x: int, y: int)
    ensures x <= y ==> d * x <= d * y
  {
  }

  lemma Quotient(n: nat, d: nat, q: nat)
    requires 0 < d && d * q <= n < d * q + d
    ensures n / d == q
  {
    var k := n / d;
    assert d * k <= n < d * k + d;
    MulOrder(d, k + 1, q);
    MulOrder(d, q + 1, k);
  }

  // The low d bits of b, in the opposite order.
  function Rev(d: nat, b: nat): nat {
    if d == 0 then 0 else Rev(d - 1, b / 2) + (if b % 2 == 1 then Pow2(d - 1) else 0)
  }

  lemma {:induction false} RevBound(d: nat, b: nat)
    ensures Rev(d, b) < Pow2(d)
  {
    if d != 0 {
      RevBound(d - 1, b / 2);
      assert b % 2 == 0 || b % 2 == 1;
    }
  }

  // Reversal seen from the top bit instead of the bottom one.
  lemma {:induction false} RevTop(d: nat, c: nat)
    requires d > 0 && c < Pow2(d - 1)
    ensures Rev(d, c) == 2 * Rev(d - 1, c)
    ensures Rev(d, c + Pow2(d - 1)) == 2 * Rev(d - 1, c) + 1
  {
    if d > 1 {
      RevTop(d - 1, c / 2);
      assert (c + Pow2(d - 1)) / 2 == c / 2 + Pow2(d - 2) && (c + Pow2(d - 1)) % 2 == c % 2;
    }
  }

  lemma {:induction false} RevInvolution(d: nat, b: nat)
    requires b < Pow2(d)
    ensures Rev(d, Rev(d, b)) == b
  {
    if d != 0 {
      RevInvolution(d - 1, b / 2);
      RevBound(d - 1, b / 2);
      RevTop(d, Rev(d - 1, b / 2));
    }
  }

  // One is added at the top of a d-bit number and the carry travels down.
  function CarryDown(d: nat, j: nat): nat {
    if d == 0 then 0
    else if j >= Pow2(d - 1) then CarryDown(d - 1, j - Pow2(d - 1))
    else j + Pow2(d - 1)
  }

  lemma {:induction false} CarryDownIsSuccessor(d: nat, b: nat)
    requires b + 1 < Pow2(d)
    ensures CarryDown(d, Rev(d, b)) == Rev(d, b + 1)
  {
    if d != 0 {
      RevBound(d - 1, b / 2);
      if b % 2 == 1 {
        assert (b + 1) / 2 == b / 2 + 1 && (b + 1) % 2 == 0;
        CarryDownIsSuccessor(d - 1, b / 2);
      } else {
        assert (b + 1) / 2 == b / 2 && (b + 1) % 2 == 1;
      }
    }
  }
}

/** The in-place radix-2 transform of `extract`, over any commutative ring. */
module Fft {
  import opened Rings
  import opened Bits

  // ----- the discrete Fourier transform, as a sum

  // x[0]*w^0 + x[1]*w^k + ... + x[n-1]*w^((n-1)k), with n == |x|
  function Dft<T>(r: Ring<T>, w: T, x: seq<T>, k: nat): T {
    if x == [] then r.zero
    else r.add(Dft(r, w, x[..|x| - 1], k), r.mul(x[|x| - 1], Pow(r, w, k * (|x| - 1))))
  }

  // The polynomial with coefficients x at the point v: one frequency is its value at w^k.
  function Eval<T>(r: Ring<T>, x: seq<T>, v: T): T {
    if x == [] then r.zero
    else r.add(Eval(r, x[..|x| - 1], v), r.mul(x[|x| - 1], Pow(r, v, |x| - 1)))
  }

  lemma {:induction false} EvalIsDft<T(!new)>(r: Ring<T>, w: T, x: seq<T>, k: nat)
    requires Commutative(r)
    ensures Eval(r, x, Pow(r, w, k)) == Dft(r, w, x, k)
    decreases |x|
  {
    if x != [] {
      EvalIsDft(r, w, x[..|x| - 1], k);
      PowMul(r, w, k, |x| - 1);
    }
  }

  function Evens<T>(x: seq<T>): seq<T> {
    seq((|x| + 1) / 2, t requires 0 <= t < (|x| + 1) / 2 => x[2 * t])
  }

  function Odds<T>(x: seq<T>): seq<T> {
    seq(|x| / 2, t requires 0 <= t < |x| / 2 => x[2 * t + 1])
  }

  // The algebra of one step: two more samples join both halves.
  lemma SplitAlgebra<T(!new)>(r: Ring<T>, ed: T, od: T, v: T, p: T, xe: T, xo: T)
    requires Commutative(r)
    ensures r.add(r.add(r.add(ed, r.mul(v, od)), r.mul(xe, p)), r.mul(xo, r.mul(v, p)))
         == r.add(r.add(ed, r.mul(xe, p)), r.mul(v, r.add(od, r.mul(xo, p))))
  {
    var te, tb := r.mul(xe, p), r.mul(xo, p);
    assert Holds(r, MulAssoc, xo, v, p) && Holds(r, MulComm, xo, v, p) && Holds(r, MulAssoc, v, xo, p);
    assert Holds(r, Distrib, v, od, tb);
    assert Holds(r, AddAssoc, r.add(ed, r.mul(v, od)), te, r.mul(v, tb));
    AddSwap(r, ed, r.mul(v, od), te, r.mul(v, tb));
  }

  lemma EvalSnoc<T>(r: Ring<T>, x: seq<T>, e: T, v: T)
    ensures Eval(r, x + [e], v) == r.add(Eval(r, x, v), r.mul(e, Pow(r, v, |x|)))
  {
    assert (x + [e])[..|x|] == x;
  }

  lemma EvalSnocAt<T>(r: Ring<T>, x: seq<T>, e: T, v: T, n: nat)
    requires |x| == n
    ensures Eval(r, x + [e], v) == r.add(Eval(r, x, v), r.mul(e, Pow(r, v, n)))
  {
    EvalSnoc(r, x, e, v);
  }

  lemma LastTwo<T>(x: seq<T>, n: nat)
    requires |x| == 2 * n + 2
    ensures x == x[..2 * n] + [x[2 * n]] + [x[2 * n + 1]]
    ensures Evens(x) == Evens(x[..2 * n]) + [x[2 * n]]
    ensures Odds(x) == Odds(x[..2 * n]) + [x[2 * n + 1]]
  {
  }

  // The last two coefficients of a polynomial of even length.
  lemma EvalLastTwo<T(!new)>(r: Ring<T>, x: seq<T>, v: T, n: nat)
    requires Commutative(r) && |x| == 2 * n + 2
    ensures var p := Pow(r, r.mul(v, v), n);
            Eval(r, x, v) == r.add(r.add(Eval(r, x[..2 * n], v), r.mul(x[2 * n], p)), r.mul(x[2 * n + 1], r.mul(v, p)))
  {
    var y := x[..2 * n];
    LastTwo(x, n);
    SquarePower(r, v, n);
    EvalSnoc(r, y, x[2 * n], v);
    EvalSnoc(r, y + [x[2 * n]], x[2 * n + 1], v);
  }

  lemma EvalLastEven<T(!new)>(r: Ring<T>, x: seq<T>, v2: T, n: nat)
    requires Commutative(r) && |x| == 2 * n + 2
    ensures Eval(r, Evens(x), v2) == r.add(Eval(r, Evens(x[..2 * n]), v2), r.mul(x[2 * n], Pow(r, v2, n)))
    ensures Eval(r, Odds(x), v2) == r.add(Eval(r, Odds(x[..2 * n]), v2), r.mul(x[2 * n + 1], Pow(r, v2, n)))
  {
    LastTwo(x, n);
    EvalSnocAt(r, Evens(x[..2 * n]), x[2 * n], v2, n);
    EvalSnocAt(r, Odds(x[..2 * n]), x[2 * n + 1], v2, n);
  }

  // A polynomial from its even and odd coefficients (decimation in time).
  lemma {:induction false} Split<T(!new)>(r: Ring<T>, x: seq<T>, v: T)
    requires Commutative(r) && |x| % 2 == 0
    ensures Eval(r, x, v) == r.add(Eval(r, Evens(x), r.mul(v, v)), r.mul(v, Eval(r, Odds(x), r.mul(v, v))))
    decreases |x|
  {
    var v2 := r.mul(v, v);
    if x == [] {
      MulZero(r, v);
      assert Holds(r, AddZero, r.zero, r.zero, r.zero);
    } else {
      var n := |x| / 2 - 1;
      var y := x[..2 * n];
      Split(r, y, v);
      EvalLastTwo(r, x, v, n);
      EvalLastEven(r, x, v2, n);
      SplitAlgebra(r, Eval(r, Evens(y), v2), Eval(r, Odds(y), v2), v, Pow(r, v2, n), x[2 * n], x[2 * n + 1]);
    }
  }

  lemma {:induction false} SquarePower<T(!new)>(r: Ring<T>, v: T, n: nat)
    requires Commutative(r)
    ensures Pow(r, r.mul(v, v), n) == Pow(r, v, 2 * n)
  {
    if n != 0 {
      SquarePower(r, v, n - 1);
      assert Pow(r, v, 2 * n) == r.mul(v, Pow(r, v, 2 * n - 1));
      assert Holds(r, MulAssoc, v, v, Pow(r, v, 2 * (n - 1)));
    }
  }

  // The two outputs of one butterfly: the values at v and at -v.
  lemma Butterfly<T(!new)>(r: Ring<T>, x: seq<T>, v: T)
    requires Commutative(r) && |x| % 2 == 0
    ensures var p, q := Eval(r, Evens(x), r.mul(v, v)), r.mul(Eval(r, Odds(x), r.mul(v, v)), v);
            Eval(r, x, v) == r.add(p, q) && Eval(r, x, r.neg(v)) == r.Sub(p, q)
  {
    var o := Eval(r, Odds(x), r.mul(v, v));
    Split(r, x, v);
    Split(r, x, r.neg(v));
    assert Holds(r, MulComm, v, o, o) && Holds(r, MulComm, v, r.neg(v), o);
    MulNeg(r, v, o);
    MulNeg(r, v, v);
    MulNeg(r, v, r.neg(v));
    NegNeg(r, r.mul(v, v));
  }

  // ----- the recursive structure that the in-place passes follow

  // a[j] is the value of x at w^j, for every j.
  ghost predicate Frequencies<T>(r: Ring<T>, w: T, x: seq<T>, a: seq<T>) {
    |a| == |x| && forall j :: 0 <= j < |a| ==> a[j] == Eval(r, x, Pow(r, w, j))
  }

  // Each block of length 2^s in `a` is the transform of its share of x: the even samples of x
  // end up in the first half of `a`, the odd ones in the second.
  ghost predicate Done<T>(r: Ring<T>, w: T, x: seq<T>, m: nat, s: nat, a: seq<T>)
    requires s <= m && |x| == |a| == Pow2(m)
    decreases m
  {
    if m == s then
      Frequencies(r, w, x, a)
    else
      var h := Pow2(m - 1);
      && Done(r, r.mul(w, w), Evens(x), m - 1, s, a[..h])
      && Done(r, r.mul(w, w), Odds(x), m - 1, s, a[h..])
  }

  // t holds the powers of w up to half a turn, which is -1.
  ghost predicate HalfTurn<T>(r: Ring<T>, w: T, t: seq<T>) {
    && Pow(r, w, |t|) == r.neg(r.one)
    && forall k :: 0 <= k < |t| ==> t[k] == Pow(r, w, k)
  }

  // The twiddle factors t suit blocks of length 2^s inside a transform of length 2^m.
  ghost predicate Suits<T>(r: Ring<T>, w: T, m: nat, s: nat, t: seq<T>)
    requires 0 < s <= m
    decreases m
  {
    if m == s then
      |t| == Pow2(s - 1) && HalfTurn(r, w, t)
    else
      Suits(r, r.mul(w, w), m - 1, s, t)
  }

  // The butterflies of one block: its first half is a, its second half b.
  function Upper<T>(r: Ring<T>, t: seq<T>, a: seq<T>, b: seq<T>): (u: seq<T>)
    requires |t| == |a| == |b|
    ensures |u| == |t|
  {
    seq(|t|, k requires 0 <= k < |t| => r.add(a[k], r.mul(b[k], t[k])))
  }

  function Lower<T>(r: Ring<T>, t: seq<T>, a: seq<T>, b: seq<T>): (u: seq<T>)
    requires |t| == |a| == |b|
    ensures |u| == |t|
  {
    seq(|t|, k requires 0 <= k < |t| => r.Sub(a[k], r.mul(b[k], t[k])))
  }

  function BlockPass<T>(r: Ring<T>, t: seq<T>, a: seq<T>): (b: seq<T>)
    requires |a| == 2 * |t|
    ensures |b| == |a|
  {
    Upper(r, t, a[..|t|], a[|t|..]) + Lower(r, t, a[..|t|], a[|t|..])
  }

  // One pass: the butterflies of every block.
  function Pass<T>(r: Ring<T>, t: seq<T>, a: seq<T>): (b: seq<T>)
    requires |t| > 0
    ensures |b| == |a|
    decreases |a|
  {
    var n := |a| - 2 * |t|;
    if n < 0 then a else Pass(r, t, a[..n]) + BlockPass(r, t, a[n..])
  }

  // n is a whole number of blocks
  ghost predicate Multiple(n: nat, len: nat)
    requires len > 0
  {
    n == 0 || (n >= len && Multiple(n - len, len))
  }

  lemma {:induction false} MultipleAdd(m: nat, n: nat, len: nat)
    requires len > 0 && Multiple(m, len) && Multiple(n, len)
    ensures Multiple(m + n, len)
    decreases n
  {
    if n != 0 {
      MultipleAdd(m, n - len, len);
    }
  }

  lemma {:induction false} Pow2Multiple(m: nat, s: nat)
    requires s <= m
    ensures Multiple(Pow2(m), Pow2(s))
    decreases m
  {
    if s < m {
      Pow2Multiple(m - 1, s);
      MultipleAdd(Pow2(m - 1), Pow2(m - 1), Pow2(s));
    } else {
      assert Multiple(0, Pow2(s));
    }
  }

  // A pass treats two runs of blocks independently.
  lemma {:induction false} PassConcat<T>(r: Ring<T>, t: seq<T>, a: seq<T>, b: seq<T>)
    requires |t| > 0 && Multiple(|b|, 2 * |t|)
    ensures Pass(r, t, a + b) == Pass(r, t, a) + Pass(r, t, b)
    decreases |b|
  {
    if b == [] {
      assert a + b == a;
    } else {
      var n := |b| - 2 * |t|;
      PassConcat(r, t, a, b[..n]);
      assert (a + b)[..|a| + n] == a + b[..n] && (a + b)[|a| + n..] == b[n..];
    }
  }

  // A pass takes the invariant of one block length to the next.
  lemma {:induction false} PassStep<T(!new)>(r: Ring<T>, w: T, x: seq<T>, m: nat, s: nat, t: seq<T>, a: seq<T>)
    requires Commutative(r) && 0 < s <= m && |x| == |a| == Pow2(m)
    requires |t| == Pow2(s - 1) && Suits(r, w, m, s, t) && Done(r, w, x, m, s - 1, a)
    ensures Done(r, w, x, m, s, Pass(r, t, a))
    decreases m
  {
    var h, w2 := Pow2(m - 1), r.mul(w, w);
    var lo, hi := a[..h], a[h..];
    if m == s {
      assert a[0..] == a;
      BlockStep(r, w, x, t, lo, hi);
    } else {
      PassStep(r, w2, Evens(x), m - 1, s, t, lo);
      PassStep(r, w2, Odds(x), m - 1, s, t, hi);
      Pow2Multiple(m - 1, s);
      PassConcat(r, t, lo, hi);
      assert lo + hi == a;
      DoneJoin(r, w, x, m, s, Pass(r, t, lo), Pass(r, t, hi));
    }
  }

  // Above the level of a pass its two halves are independent.
  lemma DoneJoin<T>(r: Ring<T>, w: T, x: seq<T>, m: nat, s: nat, lo: seq<T>, hi: seq<T>)
    requires 0 < s < m && |x| == Pow2(m) && |lo| == |hi| == Pow2(m - 1)
    requires Done(r, r.mul(w, w), Evens(x), m - 1, s, lo) && Done(r, r.mul(w, w), Odds(x), m - 1, s, hi)
    ensures Done(r, w, x, m, s, lo + hi)
  {
    assert (lo + hi)[..|lo|] == lo && (lo + hi)[|lo|..] == hi;
  }

  // One block: its two halves hold the transforms of the even and of the odd samples.
  lemma BlockStep<T(!new)>(r: Ring<T>, w: T, x: seq<T>, t: seq<T>, lo: seq<T>, hi: seq<T>)
    requires Commutative(r) && |x| == 2 * |t| && |lo| == |hi| == |t| && HalfTurn(r, w, t)
    requires Frequencies(r, r.mul(w, w), Evens(x), lo) && Frequencies(r, r.mul(w, w), Odds(x), hi)
    ensures Frequencies(r, w, x, Upper(r, t, lo, hi) + Lower(r, t, lo, hi))
  {
    var u, l := Upper(r, t, lo, hi), Lower(r, t, lo, hi);
    forall k | 0 <= k < |t|
      ensures u[k] == Eval(r, x, Pow(r, w, k)) && l[k] == Eval(r, x, Pow(r, w, k + |t|))
    {
      TwoFrequencies(r, w, x, |t|, k);
    }
  }

  lemma TwoFrequencies<T(!new)>(r: Ring<T>, w: T, x: seq<T>, half: nat, k: nat)
    requires Commutative(r) && |x| == 2 * half && Pow(r, w, half) == r.neg(r.one)
    ensures var w2, v := r.mul(w, w), Pow(r, w, k);
            var p, q := Eval(r, Evens(x), Pow(r, w2, k)), r.mul(Eval(r, Odds(x), Pow(r, w2, k)), v);
            Eval(r, x, v) == r.add(p, q) && Eval(r, x, Pow(r, w, k + half)) == r.Sub(p, q)
  {
    var v := Pow(r, w, k);
    SquarePower(r, w, k);
    PowAdd(r, w, k, k);
    PowAdd(r, w, k, half);
    MulMinusOne(r, v);
    Butterfly(r, x, v);
  }

  // ----- the twiddle table

  ghost predicate Twiddles<T>(r: Ring<T>, w: T, m: nat, tw: seq<T>)
    requires m > 0
  {
    |tw| == Pow2(m - 1) && HalfTurn(r, w, tw)
  }

  // The twiddle factors 0, step, 2*step, ... that one pass reads.
  function Strided<T>(tw: seq<T>, half: nat, step: nat): (t: seq<T>)
    requires step > 0 && half * step <= |tw|
    ensures |t| == half
  {
    seq(half, k requires 0 <= k < half => (TwiddleFits(k, half, step); tw[k * step]))
  }

  lemma TwiddleFits(k: nat, half: nat, step: nat)
    requires k < half && step > 0
    ensures k * step < half * step
  {
  }

  lemma {:induction false} StridedSuits<T(!new)>(r: Ring<T>, w: T, tw: seq<T>, m: nat, s: nat)
    requires Commutative(r) && 0 < s <= m && Twiddles(r, w, m, tw)
    requires Pow2(s - 1) * Pow2(m - s) <= |tw|
    ensures Suits(r, w, m, s, Strided(tw, Pow2(s - 1), Pow2(m - s)))
  {
    var t := Strided(tw, Pow2(s - 1), Pow2(m - s));
    var v := Pow(r, w, Pow2(m - s));
    PowMul(r, w, Pow2(m - s), Pow2(s - 1));
    Pow2Add(m - s, s - 1);
    forall k | 0 <= k < |t|
      ensures t[k] == Pow(r, v, k)
    {
      TwiddleFits(k, |t|, Pow2(m - s));
      PowMul(r, w, Pow2(m - s), k);
      assert k * Pow2(m - s) == Pow2(m - s) * k;
    }
    RootsSuit(r, w, m, s, t);
  }

  lemma {:induction false} RootsSuit<T(!new)>(r: Ring<T>, w: T, m: nat, s: nat, t: seq<T>)
    requires Commutative(r) && 0 < s <= m && |t| == Pow2(s - 1)
    requires HalfTurn(r, Pow(r, w, Pow2(m - s)), t)
    ensures Suits(r, w, m, s, t)
    decreases m
  {
    if m == s {
      assert Pow(r, w, 1) == r.mul(w, Pow(r, w, 0));
      assert Holds(r, MulOne, w, w, w);
    } else {
      SquarePower(r, w, Pow2(m - 1 - s));
      RootsSuit(r, r.mul(w, w), m - 1, s, t);
    }
  }

  // ----- the bit-reversed order

  ghost predicate Reversed<T>(m: nat, x: seq<T>, a: seq<T>) {
    && |x| == |a| == Pow2(m)
    && forall p :: 0 <= p < |a| ==> 0 <= Rev(m, p) < |x| && a[p] == x[Rev(m, p)]
  }

  lemma ReversedHalves<T>(m: nat, x: seq<T>, a: seq<T>)
    requires m > 0 && Reversed(m, x, a)
    ensures Reversed(m - 1, Evens(x), a[..Pow2(m - 1)])
    ensures Reversed(m - 1, Odds(x), a[Pow2(m - 1)..])
  {
    var h := Pow2(m - 1);
    var lo, hi, e, o := a[..h], a[h..], Evens(x), Odds(x);
    assert |e| == |o| == |lo| == |hi| == h;
    forall p {:trigger Rev(m - 1, p)} | 0 <= p < h
      ensures 0 <= Rev(m - 1, p) < h && lo[p] == e[Rev(m - 1, p)] && hi[p] == o[Rev(m - 1, p)]
    {
      RevBound(m - 1, p);
      RevTop(m, p);
      assert lo[p] == a[p] && hi[p] == a[p + h];
    }
    assert Reversed(m - 1, e, lo);
  }

  lemma {:induction false} ReversedIsDone<T(!new)>(r: Ring<T>, w: T, x: seq<T>, m: nat, a: seq<T>)
    requires Commutative(r) && Reversed(m, x, a)
    ensures Done(r, w, x, m, 0, a)
    decreases m
  {
    if m == 0 {
      assert x == [x[0]] && a[0] == x[Rev(0, 0)];
      EvalSingleton(r, x[0], Pow(r, w, 0));
    } else {
      var h := Pow2(m - 1);
      ReversedHalves(m, x, a);
      ReversedIsDone(r, r.mul(w, w), Evens(x), m - 1, a[..h]);
      ReversedIsDone(r, r.mul(w, w), Odds(x), m - 1, a[h..]);
    }
  }

  lemma EvalSingleton<T(!new)>(r: Ring<T>, e: T, v: T)
    requires Commutative(r)
    ensures Eval(r, [e], v) == e
  {
    EvalSnoc(r, [], e, v);
    assert [] + [e] == [e];
    assert Holds(r, MulOne, e, v, v) && Holds(r, AddComm, r.zero, e, v) && Holds(r, AddZero, e, v, v);
  }

  // ----- the loops

  method BitReverse<T>(a: array<T>, ghost m: nat)
    requires a.Length == Pow2(m)
    modifies a
    ensures Reversed(m, old(a[..]), a[..])
  {
    var n := a.Length;
    var i, j := 1, 0;
    ghost var x := a[..];
    RevZero(m);
    forall q | 0 <= q < n
      ensures Rev(m, q) < n && Rev(m, Rev(m, q)) == q
    {
      RevBound(m, q);
      RevInvolution(m, q);
    }
    while i < n
      invariant 1 <= i <= n && j == Rev(m, i - 1)
      invariant PartReversed(m, i, x, a[..])
    {
      j := ReversedIncrement(n / 2, j, m);
      CarryDownIsSuccessor(m, i - 1);
      SwapReversed(a, m, i, j, x);
      i := i + 1;
    }
  }

  // The places below i hold their samples, and so do the ones that were swapped with them.
  ghost predicate PartReversed<T>(m: nat, i: nat, x: seq<T>, a: seq<T>) {
    && |a| == |x|
    && forall q :: 0 <= q < |x| && Rev(m, q) < |x| ==>
         a[q] == if q < i || Rev(m, q) < i then x[Rev(m, q)] else x[q]
  }

  method SwapReversed<T>(a: array<T>, ghost m: nat, i: nat, j: nat, ghost x: seq<T>)
    requires i < a.Length == Pow2(m) && j == Rev(m, i) < a.Length && PartReversed(m, i, x, a[..])
    requires forall q | 0 <= q < a.Length :: Rev(m, q) < a.Length && Rev(m, Rev(m, q)) == q
    modifies a
    ensures PartReversed(m, i + 1, x, a[..])
  {
    if i < j {
      a[i], a[j] := a[j], a[i];
    }
  }

  // The top bit of d bits.
  function Top(d: nat): nat {
    if d == 0 then 0 else Pow2(d - 1)
  }

  lemma TopIsHalf(d: nat)
    ensures Top(d) == Pow2(d) / 2
  {
  }

  // The carry loop: clear the set bits from the top, then set the first clear one.
  method ReversedIncrement(top: nat, j0: nat, ghost m: nat) returns (j: nat)
    requires top == Pow2(m) / 2 && j0 < Pow2(m)
    ensures j == CarryDown(m, j0)
  {
    var bit := top;
    j := j0;
    ghost var d := m;
    TopIsHalf(m);
    while bit != 0 && (j / bit) % 2 == 1
      invariant 0 <= d <= m && bit == Top(d) && j < Pow2(d)
      invariant CarryDown(d, j) == CarryDown(m, j0)
      decreases d
    {
      BitIsSet(j, bit);
      j := j - bit;
      d := d - 1;
      TopIsHalf(d);
      bit := bit / 2;
    }
    if bit != 0 {
      BitIsSet(j, bit);
    }
    j := j + bit;
  }

  lemma BitIsSet(j: nat, bit: nat)
    requires 0 < bit && j < 2 * bit
    ensures (j / bit) % 2 == 1 <==> j >= bit
  {
    if j < bit {
      Quotient(j, bit, 0);
    } else {
      Quotient(j, bit, 1);
    }
  }

  lemma {:induction false} RevZero(m: nat)
    ensures Rev(m, 0) == 0
  {
    if m != 0 {
      RevZero(m - 1);
    }
  }

  // y is x with the first j butterflies of its first block done.
  ghost predicate PartDone<T>(r: Ring<T>, t: seq<T>, j: nat, x: seq<T>, y: seq<T>)
    requires |x| == |y| == 2 * |t|
  {
    var u, v := Upper(r, t, x[..|t|], x[|t|..]), Lower(r, t, x[..|t|], x[|t|..]);
    forall k :: 0 <= k < |t| ==> y[k] == (if k < j then u[k] else x[k])
                                 && y[|t|..][k] == (if k < j then v[k] else x[|t|..][k])
  }

  lemma PartDoneStep<T>(r: Ring<T>, t: seq<T>, j: nat, x: seq<T>, y: seq<T>, y': seq<T>)
    requires j < |t| && |x| == |y| == 2 * |t| && PartDone(r, t, j, x, y)
    requires y' == y[j := r.add(y[j], r.mul(y[j + |t|], t[j]))][j + |t| := r.Sub(y[j], r.mul(y[j + |t|], t[j]))]
    ensures PartDone(r, t, j + 1, x, y')
  {
    assert y[|t|..][j] == y[j + |t|];
    forall k | 0 <= k < |t|
      ensures y'[|t|..][k] == if k == j then y'[j + |t|] else y[|t|..][k]
    {
    }
  }

  // The innermost loop: the butterflies of the block at i.
  method BlockInPlace<T>(r: Ring<T>, tw: seq<T>, a: array<T>, i: nat, half: nat, step: nat)
    requires step > 0 && half * step <= |tw| && i + 2 * half <= a.Length
    modifies a
    ensures a[..i] == old(a[..i]) && a[i + 2 * half..] == old(a[i + 2 * half..])
    ensures a[i..i + 2 * half] == BlockPass(r, Strided(tw, half, step), old(a[i..i + 2 * half]))
  {
    ghost var x, t := a[i..i + 2 * half], Strided(tw, half, step);
    var j := 0;
    while j < half
      invariant 0 <= j <= half && PartDone(r, t, j, x, a[i..i + 2 * half])
      invariant a[..i] == old(a[..i]) && a[i + 2 * half..] == old(a[i + 2 * half..])
    {
      TwiddleFits(j, half, step);
      ghost var y := a[i..i + 2 * half];
      var u, v := a[i + j], r.mul(a[i + j + half], tw[j * step]);
      a[i + j], a[i + j + half] := r.add(u, v), r.Sub(u, v);
      PartDoneStep(r, t, j, x, y, a[i..i + 2 * half]);
      j := j + 1;
    }
    assert a[i..i + 2 * half] == BlockPass(r, t, x);
  }

  lemma SameTail<T>(a: seq<T>, x: seq<T>, i: nat, next: nat)
    requires i <= next <= |a| == |x| && a[i..] == x[i..]
    ensures a[i..next] == x[i..next] && a[next..] == x[next..]
  {
    var n := next - i;
    assert a[i..next] == a[i..][..n] && x[i..next] == x[i..][..n];
    assert a[next..] == a[i..][n..] && x[next..] == x[i..][n..];
  }

  // One pass over the array.
  method PassInPlace<T>(r: Ring<T>, tw: seq<T>, a: array<T>, half: nat, step: nat)
    requires half > 0 && step > 0 && half * step <= |tw| && Multiple(a.Length, 2 * half)
    modifies a
    ensures a[..] == Pass(r, Strided(tw, half, step), old(a[..]))
  {
    ghost var x := a[..];
    ghost var t := Strided(tw, half, step);
    var i := 0;
    while i < a.Length
      invariant i <= a.Length && Multiple(a.Length - i, 2 * half)
      invariant a[..i] == Pass(r, t, x[..i]) && a[i..] == x[i..]
      decreases a.Length - i
    {
      var next := i + 2 * half;
      SameTail(a[..], x, i, next);
      BlockInPlace(r, tw, a, i, half, step);
      assert x[..next][..i] == x[..i] && x[..next][i..] == x[i..next];
      assert a[..next] == a[..i] + a[i..next];
      i := next;
    }
    assert a[..i] == a[..] && x[..i] == x;
  }

  // The whole transform: for any w with w^(N/2) == -1 it leaves the DFT of the input.
  method Transform<T(!new)>(r: Ring<T>, ghost w: T, tw: seq<T>, a: array<T>, ghost m: nat)
    requires Commutative(r) && m > 0 && a.Length == Pow2(m) && Twiddles(r, w, m, tw)
    modifies a
    ensures forall k :: 0 <= k < a.Length ==> a[k] == Dft(r, w, old(a[..]), k)
  {
    ghost var x := a[..];
    BitReverse(a, m);
    ReversedIsDone(r, w, x, m, a[..]);
    var len := 2;
    ghost var s := 1;
    while len <= a.Length
      invariant 1 <= s <= m + 1 && len == Pow2(s)
      invariant Done(r, w, x, m, s - 1, a[..])
      decreases m + 1 - s
    {
      Stage(r, w, x, tw, a, m, s, len);
      len := len * 2;
      s := s + 1;
    }
    AllDone(r, w, x, m, s, a[..]);
  }

  // One stage of the outer loop.
  method Stage<T(!new)>(r: Ring<T>, ghost w: T, ghost x: seq<T>, tw: seq<T>, a: array<T>, ghost m: nat,
                        ghost s: nat, len: nat)
    requires Commutative(r) && 1 <= s <= m + 1 && |x| == a.Length == Pow2(m) && len == Pow2(s) <= a.Length
    requires Twiddles(r, w, m, tw) && Done(r, w, x, m, s - 1, a[..])
    modifies a
    ensures s <= m && Done(r, w, x, m, s, a[..])
  {
    LengthFits(m, s);
    StageStep(r, w, x, tw, m, s, a[..]);
    PassInPlace(r, tw, a, len / 2, a.Length / len);
  }

  // After the last pass the frequencies are in place.
  lemma AllDone<T(!new)>(r: Ring<T>, w: T, x: seq<T>, m: nat, s: nat, a: seq<T>)
    requires Commutative(r) && |x| == |a| == Pow2(m) && 1 <= s <= m + 1 && Pow2(s) > Pow2(m)
    requires Done(r, w, x, m, s - 1, a)
    ensures forall k :: 0 <= k < |a| ==> a[k] == Dft(r, w, x, k)
  {
    if s <= m {
      Pow2Monotone(s, m);
    }
    forall k | 0 <= k < |x|
      ensures a[k] == Dft(r, w, x, k)
    {
      EvalIsDft(r, w, x, k);
    }
  }

  lemma StageStep<T(!new)>(r: Ring<T>, w: T, x: seq<T>, tw: seq<T>, m: nat, s: nat, a: seq<T>)
    requires Commutative(r) && 0 < s <= m && |x| == |a| == Pow2(m) && Twiddles(r, w, m, tw)
    requires Pow2(s - 1) * Pow2(m - s) == |tw| && Done(r, w, x, m, s - 1, a)
    ensures Multiple(|a|, Pow2(s))
    ensures Done(r, w, x, m, s, Pass(r, Strided(tw, Pow2(s - 1), Pow2(m - s)), a))
  {
    StridedSuits(r, w, tw, m, s);
    PassStep(r, w, x, m, s, Strided(tw, Pow2(s - 1), Pow2(m - s)), a);
    Pow2Multiple(m, s);
  }

  lemma LengthFits(m: nat, s: nat)
    requires 1 <= s <= m + 1 && Pow2(s) <= Pow2(m)
    ensures s <= m && Pow2(s) / 2 == Pow2(s - 1) && Pow2(m) / Pow2(s) == Pow2(m - s)
    ensures Pow2(s - 1) * Pow2(m - s) == Pow2(m - 1)
  {
    if s <= m {
      Pow2Add(s - 1, m - s);
      Pow2Add(s, m - s);
      Quotient(Pow2(m), Pow2(s), Pow2(m - s));
    }
  }
}
