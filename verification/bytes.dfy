/** Bytes, and strings of digits read as numbers. */
module Bytes {
  import opened Bits

  type byte = x: int | 0 <= x < 256

  predicate Digits(v: seq<nat>, base: nat) {
    forall i | 0 <= i < |v| :: v[i] < base
  }

  // v read as a number, most significant digit first.
  function Value(v: seq<nat>, base: nat): nat {
    if v == [] then 0 else Joined(Value(v[..|v| - 1], base), v[|v| - 1], base)
  }

  function Joined(high: nat, low: nat, base: nat): nat {
    high * base + low
  }

  lemma JoinedUnique(a: nat, b: nat, x: nat, y: nat, base: nat)
    requires x < base && y < base && Joined(a, x, base) == Joined(b, y, base)
    ensures a == b && x == y
  {
    if a < b {
      MulMonotone(a + 1, b, base);
    } else if b < a {
      MulMonotone(b + 1, a, base);
    }
  }

  lemma MulMonotone(a: nat, b: nat, k: nat)
    requires a <= b
    ensures a * k <= b * k
  {
  }

  // As many digits with the same value are the same digits.
  lemma {:induction false} ValueUnique(v: seq<nat>, w: seq<nat>, base: nat)
    requires |v| == |w| && Digits(v, base) && Digits(w, base) && Value(v, base) == Value(w, base)
    ensures v == w
  {
    if v != [] {
      var n := |v| - 1;
      JoinedUnique(Value(v[..n], base), Value(w[..n], base), v[n], w[n], base);
      ValueUnique(v[..n], w[..n], base);
    }
  }

  lemma ValuePush(v: seq<nat>, d: nat, base: nat)
    ensures Value(v + [d], base) == Joined(Value(v, base), d, base)
  {
    assert (v + [d])[..|v|] == v;
  }

  // The last n digits of x.
  function LastDigits(x: nat, n: nat): (v: seq<byte>)
    ensures |v| == n
  {
    if n == 0 then [] else LastDigits(x / 256, n - 1) + [x % 256]
  }

  // 256^n
  function Bound(n: nat): nat {
    if n == 0 then 1 else 256 * Bound(n - 1)
  }

  lemma {:induction false} ValueOfDigits(x: nat, n: nat)
    requires x < Bound(n)
    ensures Value(LastDigits(x, n), 256) == x
  {
    if n != 0 {
      ValueOfDigits(x / 256, n - 1);
      ValuePush(LastDigits(x / 256, n - 1), x % 256, 256);
    }
  }

  lemma {:induction false} DigitsOfValue(v: seq<byte>)
    ensures LastDigits(Value(v, 256), |v|) == v && Value(v, 256) < Bound(|v|)
  {
    if v != [] {
      var n := |v| - 1;
      DigitsOfValue(v[..n]);
      Unjoined(Value(v[..n], 256), v[n]);
      assert v == v[..n] + [v[n]];
    }
  }

  lemma Unjoined(high: nat, low: byte)
    ensures Joined(high, low, 256) / 256 == high && Joined(high, low, 256) % 256 == low
  {
  }

  function Zeros(n: nat): (z: seq<byte>)
    ensures |z| == n
  {
    seq(n, _ => 0)
  }

  // ----- exclusive or of bytes

  // Exclusive or of the low n bits.
  function XorBits(a: nat, b: nat, n: nat): (x: nat)
    ensures x < Pow2(n)
  {
    if n == 0 then 0 else 2 * XorBits(a / 2, b / 2, n - 1) + (a + b) % 2
  }

  function XorByte(a: byte, b: byte): byte {
    assert Pow2(8) == 256;
    XorBits(a, b, 8)
  }

  lemma LastBit(x: nat, a: nat, b: nat)
    ensures (2 * x + (a + b) % 2) / 2 == x && (2 * x + (a + b) % 2 + b) % 2 == a % 2
  {
    if (a + b) % 2 == 0 {
      assert a == 2 * ((a + b) / 2) - b;
    } else {
      assert a == 2 * ((a + b) / 2) + 1 - b;
    }
  }

  lemma {:induction false} XorBitsInvolution(a: nat, b: nat, n: nat)
    requires a < Pow2(n)
    ensures XorBits(XorBits(a, b, n), b, n) == a
  {
    if n != 0 {
      XorBitsInvolution(a / 2, b / 2, n - 1);
      LastBit(XorBits(a / 2, b / 2, n - 1), a, b);
    }
  }

  lemma XorByteInvolution(a: byte, b: byte)
    ensures XorByte(XorByte(a, b), b) == a
  {
    assert Pow2(8) == 256;
    XorBitsInvolution(a, b, 8);
  }

  // Bit i of x.
  function Bit(x: nat, i: nat): nat {
    if i == 0 then x % 2 else Bit(x / 2, i - 1)
  }

  // Each bit of an exclusive or tells whether the two bits differ.
  lemma {:induction false} XorBitsAt(a: nat, b: nat, n: nat, i: nat)
    requires i < n
    ensures Bit(XorBits(a, b, n), i) == if Bit(a, i) == Bit(b, i) then 0 else 1
  {
    if i > 0 {
      XorBitsAt(a / 2, b / 2, n - 1, i - 1);
    }
  }

  lemma XorByteAt(a: byte, b: byte, i: nat)
    requires i < 8
    ensures Bit(XorByte(a, b), i) == if Bit(a, i) == Bit(b, i) then 0 else 1
  {
    XorBitsAt(a, b, 8, i);
  }

  // base^n
  function Power(base: nat, n: nat): nat {
    if n == 0 then 1 else Power(base, n - 1) * base
  }

  // The first digit weighs most.
  lemma {:induction false} ValueOfFirst(d: nat, v: seq<nat>, base: nat)
    ensures Value([d] + v, base) == d * Power(base, |v|) + Value(v, base)
  {
    if v == [] {
      assert ([d] + v)[..0] == [];
      assert d * 1 == d && 0 * base == 0;
    } else {
      var n := |v| - 1;
      ValueOfFirst(d, v[..n], base);
      assert ([d] + v)[..n + 1] == [d] + v[..n];
      Distribute(d, Power(base, n), Value(v[..n], base), base);
    }
  }

  lemma Distribute(d: nat, p: nat, x: nat, base: nat)
    ensures (d * p + x) * base == d * (p * base) + x * base
  {
    assert (d * p) * base == d * (p * base);
  }
}
