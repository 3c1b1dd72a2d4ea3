/** The npub form of a public key: bytes regrouped into five-bit symbols, with the checksum of BIP-173. */
module Npub {
  import opened Bytes
  import opened Bech32
  import opened Bits

  const WORD: nat := 0x1_0000_0000    // one past the largest value of the 32-bit accumulator

  // ----- regrouping

  // The bits that fill up the last symbol of n bytes.
  function Filling(n: nat): nat {
    (5 - 8 * n % 5) % 5
  }

  // data is input in five-bit symbols, filled up with zero bits.
  ghost predicate Regroups(input: seq<byte>, data: seq<nat>) {
    && 5 * |data| == 8 * |input| + Filling(|input|)
    && Digits(data, 32)
    && Value(data, 32) == Value(input, 256) * Pow2(Filling(|input|))
  }

  // The number already emitted, followed by the low n bits of the accumulator.
  function Held(w: nat, acc: nat, n: nat): nat {
    if n == 0 then w else 2 * Held(w, acc / 2, n - 1) + acc % 2
  }

  function HeldForm(w: nat, acc: nat, n: nat): nat {
    w * Pow2(n) + acc % Pow2(n)
  }

  lemma {:induction false} HeldIs(w: nat, acc: nat, n: nat)
    ensures Held(w, acc, n) == HeldForm(w, acc, n)
  {
    if n == 0 {
      assert acc % 1 == 0;
    } else {
      HeldIs(w, acc / 2, n - 1);
      HalvedTail(acc, Pow2(n - 1));
      assert w * (2 * Pow2(n - 1)) == 2 * (w * Pow2(n - 1));
    }
  }

  lemma HalvedTail(acc: nat, p: nat)
    requires p > 0
    ensures acc % (2 * p) == 2 * (acc / 2 % p) + acc % 2
  {
    var h := acc / 2;
    assert h == h / p * p + h % p;
    assert 2 * (h / p * p) == h / p * (2 * p);
    ModIs(acc, 2 * p, h / p, 2 * (h % p) + acc % 2);
  }

  lemma ModIs(x: int, m: nat, q: int, r: nat)
    requires r < m && x == q * m + r
    ensures x / m == q && x % m == r
  {
    var d := q - x / m;
    assert d * m == x % m - r;
    AtLeast(d, m);
  }

  lemma AtLeast(d: int, m: nat)
    ensures d > 0 ==> d * m >= m
    ensures d < 0 ==> d * m + m <= 0
  {
  }

  // Shifting in a byte keeps the low bits, although the accumulator wraps.
  lemma PushTail(acc: nat, b: byte, p: nat, k: nat)
    requires p > 0 && 256 * p * k == WORD
    ensures (acc * 256 + b) % WORD % (256 * p) == 256 * (acc % p) + b
  {
    var q, r, x := acc / p, acc % p, acc * 256 + b;
    var t := x / WORD;
    assert acc == q * p + r;
    PushSplit(q, p, r, b, k, t);
    ModIs(x % WORD, 256 * p, q - k * t, 256 * r + b);
  }

  lemma PushSplit(q: nat, p: nat, r: nat, b: nat, k: nat, t: nat)
    requires 256 * p * k == WORD
    ensures (q * p + r) * 256 + b - WORD * t == (q - k * t) * (256 * p) + (256 * r + b)
  {
    assert WORD * t == (256 * p * k) * t == (k * t) * (256 * p);
    assert (q - k * t) * (256 * p) == q * (256 * p) - (k * t) * (256 * p);
  }

  lemma PopTail(acc: nat, p: nat)
    requires p > 0
    ensures acc % (32 * p) == (acc / p % 32) * p + acc % p
  {
    var q, r := acc / p, acc % p;
    var u, d := q / 32, q % 32;
    assert acc == (32 * u + d) * p + r;
    assert (32 * u + d) * p == u * (32 * p) + d * p;
    DigitBelow(d, p, r, 32);
    ModIs(acc, 32 * p, u, d * p + r);
  }

  lemma DigitBelow(d: nat, p: nat, r: nat, base: nat)
    requires d < base && r < p
    ensures d * p + r < base * p
  {
    MulMonotone(d + 1, base, p);
  }

  lemma PadTail(acc: nat, p: nat, s: nat)
    requires p > 0 && p * s == 32
    ensures (acc % p) * s == acc * s % WORD % 32
  {
    var q, r := acc / p, acc % p;
    var x := acc * s;
    PadSplit(acc, q, p, r, s);
    MulStrict(r, p, s);
    ModIs(x % WORD, 32, q - 0x800_0000 * (x / WORD), r * s);
  }

  lemma PadSplit(acc: nat, q: nat, p: nat, r: nat, s: nat)
    requires p * s == 32 && acc == q * p + r
    ensures acc * s == q * 32 + r * s
  {
    assert (q * p + r) * s == q * (p * s) + r * s;
  }

  lemma MulStrict(r: nat, p: nat, s: nat)
    requires r < p && s > 0
    ensures r * s < p * s
  {
  }

  lemma Powers()
    ensures Pow2(5) == 32 && Pow2(8) == 256 && Pow2(32) == WORD
  {
    Pow2Add(8, 8);
    Pow2Add(16, 16);
  }

  lemma PushPowers(n: nat)
    requires n <= 4
    ensures Pow2(n + 8) == 256 * Pow2(n) && 256 * Pow2(n) * Pow2(24 - n) == WORD
  {
    Pow2Add(n, 8);
    Pow2Add(n + 8, 24 - n);
    Powers();
  }

  // acc << 8 | b in 32 bits
  function Pushed(acc: nat, b: byte): nat {
    (acc * 256 + b) % WORD
  }

  lemma PushByte(w: nat, acc: nat, b: byte, n: nat)
    requires n <= 4
    ensures Joined(HeldForm(w, acc, n), b, 256) == HeldForm(w, Pushed(acc, b), n + 8)
  {
    var p := Pow2(n);
    PushPowers(n);
    PushTail(acc, b, p, Pow2(24 - n));
    Distribute(w, p, acc % p, 256);
  }

  // acc >> n & 31
  function Symbol(acc: nat, n: nat): nat {
    acc / Pow2(n) % 32
  }

  lemma PopSymbol(w: nat, acc: nat, n: nat)
    requires n <= 7
    ensures HeldForm(w, acc, n + 5) == HeldForm(Joined(w, Symbol(acc, n), 32), acc, n)
  {
    var p := Pow2(n);
    Pow2Add(n, 5);
    PopTail(acc, p);
    Spread(w, acc / p % 32, p);
  }

  lemma Spread(w: nat, d: nat, p: nat)
    ensures (w * 32 + d) * p == w * (32 * p) + d * p
  {
  }

  // The last symbol: acc << (5 - n) & 31 in 32 bits.
  function Last(acc: nat, n: nat): nat
    requires 1 <= n <= 4
  {
    acc * Pow2(5 - n) % WORD % 32
  }

  lemma PadSymbol(w: nat, acc: nat, n: nat)
    requires 1 <= n <= 4
    ensures HeldForm(w, acc, n) * Pow2(5 - n) == Joined(w, Last(acc, n), 32)
  {
    Pow2Add(n, 5 - n);
    PadTail(acc, Pow2(n), Pow2(5 - n));
    Distribute(w, Pow2(n), acc % Pow2(n), Pow2(5 - n));
  }

  lemma Distribute(w: nat, p: nat, r: nat, q: nat)
    ensures (w * p + r) * q == w * (p * q) + r * q
  {
  }

  // What has been read is what has been written followed by the low n bits of the accumulator.
  ghost predicate Progress(v: seq<byte>, w: seq<nat>, acc: nat, n: nat) {
    Digits(w, 32) && Value(v, 256) == Held(Value(w, 32), acc, n)
  }

  lemma ProgressPush(v: seq<byte>, w: seq<nat>, acc: nat, b: byte, n: nat)
    requires n <= 4 && Progress(v, w, acc, n)
    ensures Progress(v + [b], w, Pushed(acc, b), n + 8)
  {
    var x := Value(w, 32);
    ValuePush(v, b, 256);
    HeldIs(x, acc, n);
    HeldIs(x, Pushed(acc, b), n + 8);
    PushByte(x, acc, b, n);
  }

  lemma ProgressPop(v: seq<byte>, w: seq<nat>, acc: nat, n: nat)
    requires n <= 7 && Progress(v, w, acc, n + 5)
    ensures Progress(v, w + [Symbol(acc, n)], acc, n)
  {
    var x, d := Value(w, 32), Symbol(acc, n);
    ValuePush(w, d, 32);
    HeldIs(x, acc, n + 5);
    HeldIs(Joined(x, d, 32), acc, n);
    PopSymbol(x, acc, n);
  }

  lemma FillingIs(n: nat, m: nat, p: nat)
    requires 5 * m == 8 * n + p && p < 5
    ensures Filling(n) == p
  {
  }

  lemma TimesOne(x: nat)
    ensures x * Pow2(0) == x
  {
  }

  lemma ProgressDone(v: seq<byte>, w: seq<nat>, acc: nat)
    requires 5 * |w| == 8 * |v| && Progress(v, w, acc, 0)
    ensures Regroups(v, w)
  {
    FillingIs(|v|, |w|, 0);
    TimesOne(Value(v, 256));
  }

  lemma ProgressPad(v: seq<byte>, w: seq<nat>, acc: nat, n: nat)
    requires 1 <= n <= 4 && 5 * |w| + n == 8 * |v| && Progress(v, w, acc, n)
    ensures Regroups(v, w + [Last(acc, n)])
  {
    ValuePush(w, Last(acc, n), 32);
    HeldIs(Value(w, 32), acc, n);
    PadSymbol(Value(w, 32), acc, n);
    FillingIs(|v|, |w| + 1, 5 - n);
  }

  lemma TakeOneMore(v: seq<byte>, i: nat)
    requires i < |v|
    ensures v[..i + 1] == v[..i] + [v[i]]
  {
  }

  lemma WholeTake(v: seq<byte>)
    ensures v[..|v|] == v
  {
  }

  // conv8to5, with its 32-bit accumulator.
  method Conv8to5(input: seq<byte>, out: array<nat>) returns (j: nat)
    requires 8 * |input| + 4 <= 5 * out.Length
    modifies out
    ensures j <= out.Length && Regroups(input, out[..j])
  {
    var acc: nat, bits: nat := 0, 0;
    j := 0;
    for i := 0 to |input|
      invariant 5 * j + bits == 8 * i && bits <= 4 && j <= out.Length
      invariant Progress(input[..i], out[..j], acc, bits)
    {
      ProgressPush(input[..i], out[..j], acc, input[i], bits);
      TakeOneMore(input, i);
      acc := Pushed(acc, input[i]);
      bits, j := Drain(input[..i + 1], acc, bits + 8, out, j);
    }
    j := Flush(input[..|input|], acc, bits, out, j);
    WholeTake(input);
  }

  // The inner loop: whole symbols leave the accumulator.
  method Drain(ghost v: seq<byte>, acc: nat, bits0: nat, out: array<nat>, j0: nat) returns (bits: nat, j: nat)
    requires bits0 <= 12 && 5 * j0 + bits0 <= 5 * out.Length && Progress(v, out[..j0], acc, bits0)
    modifies out
    ensures 5 * j + bits == 5 * j0 + bits0 && bits <= 4 && j <= out.Length && Progress(v, out[..j], acc, bits)
  {
    bits, j := bits0, j0;
    while bits >= 5
      invariant 5 * j + bits == 5 * j0 + bits0 && bits <= 12 && j <= out.Length
      invariant Progress(v, out[..j], acc, bits)
    {
      bits := bits - 5;
      ProgressPop(v, out[..j], acc, bits);
      out[j] := Symbol(acc, bits);
      assert out[..j + 1] == out[..j] + [out[j]];
      j := j + 1;
    }
  }

  method Flush(ghost v: seq<byte>, acc: nat, bits: nat, out: array<nat>, j0: nat) returns (j: nat)
    requires bits <= 4 && 5 * j0 + bits == 8 * |v| && 5 * j0 + 5 <= 5 * out.Length + if bits > 0 then 0 else 5
    requires Progress(v, out[..j0], acc, bits)
    modifies out
    ensures j <= out.Length && Regroups(v, out[..j])
  {
    j := j0;
    if bits > 0 {
      ProgressPad(v, out[..j], acc, bits);
      out[j] := Last(acc, bits);
      assert out[..j + 1] == out[..j] + [out[j]];
      j := j + 1;
    } else {
      ProgressDone(v, out[..j], acc);
    }
  }

  // Regrouping loses nothing ...
  lemma RegroupsInjective(p: seq<byte>, q: seq<byte>, data: seq<nat>)
    requires Regroups(p, data) && Regroups(q, data)
    ensures p == q
  {
    SameLength(|p|, |q|, |data|);
    Divided(Value(p, 256), Value(q, 256), Pow2(Filling(|p|)));
    ValueUnique(p, q, 256);
  }

  // ... and is unambiguous.
  lemma RegroupsUnique(p: seq<byte>, data: seq<nat>, other: seq<nat>)
    requires Regroups(p, data) && Regroups(p, other)
    ensures data == other
  {
    ValueUnique(data, other, 32);
  }

  lemma SameLength(m: nat, n: nat, d: nat)
    requires 5 * d == 8 * m + Filling(m) && 5 * d == 8 * n + Filling(n)
    ensures m == n
  {
  }

  lemma Divided(a: nat, b: nat, k: nat)
    requires k > 0 && a * k == b * k
    ensures a == b
  {
  }

  // ----- the text

  const B32: string := "qpzry9x8gf2tvdw0s3jn54khce6mua7l"

  lemma LettersDiffer(i: nat, j: nat)
    requires i < j < 32
    ensures |B32| == 32 && B32[i] != B32[j]
  {
  }

  lemma AlphabetSize()
    ensures |B32| == 32
  {
  }

  // The human-readable part, "npub".
  const HRP: seq<bv8> := [0x6e, 0x70, 0x75, 0x62]

  const PREFIX: seq<bv8> := [3, 3, 3, 3, 0, 14, 16, 21, 2]

  lemma HrpBits(i: nat)
    requires i < 4
    ensures HRP[i] >> 5 == PREFIX[i] && HRP[i] & 31 == PREFIX[5 + i]
  {
  }

  method HrpExpand(o: array<bv8>) returns (j: nat)
    requires o.Length >= 9
    modifies o
    ensures j == 9 && o[..9] == PREFIX
  {
    j := 0;
    for i := 0 to 4
      invariant j == i && forall k | 0 <= k < i :: o[k] == PREFIX[k]
    {
      HrpBits(i);
      o[j] := HRP[i] >> 5;
      j := j + 1;
    }
    o[j] := 0;
    j := j + 1;
    for i := 0 to 4
      invariant j == 5 + i && forall k | 0 <= k < j :: o[k] == PREFIX[k]
    {
      HrpBits(i);
      o[j] := HRP[i] & 31;
      j := j + 1;
    }
  }

  function Narrow(x: nat): bv8
    requires x < 32
  {
    x as bv8
  }

  function Narrowed(data: seq<nat>): (v: seq<bv8>)
    requires Digits(data, 32)
    ensures |v| == |data| && Word(v)
  {
    seq(|data|, i requires 0 <= i < |data| => Narrow(data[i]))
  }

  lemma NarrowExact(x: nat)
    requires x < 32
    ensures Narrow(x) as int == x
  {
  }

  // The symbols of a key: its data and their checksum.
  function Body(data: seq<nat>): (v: seq<bv8>)
    requires Digits(data, 32)
    ensures |v| == |data| + 6 && Word(v)
  {
    Narrowed(data) + Checksum(PREFIX + Narrowed(data))
  }

  function Letter(x: bv8): char {
    AlphabetSize();
    if x < 32 then B32[x as int] else '?'
  }

  function Letters(v: seq<bv8>): (s: string)
    ensures |s| == |v|
  {
    seq(|v|, i requires 0 <= i < |v| => Letter(v[i]))
  }

  ghost predicate IsNpub(pub: seq<byte>, s: string) {
    exists data :: Regroups(pub, data) && s == "npub1" + Letters(Body(data))
  }

  // The checksum of the prefix and the data.
  method DataChecksum(d: seq<nat>) returns (cs: seq<bv8>)
    requires |d| <= 64 && Digits(d, 32)
    ensures cs == Checksum(PREFIX + Narrowed(d))
  {
    var vals := new bv8[128];
    var n := Layout(d, vals);
    var m := Polymod(vals, n);
    cs := SixParts(m ^ 1);
  }

  method Layout(d: seq<nat>, vals: array<bv8>) returns (n: nat)
    requires |d| <= 64 && Digits(d, 32) && vals.Length == 128
    modifies vals
    ensures n == |d| + 15 && vals[..n] == PREFIX + Narrowed(d) + ZEROS
  {
    n := HrpExpand(vals);
    Copy(d, vals, n);
    assert vals[..n + |d|] == vals[..n] + vals[n..n + |d|];
    n := n + |d|;
    ZeroSix(vals, n);
    assert vals[..n + 6] == vals[..n] + ZEROS;
    n := n + 6;
  }

  method ZeroSix(vals: array<bv8>, at: nat)
    requires at + 6 <= vals.Length
    modifies vals
    ensures vals[..at] == old(vals[..at])
    ensures forall k | at <= k < at + 6 :: vals[k] == 0
  {
    for i := 0 to 6
      invariant vals[..at] == old(vals[..at])
      invariant forall k | at <= k < at + i :: vals[k] == 0
    {
      vals[at + i] := 0;
    }
  }

  method Copy(d: seq<nat>, vals: array<bv8>, at: nat)
    requires at + |d| <= vals.Length && Digits(d, 32)
    modifies vals
    ensures vals[at..at + |d|] == Narrowed(d) && vals[..at] == old(vals[..at])
  {
    for i := 0 to |d|
      invariant vals[at..at + i] == Narrowed(d)[..i]
      invariant vals[..at] == old(vals[..at])
    {
      vals[at + i] := Narrow(d[i]);
    }
  }

  method SixParts(m: bv32) returns (cs: seq<bv8>)
    ensures cs == Parts(m)
  {
    ghost var parts := Parts(m);
    cs := [];
    for i := 0 to 6
      invariant cs == parts[..i]
    {
      PartAt(m, i);
      cs := cs + [Cut(m, 5 * (5 - i))];
    }
  }

  lemma PartAt(m: bv32, i: nat)
    requires i < 6
    ensures Parts(m)[i] == Cut(m, 5 * (5 - i))
  {
  }

  // The letters of the data, then those of the checksum.
  method Spell(data: array<nat>, dl: nat, cs: seq<bv8>) returns (s: string)
    requires dl <= data.Length && Digits(data[..dl], 32)
    ensures s == "npub1" + Letters(Narrowed(data[..dl]) + cs)
  {
    ghost var d := Narrowed(data[..dl]);
    s := "npub1";
    for i := 0 to dl
      invariant s == "npub1" + Letters(d[..i])
    {
      NarrowExact(data[i]);
      AlphabetSize();
      assert d[..i + 1] == d[..i] + [d[i]];
      s := s + [B32[data[i]]];
    }
    assert d[..dl] == d;
    for i := 0 to |cs|
      invariant s == "npub1" + Letters(d + cs[..i])
    {
      assert d + cs[..i + 1] == d + cs[..i] + [cs[i]];
      s := s + [Letter(cs[i])];
    }
    assert cs[..|cs|] == cs;
  }

  // npub_encode
  method NpubEncode(pub: seq<byte>) returns (s: string)
    requires |pub| == 32
    ensures IsNpub(pub, s)
  {
    var data := new nat[64];
    var dl := Conv8to5(pub, data);
    assert dl <= 52;
    var cs := DataChecksum(data[..dl]);
    s := Spell(data, dl, cs);
  }

  // ----- what the text says about the key

  lemma NarrowedInjective(d: seq<nat>, e: seq<nat>)
    requires Digits(d, 32) && Digits(e, 32) && Narrowed(d) == Narrowed(e)
    ensures d == e
  {
    forall i | 0 <= i < |d|
      ensures d[i] == e[i]
    {
      assert Narrowed(d)[i] == Narrowed(e)[i];
      NarrowExact(d[i]);
      NarrowExact(e[i]);
    }
  }

  lemma LetterInjective(x: bv8, y: bv8)
    requires x < 32 && y < 32 && Letter(x) == Letter(y)
    ensures x == y
  {
    var i, j := x as int, y as int;
    if i < j {
      LettersDiffer(i, j);
    } else if j < i {
      LettersDiffer(j, i);
    }
  }

  // The text of data in place.
  lemma TextAt(data: seq<nat>, i: nat)
    requires Digits(data, 32) && i < |data| + 6
    ensures ("npub1" + Letters(Body(data)))[5 + i] == Letter(Body(data)[i])
  {
  }

  lemma TextAgrees(d: seq<nat>, e: seq<nat>, i: nat)
    requires Digits(d, 32) && Digits(e, 32) && |d| == |e| && i < |d| + 6
    requires ("npub1" + Letters(Body(d)))[5 + i] == ("npub1" + Letters(Body(e)))[5 + i]
    ensures Body(d)[i] == Body(e)[i]
  {
    TextAt(d, i);
    TextAt(e, i);
    LetterInjective(Body(d)[i], Body(e)[i]);
  }

  // Equal bodies are the same data.
  lemma BodyInjective(d: seq<nat>, e: seq<nat>)
    requires Digits(d, 32) && Digits(e, 32) && |d| == |e| && Body(d) == Body(e)
    ensures d == e
  {
    assert Narrowed(d) == Body(d)[..|d|] && Narrowed(e) == Body(e)[..|e|];
    NarrowedInjective(d, e);
  }

  // Every body closes the checksum.
  lemma BodyCloses(d: seq<nat>)
    requires Digits(d, 32)
    ensures Register(PREFIX + Body(d)) == 1
  {
    ChecksumCloses(PREFIX + Narrowed(d));
    Reassociate(PREFIX, Narrowed(d), Checksum(PREFIX + Narrowed(d)));
  }

  lemma Reassociate(p: seq<bv8>, d: seq<bv8>, c: seq<bv8>)
    ensures p + (d + c) == p + d + c
  {
  }

  // Bodies that agree outside six consecutive places are equal.
  lemma BodiesFarApart(d: seq<nat>, e: seq<nat>, k: nat)
    requires Digits(d, 32) && Digits(e, 32) && Near(Body(d), Body(e), k)
    ensures Body(d) == Body(e)
  {
    BodyCloses(d);
    BodyCloses(e);
    PrefixNear(PREFIX, Body(d), Body(e), k);
    ChangeDetected(PREFIX + Body(d), PREFIX + Body(e), k + 9);
    PrefixCancel(PREFIX, Body(d), Body(e));
  }

  lemma PrefixNear(p: seq<bv8>, v: seq<bv8>, w: seq<bv8>, k: nat)
    requires Near(v, w, k)
    ensures Near(p + v, p + w, |p| + k)
  {
  }

  lemma PrefixCancel(p: seq<bv8>, v: seq<bv8>, w: seq<bv8>)
    requires p + v == p + w
    ensures v == w
  {
    assert v == (p + v)[|p|..] && w == (p + w)[|p|..];
  }

  // The text determines the key, and the key the text; texts of different keys never agree outside six
  // consecutive characters.
  lemma NpubInjective(p: seq<byte>, q: seq<byte>, s: string)
    requires IsNpub(p, s) && IsNpub(q, s)
    ensures p == q
  {
    var d :| Regroups(p, d) && s == "npub1" + Letters(Body(d));
    var e :| Regroups(q, e) && s == "npub1" + Letters(Body(e));
    forall i: nat | i < |d| + 6
      ensures Body(d)[i] == Body(e)[i]
    {
      TextAgrees(d, e, i);
    }
    BodyInjective(d, e);
    RegroupsInjective(p, q, d);
  }

  lemma NpubUnique(p: seq<byte>, s: string, t: string)
    requires IsNpub(p, s) && IsNpub(p, t)
    ensures s == t
  {
    var d :| Regroups(p, d) && s == "npub1" + Letters(Body(d));
    var e :| Regroups(p, e) && t == "npub1" + Letters(Body(e));
    RegroupsUnique(p, d, e);
  }

  lemma TypoDetected(p: seq<byte>, q: seq<byte>, s: string, t: string, k: nat)
    requires IsNpub(p, s) && IsNpub(q, t) && |s| == |t| && k + 11 <= |s|
    requires forall i | 0 <= i < |s| && !(5 + k <= i < 11 + k) :: s[i] == t[i]
    ensures p == q
  {
    var d :| Regroups(p, d) && s == "npub1" + Letters(Body(d));
    var e :| Regroups(q, e) && t == "npub1" + Letters(Body(e));
    assert |d| == |e|;
    forall i | 0 <= i < |d| + 6 && !(k <= i < k + 6)
      ensures Body(d)[i] == Body(e)[i]
    {
      assert s[5 + i] == t[5 + i];
      TextAgrees(d, e, i);
    }
    BodiesFarApart(d, e, k);
    BodyInjective(d, e);
    RegroupsInjective(p, q, d);
  }
}
