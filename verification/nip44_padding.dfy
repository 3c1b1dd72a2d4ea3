/** The padding of NIP-44 version 2: padded lengths, and the header that carries the length. */
module Nip44Padding {
  import opened Bits
  import opened Bytes
  import opened Options

  const MAX_PLAINTEXT: nat := 262144

  // ----- the padded length

  function Log2(x: nat): (r: nat)
  {
    if x <= 1 then 0 else 1 + Log2(x / 2)
  }

  lemma {:induction false} Log2Brackets(x: nat)
    requires x > 0
    ensures Pow2(Log2(x)) <= x < Pow2(Log2(x) + 1)
  {
    if x > 1 {
      Log2Brackets(x / 2);
    }
  }

  // The bracket of x is its only one.
  lemma {:induction false} Log2Unique(x: nat, k: nat)
    requires Pow2(k) <= x < Pow2(k + 1)
    ensures Log2(x) == k
  {
    if k == 0 {
    } else {
      Log2Unique(x / 2, k - 1);
    }
  }

  method FloorLog2(x0: nat) returns (r: nat)
    ensures r == Log2(x0)
  {
    var x := x0;
    r := 0;
    x := x / 2;
    while x != 0
      invariant Log2(x0) == if x == 0 then r else r + 1 + Log2(x)
    {
      r := r + 1;
      x := x / 2;
    }
  }

  // The grain to which a length above 32 is rounded up.
  function Chunk(len: nat): (c: nat)
    requires len > 1
    ensures c > 0
  {
    var next := Pow2(Log2(len - 1) + 1);
    if next <= 256 then 32 else next / 8
  }

  function RoundUp(len: nat, c: nat): nat
    requires len > 0 && c > 0
  {
    c * ((len - 1) / c + 1)
  }

  function PaddedLen(len: nat): nat {
    if len <= 32 then 32 else RoundUp(len, Chunk(len))
  }

  // calc_padded_len
  method CalcPaddedLen(len: nat) returns (padded: nat)
    ensures padded == PaddedLen(len)
  {
    if len <= 32 {
      return 32;
    }
    var log := FloorLog2(len - 1);
    var next := Pow2(log + 1);
    var chunk := if next <= 256 then 32 else next / 8;
    ghost var c := Chunk(len);
    assert chunk == c;
    padded := chunk * ((len - 1) / chunk + 1);
  }

  // ----- rounding up

  lemma RoundUpBounds(len: nat, c: nat)
    requires len > 0 && c > 0
    ensures len <= RoundUp(len, c) < len + c
  {
    var q := (len - 1) / c;
    assert len - 1 == c * q + (len - 1) % c;
  }

  // No multiple of c lies between a length and its rounding.
  lemma RoundUpLeast(len: nat, c: nat, m: nat)
    requires len > 0 && c > 0 && len <= c * m
    ensures RoundUp(len, c) <= c * m
  {
    var q := (len - 1) / c;
    assert len - 1 == c * q + (len - 1) % c;
    MulOrder(c, m, q);
    MulOrder(c, q + 1, m);
  }

  lemma RoundUpFixed(m: nat, c: nat)
    requires m > 0 && c > 0
    ensures c * m > 0 && RoundUp(c * m, c) == c * m
  {
    MulOrder(c, 1, m);
    RoundUpLeast(c * m, c, m);
    RoundUpBounds(c * m, c);
  }

  lemma RoundUpMonotone(a: nat, b: nat, c: nat)
    requires 0 < a <= b && c > 0
    ensures RoundUp(a, c) <= RoundUp(b, c)
  {
    RoundUpBounds(b, c);
    RoundUpLeast(a, c, (b - 1) / c + 1);
  }

  // ----- the brackets of length 2^k

  // len lies above 2^k and not above 2^(k+1).
  ghost predicate Bracket(len: nat, k: nat) {
    Pow2(k) < len <= Pow2(k + 1)
  }

  // The grain exponent of a bracket.
  function Grain(k: nat): (g: nat)
    requires k >= 5
    ensures g <= k
  {
    if k <= 7 then 5 else k - 2
  }

  lemma BracketOf(len: nat)
    requires len > 32
    ensures Bracket(len, Log2(len - 1)) && Log2(len - 1) >= 5
  {
    Log2Brackets(len - 1);
    if Log2(len - 1) < 5 {
      Pow2Monotone(Log2(len - 1) + 1, 5);
    }
  }

  lemma ChunkOf(len: nat, k: nat)
    requires k >= 5 && Bracket(len, k)
    ensures len > 32 && Chunk(len) == Pow2(Grain(k)) && PaddedLen(len) == RoundUp(len, Pow2(Grain(k)))
  {
    Log2Unique(len - 1, k);
    Pow2Monotone(5, k);
    if k <= 7 {
      Pow2Monotone(k + 1, 8);
    } else {
      Pow2Monotone(9, k + 1);
      assert Pow2(k + 1) == 8 * Pow2(k - 2);
    }
  }

  // The end of a bracket is a multiple of its grain.
  lemma BracketEnds(k: nat)
    requires k >= 5
    ensures Pow2(k + 1) == Pow2(Grain(k)) * Pow2(k + 1 - Grain(k))
  {
    Pow2Add(Grain(k), k + 1 - Grain(k));
  }

  // A padded length stays in its bracket.
  lemma PaddedInBracket(len: nat, k: nat)
    requires k >= 5 && Bracket(len, k)
    ensures Bracket(PaddedLen(len), k)
  {
    ChunkOf(len, k);
    BracketEnds(k);
    RoundUpBounds(len, Pow2(Grain(k)));
    RoundUpLeast(len, Pow2(Grain(k)), Pow2(k + 1 - Grain(k)));
  }

  // ----- what callers rely on

  lemma PaddedCovers(len: nat)
    ensures PaddedLen(len) >= len && PaddedLen(len) >= 32
  {
    if len > 32 {
      RoundUpBounds(len, Chunk(len));
    }
  }

  // Padding wastes less than 32 bytes, or less than a quarter of the text.
  lemma PaddedWaste(len: nat)
    requires len > 0
    ensures PaddedLen(len) - len < 32 || 4 * (PaddedLen(len) - len) < len
  {
    if len > 32 {
      var k := Log2(len - 1);
      BracketOf(len);
      ChunkOf(len, k);
      RoundUpBounds(len, Pow2(Grain(k)));
      if k > 7 {
        assert Pow2(k) == 4 * Pow2(k - 2);
      } else {
        assert Pow2(5) == 32;
      }
    }
  }

  lemma PaddedIdempotent(len: nat)
    ensures PaddedLen(PaddedLen(len)) == PaddedLen(len)
  {
    if len > 32 {
      var k := Log2(len - 1);
      BracketOf(len);
      ChunkOf(len, k);
      PaddedInBracket(len, k);
      ChunkOf(PaddedLen(len), k);
      RoundUpFixed((len - 1) / Pow2(Grain(k)) + 1, Pow2(Grain(k)));
    }
  }

  lemma PaddedMonotone(a: nat, b: nat)
    requires a <= b
    ensures PaddedLen(a) <= PaddedLen(b)
  {
    PaddedCovers(b);
    if a > 32 {
      var k, l := Log2(a - 1), Log2(b - 1);
      BracketOf(a);
      BracketOf(b);
      ChunkOf(a, k);
      if k == l {
        ChunkOf(b, k);
        RoundUpMonotone(a, b, Pow2(Grain(k)));
      } else {
        Apart(a, b, k, l);
        PaddedInBracket(a, k);
      }
    }
  }

  lemma Apart(a: nat, b: nat, k: nat, l: nat)
    requires a <= b && k != l && Bracket(a, k) && Bracket(b, l)
    ensures Pow2(k + 1) < b
  {
    if k < l {
      Pow2Monotone(k + 1, l);
    } else {
      Pow2Monotone(l + 1, k);
    }
  }

  // ----- the header

  // The length prefix: two bytes, or six with a zero marker from 65536 on.
  function Header(len: nat): (h: seq<byte>)
    requires len < 0x1_0000_0000
    ensures |h| == if len >= 65536 then 6 else 2
  {
    if len >= 65536 then [0, 0, len / 0x100_0000 % 256, len / 0x1_0000 % 256, len / 0x100 % 256, len % 256]
    else [len / 256 % 256, len % 256]
  }

  // nip44_pad: the header, the text, and zeros up to the padded length.
  method Pad(plain: seq<byte>) returns (out: Option<seq<byte>>)
    ensures out.Some? <==> 1 <= |plain| <= 262144
    ensures out.Some? ==> out.value == Padded(plain)
  {
    var len := |plain|;
    if len < 1 || len > MAX_PLAINTEXT {
      return None;
    }
    var padded := CalcPaddedLen(len);
    PaddedCovers(len);
    var prefix := if len >= 65536 then 6 else 2;
    var buf := new byte[prefix + padded](_ => 0);
    if prefix == 2 {
      buf[0] := len / 256 % 256;
      buf[1] := len % 256;
    } else {
      buf[2], buf[3] := len / 0x100_0000 % 256, len / 0x1_0000 % 256;
      buf[4], buf[5] := len / 0x100 % 256, len % 256;
    }
    forall i | 0 <= i < len {
      buf[prefix + i] := plain[i];
    }
    assert buf[..prefix] == Header(len);
    assert buf[prefix..prefix + len] == plain;
    assert buf[prefix + len..] == Zeros(padded - len);
    assert buf[..] == buf[..prefix] + buf[prefix..prefix + len] + buf[prefix + len..];
    out := Some(buf[..]);
  }

  function Padded(plain: seq<byte>): seq<byte>
    requires |plain| <= MAX_PLAINTEXT
  {
    PaddedCovers(|plain|);
    Header(|plain|) + plain + Zeros(PaddedLen(|plain|) - |plain|)
  }

  // What unpad accepts: header, text, and any filling of the right length.
  ghost predicate Carries(b: seq<byte>, plain: seq<byte>) {
    && 1 <= |plain| <= MAX_PLAINTEXT
    && |b| == |Header(|plain|)| + PaddedLen(|plain|)
    && Header(|plain|) + plain <= b
  }

  function Word16(a: nat, b: nat): nat {
    a * 0x100 + b
  }

  function Word32(a: nat, b: nat, c: nat, d: nat): nat {
    a * 0x100_0000 + b * 0x1_0000 + c * 0x100 + d
  }

  // The length that a header announces, and the size of the header; no length if the form is not allowed.
  function Announced(b: seq<byte>): (nat, nat)
    requires |b| >= 6
  {
    if Word16(b[0], b[1]) != 0 then (Word16(b[0], b[1]), 2)
    else
      var len := Word32(b[2], b[3], b[4], b[5]);
      (if len < 65536 then 0 else len, 6)
  }

  // A header announces its length ...
  lemma HeaderAnnounces(b: seq<byte>, len: nat)
    requires 0 < len < 0x1_0000_0000 && |b| >= 6 && Header(len) <= b
    ensures Announced(b) == (len, |Header(len)|)
  {
    var h := Header(len);
    assert b[0] == h[0] && b[1] == h[1];
    if len >= 65536 {
      assert b[2] == h[2] && b[3] == h[3] && b[4] == h[4] && b[5] == h[5];
      Split32(len);
    } else {
      Split16(len);
    }
  }

  lemma Split16(len: nat)
    requires len < 0x1_0000
    ensures Word16(len / 256 % 256, len % 256) == len
  {
  }

  lemma Split32(len: nat)
    requires len < 0x1_0000_0000
    ensures Word32(len / 0x100_0000 % 256, len / 0x1_0000 % 256, len / 0x100 % 256, len % 256) == len
  {
    assert len / 0x100 == len / 0x1_0000 * 256 + len / 0x100 % 256;
    assert len / 0x1_0000 == len / 0x100_0000 * 256 + len / 0x1_0000 % 256;
  }

  // ... and nothing else does.
  lemma AnnouncedIsHeader(b: seq<byte>)
    requires |b| >= 6 && Announced(b).0 > 0
    ensures Announced(b).0 < 0x1_0000_0000 && Header(Announced(b).0) == b[..Announced(b).1]
  {
    if Word16(b[0], b[1]) == 0 {
      Bytes4(b[2], b[3], b[4], b[5]);
    }
  }

  lemma Bytes4(a: byte, b: byte, c: byte, d: byte)
    ensures Word32(a, b, c, d) < 0x1_0000_0000
    ensures Word32(a, b, c, d) / 0x100_0000 % 256 == a && Word32(a, b, c, d) / 0x1_0000 % 256 == b
    ensures Word32(a, b, c, d) / 0x100 % 256 == c && Word32(a, b, c, d) % 256 == d
  {
    Quotients4(a, b, c, d);
  }

  lemma Quotients4(a: byte, b: byte, c: byte, d: byte)
    ensures var w := Word32(a, b, c, d);
            w / 0x100 == (a * 0x100 + b) * 0x100 + c && w / 0x1_0000 == a * 0x100 + b && w / 0x100_0000 == a
  {
  }

  // nip44_unpad
  method Unpad(b: seq<byte>) returns (out: Option<seq<byte>>)
    ensures out.Some? ==> Carries(b, out.value)
    ensures out.None? ==> forall plain :: !Carries(b, plain)
  {
    NoShortCarrier(b);
    if |b| < 34 {
      return None;
    }
    CarriedLength(b);
    var len: nat, prefix: nat := Word16(b[0], b[1]), 2;
    if len == 0 {
      len, prefix := Word32(b[2], b[3], b[4], b[5]), 6;
      if len < 65536 {
        return None;
      }
    }
    if len < 1 || len > MAX_PLAINTEXT {
      return None;
    }
    var padded := CalcPaddedLen(len);
    PaddedCovers(len);
    if |b| != prefix + padded || prefix + len > |b| {
      return None;
    }
    Accepted(b, len, prefix);
    out := Some(b[prefix..prefix + len]);
  }

  lemma NoShortCarrier(b: seq<byte>)
    ensures |b| < 34 ==> forall plain :: !Carries(b, plain)
  {
    forall plain | Carries(b, plain)
      ensures |b| >= 34
    {
      PaddedCovers(|plain|);
    }
  }

  // Whatever b carries has the announced length.
  lemma CarriedLength(b: seq<byte>)
    requires |b| >= 34
    ensures forall plain | Carries(b, plain) ::
              Announced(b) == (|plain|, |Header(|plain|)|) && 1 <= |plain| <= MAX_PLAINTEXT
              && |b| == |Header(|plain|)| + PaddedLen(|plain|)
  {
    forall plain | Carries(b, plain)
      ensures Announced(b) == (|plain|, |Header(|plain|)|)
    {
      assert Header(|plain|) <= Header(|plain|) + plain;
      HeaderAnnounces(b, |plain|);
    }
  }

  lemma Accepted(b: seq<byte>, len: nat, prefix: nat)
    requires |b| >= 6 && Announced(b) == (len, prefix) && 1 <= len <= MAX_PLAINTEXT
    requires |b| == prefix + PaddedLen(len) && prefix + len <= |b|
    ensures Carries(b, b[prefix..prefix + len])
  {
    AnnouncedIsHeader(b);
    HeadAndBody(b, prefix, len);
  }

  lemma HeadAndBody(b: seq<byte>, prefix: nat, len: nat)
    requires prefix + len <= |b|
    ensures b[..prefix] + b[prefix..prefix + len] == b[..prefix + len]
  {
  }

  // Unpadding undoes padding ...
  lemma PaddedCarries(plain: seq<byte>)
    requires 1 <= |plain| <= MAX_PLAINTEXT
    ensures Carries(Padded(plain), plain)
  {
    PaddedCovers(|plain|);
  }

  // ... since a buffer carries at most one text.
  lemma CarriedUnique(b: seq<byte>, plain: seq<byte>, other: seq<byte>)
    requires Carries(b, plain) && Carries(b, other)
    ensures plain == other
  {
    NoShortCarrier(b);
    CarriedLength(b);
    AfterPrefix(Header(|plain|), plain, b);
    AfterPrefix(Header(|other|), other, b);
  }

  lemma AfterPrefix(h: seq<byte>, plain: seq<byte>, b: seq<byte>)
    requires h + plain <= b
    ensures plain == b[|h|..|h| + |plain|]
  {
    assert plain == (h + plain)[|h|..];
  }
}
