/** The formats of NIP-44 written out byte by byte: what a second implementation has to compute. */
module Nip44Format {
  import opened Bits
  import opened Bytes
  import opened Nip44
  import opened Nip44Padding

  // ----- HKDF-Expand, on its output alone (section 2.3 of RFC 5869)

  // What is hashed for block i, counted from 0: the block before it, the info, and the block's number.
  function Hashed(okm: seq<byte>, info: seq<byte>, i: nat): seq<byte>
    requires 32 * i <= |okm|
  {
    (if i == 0 then [] else okm[32 * (i - 1)..32 * i]) + info + [(i + 1) % 256]
  }

  lemma ExpandBlocks(c: Primitives, prk: seq<byte>, info: seq<byte>, len: nat, i: nat)
    requires Sized(c) && 32 * i < len
    ensures var okm := Expand(c, prk, info, len);
            var block := c.hmac(prk, Hashed(okm, info, i));
            if 32 * (i + 1) <= len then okm[32 * i..32 * (i + 1)] == block else okm[32 * i..] == block[..len - 32 * i]
  {
    var okm := Expand(c, prk, info, len);
    LinkBlock(c, prk, info, len, i + 1);
    if i > 0 {
      LinkBlock(c, prk, info, len, i);
    }
  }

  lemma LinkBlock(c: Primitives, prk: seq<byte>, info: seq<byte>, len: nat, n: nat)
    requires Sized(c) && n > 0 && 32 * (n - 1) < len
    ensures var okm, t := Expand(c, prk, info, len), Link(c, prk, info, n);
            if 32 * n <= len then okm[32 * (n - 1)..32 * n] == t else okm[32 * (n - 1)..] == t[..len - 32 * (n - 1)]
  {
    ChainLength(c, prk, info, n - 1);
    ChainLength(c, prk, info, n);
    ChainLength(c, prk, info, Links(len));
    ChainPrefix(c, prk, info, n, Links(len));
    var whole := Chain(c, prk, info, Links(len));
    assert whole[..32 * n] == Chain(c, prk, info, n - 1) + Link(c, prk, info, n);
    assert whole[32 * (n - 1)..32 * n] == Link(c, prk, info, n);
    if len < 32 * n {
      assert whole[..len][32 * (n - 1)..] == whole[32 * (n - 1)..32 * n][..len - 32 * (n - 1)];
    } else {
      assert whole[..len][32 * (n - 1)..32 * n] == whole[32 * (n - 1)..32 * n];
    }
  }

  // ----- the padded text

  lemma HeaderMeans(len: nat)
    requires 0 < len <= MAX_PLAINTEXT
    ensures len < 65536 ==> |Header(len)| == 2 && Header(len)[0] as nat * 256 + Header(len)[1] == len
    ensures len >= 65536 ==> |Header(len)| == 6 && Header(len)[0] == Header(len)[1] == 0
                             && ((Header(len)[2] as nat * 256 + Header(len)[3]) * 256 + Header(len)[4]) * 256
                                + Header(len)[5] == len
  {
    if len < 65536 {
      Split16(len);
    } else {
      Split32(len);
    }
  }

  // Up to 32 bytes are padded to 32; above, a length between two powers of two to the next multiple of an
  // eighth of the greater one, or of 32.
  lemma PaddedMeans(len: nat, k: nat) returns (grain: nat, q: nat)
    ensures len <= 32 ==> PaddedLen(len) == 32
    ensures len > 32 && Pow2(k) < len <= Pow2(k + 1) ==>
              && (if Pow2(k + 1) <= 256 then grain == 32 else 8 * grain == Pow2(k + 1))
              && PaddedLen(len) == grain * q && len <= PaddedLen(len) < len + grain
  {
    grain, q := 0, 0;
    if len > 32 && Pow2(k) < len <= Pow2(k + 1) {
      Log2Unique(len - 1, k);
      grain := Chunk(len);
      q := (len - 1) / grain + 1;
      RoundUpBounds(len, grain);
      if Pow2(k + 1) > 256 {
        EightDivides(k + 1);
      }
    }
  }

  lemma EightDivides(k: nat)
    requires Pow2(k) > 256
    ensures 8 * (Pow2(k) / 8) == Pow2(k)
  {
    if k < 3 {
      Pow2Monotone(k, 3);
    } else {
      Pow2Add(3, k - 3);
    }
  }

  // ----- the payload

  // The raw payload of a text: what is hashed under which key, and every byte of the result.
  ghost predicate OnWire(c: Primitives, shared: seq<byte>, nonce: seq<byte>, plain: seq<byte>, raw: seq<byte>)
    requires Sized(c) && 1 <= |plain| <= MAX_PLAINTEXT
  {
    var conv := c.hmac([110, 105, 112, 52, 52, 45, 118, 50], shared);   // "nip44-v2"
    var t1 := c.hmac(conv, nonce + [1]);
    var t2 := c.hmac(conv, t1 + nonce + [2]);
    var t3 := c.hmac(conv, t2 + nonce + [3]);
    var head := if |plain| < 65536 then 2 else 6;
    var body := head + PaddedLen(|plain|);
    && |raw| == 1 + |nonce| + body + 32 && raw[0] == 2 && raw[1..1 + |nonce|] == nonce
    && raw[1 + |nonce| + body..] == c.hmac(t2[12..] + t3[..12], raw[1..1 + |nonce| + body])
    && forall i | 0 <= i < body ::
         var key := c.block(t1, i / 64, t2[..12])[i % 64];
         raw[1 + |nonce| + i] == XorByte(PaddedByte(plain, i), key)
  }

  lemma SealedOnWire(c: Primitives, shared: seq<byte>, nonce: seq<byte>, plain: seq<byte>)
    requires Sized(c) && 1 <= |plain| <= MAX_PLAINTEXT
    ensures OnWire(c, shared, nonce, plain, Sealed(c, ConversationKey(c, shared), nonce, plain))
  {
    var conv := ConversationKey(c, shared);
    var k, padded := MessageKeys(c, conv, nonce), Padded(plain);
    var cipher := Stream(c, k.cipher, k.nonce, padded);
    var raw := Sealed(c, conv, nonce, plain);
    KeysAre(c, conv, nonce);
    PaddedCovers(|plain|);
    PaddedSmall(|plain|);
    Framed(nonce, cipher, c.hmac(k.mac, nonce + cipher), raw);
    forall i | 0 <= i < |cipher|
      ensures raw[1 + |nonce| + i] == XorByte(PaddedByte(plain, i), c.block(k.cipher, i / 64, k.nonce)[i % 64])
    {
      CipherAt(c, k.cipher, k.nonce, padded, i);
      PaddedAt(plain, i);
    }
    assert |cipher| == (if |plain| < 65536 then 2 else 6) + PaddedLen(|plain|);
  }

  // Byte i of a stream is mixed with byte i % 64 of block i / 64, counted in 32 bits.
  lemma StreamAt(c: Primitives, key: seq<byte>, nonce: seq<byte>, data: seq<byte>, i: nat)
    requires Sized(c) && i < |data|
    ensures Stream(c, key, nonce, data)[i] == XorByte(data[i], c.block(key, i / 64 % 4294967296, nonce)[i % 64])
  {
  }

  lemma CipherAt(c: Primitives, key: seq<byte>, nonce: seq<byte>, data: seq<byte>, i: nat)
    requires Sized(c) && i < |data| && |data| < 0x10_0000
    ensures Stream(c, key, nonce, data)[i] == XorByte(data[i], c.block(key, i / 64, nonce)[i % 64])
  {
    SmallCounter(i);
  }

  function PaddedByte(plain: seq<byte>, i: nat): byte
    requires |plain| <= MAX_PLAINTEXT
  {
    var head := if |plain| < 65536 then 2 else 6;
    if i < head then Header(|plain|)[i] else if i < head + |plain| then plain[i - head] else 0
  }

  lemma PaddedAt(plain: seq<byte>, i: nat)
    requires |plain| <= MAX_PLAINTEXT && i < |Padded(plain)|
    ensures Padded(plain)[i] == PaddedByte(plain, i)
  {
  }

  lemma Framed(nonce: seq<byte>, cipher: seq<byte>, mac: seq<byte>, raw: seq<byte>)
    requires raw == [2] + nonce + cipher + mac
    ensures raw[0] == 2 && raw[1..1 + |nonce|] == nonce && raw[1..1 + |nonce| + |cipher|] == nonce + cipher
    ensures raw[1 + |nonce| + |cipher|..] == mac
    ensures forall i | 0 <= i < |cipher| :: raw[1 + |nonce| + i] == cipher[i]
  {
  }

  lemma KeysAre(c: Primitives, conv: seq<byte>, nonce: seq<byte>)
    requires Sized(c)
    ensures var t1 := c.hmac(conv, nonce + [1]);
            var t2 := c.hmac(conv, t1 + nonce + [2]);
            var t3 := c.hmac(conv, t2 + nonce + [3]);
            MessageKeys(c, conv, nonce) == Keys(t1, t2[..12], t2[12..] + t3[..12])
  {
    var okm := Expand(c, conv, nonce, 76);
    ExpandBlocks(c, conv, nonce, 76, 0);
    ExpandBlocks(c, conv, nonce, 76, 1);
    ExpandBlocks(c, conv, nonce, 76, 2);
    assert Hashed(okm, nonce, 0) == nonce + [1];
    assert okm[32..44] == okm[32..64][..12];
    assert okm[44..] == okm[32..64][12..] + okm[64..];
  }

  // The block counter never wraps within a message.
  lemma SmallCounter(i: nat)
    requires i < 0x10_0000
    ensures Counter32(i / 64) == i / 64
  {
  }

  lemma PaddedSmall(len: nat)
    requires 0 < len <= MAX_PLAINTEXT
    ensures 6 + PaddedLen(len) < 0x10_0000
  {
    PaddedWaste(len);
  }
}
