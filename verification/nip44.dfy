/** Version 2 of the payload encryption of NIP-44. The hash and the cipher's block function are parameters. */
module Nip44 {
  import Base64
  import opened Bytes
  import opened Nip44Padding
  import opened Options

  // hmac(key, message) and block(key, counter, nonce)
  datatype Primitives = Primitives(
    hmac: (seq<byte>, seq<byte>) -> seq<byte>,
    block: (seq<byte>, nat, seq<byte>) -> seq<byte>)

  ghost predicate Sized(c: Primitives) {
    && (forall key, message :: |c.hmac(key, message)| == 32)
    && (forall key, counter, nonce :: |c.block(key, counter, nonce)| == 64)
  }

  // ----- HKDF-Expand (section 2.3 of RFC 5869)

  // The counter is one byte.
  function Counter(n: nat): byte {
    n % 256
  }

  lemma NextCounter(n: nat, ctr: byte)
    requires ctr == Counter(n + 1)
    ensures Counter(ctr + 1) == Counter(n + 2)
  {
  }

  // T(n)
  function Link(c: Primitives, prk: seq<byte>, info: seq<byte>, n: nat): seq<byte> {
    if n == 0 then [] else c.hmac(prk, Link(c, prk, info, n - 1) + info + [Counter(n)])
  }

  // T(1) to T(n)
  function Chain(c: Primitives, prk: seq<byte>, info: seq<byte>, n: nat): seq<byte> {
    if n == 0 then [] else Chain(c, prk, info, n - 1) + Link(c, prk, info, n)
  }

  lemma {:induction false} ChainLength(c: Primitives, prk: seq<byte>, info: seq<byte>, n: nat)
    requires Sized(c)
    ensures |Chain(c, prk, info, n)| == 32 * n
  {
    if n != 0 {
      ChainLength(c, prk, info, n - 1);
    }
  }

  lemma {:induction false} ChainPrefix(c: Primitives, prk: seq<byte>, info: seq<byte>, m: nat, n: nat)
    requires m <= n
    ensures Chain(c, prk, info, m) <= Chain(c, prk, info, n)
  {
    if m < n {
      ChainPrefix(c, prk, info, m, n - 1);
    }
  }

  function Links(len: nat): nat {
    (len + 31) / 32
  }

  ghost function Expand(c: Primitives, prk: seq<byte>, info: seq<byte>, len: nat): (okm: seq<byte>)
    requires Sized(c)
    ensures |okm| == len
  {
    ChainLength(c, prk, info, Links(len));
    Chain(c, prk, info, Links(len))[..len]
  }

  // Longer outputs extend shorter ones.
  lemma ExpandPrefix(c: Primitives, prk: seq<byte>, info: seq<byte>, short: nat, long: nat)
    requires Sized(c) && short <= long
    ensures Expand(c, prk, info, short) == Expand(c, prk, info, long)[..short]
  {
    ChainLength(c, prk, info, Links(short));
    ChainLength(c, prk, info, Links(long));
    ChainPrefix(c, prk, info, Links(short), Links(long));
  }

  // After n links the first pos bytes are out.
  ghost predicate Filled(c: Primitives, prk: seq<byte>, info: seq<byte>, n: nat, s: seq<byte>, len: nat) {
    && |Chain(c, prk, info, n)| == 32 * n
    && |s| == (if 32 * n < len then 32 * n else len)
    && s == Chain(c, prk, info, n)[..|s|]
  }

  lemma FilledStep(c: Primitives, prk: seq<byte>, info: seq<byte>, n: nat, s: seq<byte>, len: nat, take: nat)
    requires Sized(c) && Filled(c, prk, info, n, s, len) && |s| < len
    requires take == if len - |s| < 32 then len - |s| else 32
    ensures |Link(c, prk, info, n + 1)| == 32 && Filled(c, prk, info, n + 1, s + Link(c, prk, info, n + 1)[..take], len)
  {
    ChainLength(c, prk, info, n + 1);
    assert |s| == 32 * n;
    var t := Link(c, prk, info, n + 1);
    assert Chain(c, prk, info, n + 1) == s + t;
    assert (s + t)[..32 * n + take] == s + t[..take];
  }

  lemma FilledAll(c: Primitives, prk: seq<byte>, info: seq<byte>, n: nat, s: seq<byte>)
    requires Sized(c) && Filled(c, prk, info, n, s, |s|)
    ensures s == Expand(c, prk, info, |s|)
  {
    ChainLength(c, prk, info, Links(|s|));
    ChainPrefix(c, prk, info, Links(|s|), n);
  }

  // hkdf_expand
  method HkdfExpand(c: Primitives, prk: seq<byte>, info: seq<byte>, out: array<byte>)
    requires Sized(c)
    modifies out
    ensures out[..] == Expand(c, prk, info, out.Length)
  {
    var t: seq<byte>, pos: nat, ctr: byte := [], 0, 1;
    ghost var n: nat := 0;
    while pos < out.Length
      invariant pos <= out.Length && ctr == Counter(n + 1)
      invariant t == Link(c, prk, info, n)
      invariant Filled(c, prk, info, n, out[..pos], out.Length)
    {
      NextCounter(n, ctr);
      t := c.hmac(prk, t + info + [ctr]);
      var take := if out.Length - pos < 32 then out.Length - pos else 32;
      FilledStep(c, prk, info, n, out[..pos], out.Length, take);
      Put(out, pos, t[..take]);
      assert out[..pos + take] == out[..pos] + out[pos..pos + take];
      pos := pos + take;
      ctr := Counter(ctr + 1);
      n := n + 1;
    }
    FilledAll(c, prk, info, n, out[..]);
  }

  // memcpy
  method Put(out: array<byte>, at: nat, s: seq<byte>)
    requires at + |s| <= out.Length
    modifies out
    ensures out[..at] == old(out[..at]) && out[at..at + |s|] == s
    ensures out[at + |s|..] == old(out[at + |s|..])
  {
    forall i | 0 <= i < |s| {
      out[at + i] := s[i];
    }
  }

  // ----- the stream cipher (section 2.4 of RFC 8439)

  const WORD: nat := 0x1_0000_0000

  // The block counter has 32 bits.
  function Counter32(n: nat): nat {
    n % WORD
  }

  // Byte i of the key stream.
  function Key(c: Primitives, key: seq<byte>, nonce: seq<byte>, i: nat): byte
    requires |c.block(key, Counter32(i / 64), nonce)| == 64
  {
    c.block(key, Counter32(i / 64), nonce)[i % 64]
  }

  ghost function Stream(c: Primitives, key: seq<byte>, nonce: seq<byte>, data: seq<byte>): (out: seq<byte>)
    requires Sized(c)
    ensures |out| == |data|
  {
    seq(|data|, i requires 0 <= i < |data| => XorByte(data[i], Key(c, key, nonce, i)))
  }

  // Applying the stream twice restores the data.
  lemma StreamInvolution(c: Primitives, key: seq<byte>, nonce: seq<byte>, data: seq<byte>)
    requires Sized(c)
    ensures Stream(c, key, nonce, Stream(c, key, nonce, data)) == data
  {
    var once := Stream(c, key, nonce, data);
    var twice := Stream(c, key, nonce, once);
    forall i | 0 <= i < |data|
      ensures twice[i] == data[i]
    {
      XorByteInvolution(data[i], Key(c, key, nonce, i));
    }
  }

  lemma NextCounter32(n: nat, ctr: nat)
    requires ctr == Counter32(n)
    ensures Counter32(ctr + 1) == Counter32(n + 1)
  {
  }

  lemma Extended(s: seq<byte>, t: seq<byte>, pos: nat, take: nat)
    requires pos + take <= |s| == |t| && s[..pos] == t[..pos] && s[pos..pos + take] == t[pos..pos + take]
    ensures s[..pos + take] == t[..pos + take]
  {
    assert s[..pos + take] == s[..pos] + s[pos..pos + take];
    assert t[..pos + take] == t[..pos] + t[pos..pos + take];
  }

  // chacha20_xor
  method ChachaXor(c: Primitives, key: seq<byte>, nonce: seq<byte>, data: seq<byte>, out: array<byte>)
    requires Sized(c) && out.Length == |data|
    modifies out
    ensures out[..] == Stream(c, key, nonce, data)
  {
    var ctr: nat, pos: nat := 0, 0;
    ghost var n: nat, stream := 0, Stream(c, key, nonce, data);
    while pos < |data|
      invariant pos <= |data| && (pos == 64 * n || pos == |data|) && ctr == Counter32(n)
      invariant out[..pos] == stream[..pos]
    {
      var block := c.block(key, ctr, nonce);
      var take := if |data| - pos < 64 then |data| - pos else 64;
      XorBlock(data[pos..pos + take], block, out, pos);
      BlockOfStream(c, key, nonce, data, n, take);
      Extended(out[..], stream, pos, take);
      NextCounter32(n, ctr);
      pos := pos + take;
      ctr := Counter32(ctr + 1);
      n := n + 1;
    }
    assert out[..pos] == out[..];
  }

  function Mixed(data: seq<byte>, block: seq<byte>): (out: seq<byte>)
    requires |data| <= |block|
    ensures |out| == |data|
  {
    seq(|data|, i requires 0 <= i < |data| => XorByte(data[i], block[i]))
  }

  method XorBlock(data: seq<byte>, block: seq<byte>, out: array<byte>, pos: nat)
    requires |data| <= |block| && pos + |data| <= out.Length
    modifies out
    ensures out[..pos] == old(out[..pos]) && out[pos..pos + |data|] == Mixed(data, block)
  {
    for i := 0 to |data|
      invariant out[..pos] == old(out[..pos])
      invariant out[pos..pos + i] == Mixed(data, block)[..i]
    {
      out[pos + i] := XorByte(data[i], block[i]);
    }
  }

  lemma BlockOfStream(c: Primitives, key: seq<byte>, nonce: seq<byte>, data: seq<byte>, n: nat, take: nat)
    requires Sized(c) && take <= 64 && 64 * n + take <= |data|
    ensures Stream(c, key, nonce, data)[64 * n..64 * n + take]
         == Mixed(data[64 * n..64 * n + take], c.block(key, Counter32(n), nonce))
  {
    var s, m := Stream(c, key, nonce, data), Mixed(data[64 * n..64 * n + take], c.block(key, Counter32(n), nonce));
    forall i | 0 <= i < take
      ensures s[64 * n + i] == m[i]
    {
      assert (64 * n + i) / 64 == n && (64 * n + i) % 64 == i;
    }
  }

  // ----- payloads

  datatype Keys = Keys(cipher: seq<byte>, nonce: seq<byte>, mac: seq<byte>)

  ghost function MessageKeys(c: Primitives, conv: seq<byte>, nonce: seq<byte>): Keys
    requires Sized(c)
  {
    var okm := Expand(c, conv, nonce, 76);
    Keys(okm[..32], okm[32..44], okm[44..])
  }

  // nip44_msg_keys
  method DeriveKeys(c: Primitives, conv: seq<byte>, nonce: seq<byte>) returns (k: Keys)
    requires Sized(c)
    ensures k == MessageKeys(c, conv, nonce)
  {
    var okm := new byte[76](_ => 0);
    HkdfExpand(c, conv, nonce, okm);
    k := Keys(okm[..][..32], okm[..][32..44], okm[..][44..]);
  }

  const SALT: seq<byte> := [0x6e, 0x69, 0x70, 0x34, 0x34, 0x2d, 0x76, 0x32]    // "nip44-v2"

  // nip44_conv_key: HKDF-Extract of the shared x coordinate.
  function ConversationKey(c: Primitives, shared: seq<byte>): seq<byte> {
    c.hmac(SALT, shared)
  }

  // Version, nonce, encrypted padded text, and the authentication code of the last two.
  ghost function Sealed(c: Primitives, conv: seq<byte>, nonce: seq<byte>, plain: seq<byte>): seq<byte>
    requires Sized(c) && |plain| <= MAX_PLAINTEXT
  {
    var k := MessageKeys(c, conv, nonce);
    var cipher := Stream(c, k.cipher, k.nonce, Padded(plain));
    [2] + nonce + cipher + c.hmac(k.mac, nonce + cipher)
  }

  // nip44_encrypt_raw, for the shared secret of the two parties.
  method Encrypt(c: Primitives, shared: Option<seq<byte>>, nonce: seq<byte>, plain: seq<byte>)
    returns (payload: Option<string>)
    requires Sized(c) && |nonce| == 32
    ensures payload.Some? <==> shared.Some? && 1 <= |plain| <= 262144
    ensures payload.Some? ==>
      payload.value == Base64.Encode(Sealed(c, ConversationKey(c, shared.value), nonce, plain))
  {
    if shared.None? {
      return None;
    }
    var k := DeriveKeys(c, ConversationKey(c, shared.value), nonce);
    var padded := Pad(plain);
    if padded.None? {
      return None;
    }
    var cipher := new byte[|padded.value|](_ => 0);
    ChachaXor(c, k.cipher, k.nonce, padded.value, cipher);
    var mac := c.hmac(k.mac, nonce + cipher[..]);
    payload := Some(Base64.Encode([2] + nonce + cipher[..] + mac));
  }

  // A raw payload taken apart.
  function Nonce(raw: seq<byte>): seq<byte>
    requires |raw| >= 99
  {
    raw[1..33]
  }

  function Cipher(raw: seq<byte>): seq<byte>
    requires |raw| >= 99
  {
    raw[33..|raw| - 32]
  }

  // The payload is of this version, authentic under the conversation key, and carries the text.
  ghost predicate Opens(c: Primitives, conv: seq<byte>, payload: string, plain: seq<byte>)
    requires Sized(c)
  {
    var raw := Base64.Decoded(payload);
    && (payload != "" ==> payload[0] != '#')
    && raw.Some? && |raw.value| >= 99 && raw.value[0] == 2
    && (var k := MessageKeys(c, conv, Nonce(raw.value));
        && raw.value[|raw.value| - 32..] == c.hmac(k.mac, Nonce(raw.value) + Cipher(raw.value))
        && Carries(Stream(c, k.cipher, k.nonce, Cipher(raw.value)), plain))
  }

  // What a reader of a NUL-terminated buffer sees.
  function CString(s: seq<byte>): seq<byte> {
    if s == [] || s[0] == 0 then [] else [s[0]] + CString(s[1..])
  }

  // nip44_decrypt_raw
  method Decrypt(c: Primitives, shared: Option<seq<byte>>, payload: string) returns (text: Option<seq<byte>>)
    requires Sized(c)
    ensures text.Some? ==> shared.Some?
    ensures text.Some? ==>
      exists plain :: Opens(c, ConversationKey(c, shared.value), payload, plain) && text.value == CString(plain)
    ensures text.None? && shared.Some? ==>
      forall plain :: !Opens(c, ConversationKey(c, shared.value), payload, plain)
  {
    if payload != "" && payload[0] == '#' {
      return None;
    }
    var decoded := Base64.Decode(payload);
    if decoded.None? || |decoded.value| < 99 || decoded.value[0] != 2 || shared.None? {
      return None;
    }
    var raw := decoded.value;
    var k := DeriveKeys(c, ConversationKey(c, shared.value), Nonce(raw));
    if raw[|raw| - 32..] != c.hmac(k.mac, Nonce(raw) + Cipher(raw)) {
      return None;
    }
    var padded := new byte[|raw| - 65](_ => 0);
    ChachaXor(c, k.cipher, k.nonce, Cipher(raw), padded);
    var plain := Unpad(padded[..]);
    if plain.None? {
      return None;
    }
    assert Opens(c, ConversationKey(c, shared.value), payload, plain.value);
    text := Some(CString(plain.value));
  }

  // ----- what the parties rely on

  // A payload opens to at most one text.
  lemma OpenedUnique(c: Primitives, conv: seq<byte>, payload: string, plain: seq<byte>, other: seq<byte>)
    requires Sized(c) && Opens(c, conv, payload, plain) && Opens(c, conv, payload, other)
    ensures plain == other
  {
    var raw := Base64.Decoded(payload).value;
    var k := MessageKeys(c, conv, Nonce(raw));
    CarriedUnique(Stream(c, k.cipher, k.nonce, Cipher(raw)), plain, other);
  }

  lemma SealedParts(c: Primitives, conv: seq<byte>, nonce: seq<byte>, plain: seq<byte>)
    requires Sized(c) && |nonce| == 32 && 1 <= |plain| <= MAX_PLAINTEXT
    ensures var raw, k := Sealed(c, conv, nonce, plain), MessageKeys(c, conv, nonce);
            |raw| >= 99 && raw[0] == 2 && Nonce(raw) == nonce
            && Cipher(raw) == Stream(c, k.cipher, k.nonce, Padded(plain))
            && raw[|raw| - 32..] == c.hmac(k.mac, nonce + Cipher(raw))
  {
    PaddedCovers(|plain|);
  }

  // Decryption undoes encryption, for every text of 1 to 262144 bytes.
  lemma SealedOpens(c: Primitives, conv: seq<byte>, nonce: seq<byte>, plain: seq<byte>)
    requires Sized(c) && |nonce| == 32 && 1 <= |plain| <= MAX_PLAINTEXT
    ensures Opens(c, conv, Base64.Encode(Sealed(c, conv, nonce, plain)), plain)
  {
    var raw, k := Sealed(c, conv, nonce, plain), MessageKeys(c, conv, nonce);
    SealedParts(c, conv, nonce, plain);
    Base64.RoundTrip(raw);
    Base64.EncodeStarts(raw);
    StreamInvolution(c, k.cipher, k.nonce, Padded(plain));
    PaddedCarries(plain);
  }

  lemma {:induction false} CStringWhole(s: seq<byte>)
    requires forall i | 0 <= i < |s| :: s[i] != 0
    ensures CString(s) == s
  {
    if s != [] {
      CStringWhole(s[1..]);
    }
  }

  // Texts of one padded length and header size have payloads of one length.
  lemma PayloadLength(c: Primitives, conv: seq<byte>, nonce: seq<byte>, plain: seq<byte>, other: seq<byte>)
    requires Sized(c) && 1 <= |plain| <= MAX_PLAINTEXT && 1 <= |other| <= MAX_PLAINTEXT
    requires PaddedLen(|plain|) == PaddedLen(|other|) && (|plain| < 65536 <==> |other| < 65536)
    ensures |Base64.Encode(Sealed(c, conv, nonce, plain))| == |Base64.Encode(Sealed(c, conv, nonce, other))|
  {
    SealedLength(c, conv, nonce, plain);
    SealedLength(c, conv, nonce, other);
    Base64.EncodedLength(Sealed(c, conv, nonce, plain));
    Base64.EncodedLength(Sealed(c, conv, nonce, other));
  }

  lemma SealedLength(c: Primitives, conv: seq<byte>, nonce: seq<byte>, plain: seq<byte>)
    requires Sized(c) && |plain| <= MAX_PLAINTEXT
    ensures |Sealed(c, conv, nonce, plain)| == 33 + |nonce| + |Header(|plain|)| + PaddedLen(|plain|)
  {
    PaddedCovers(|plain|);
  }
}
