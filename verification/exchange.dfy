/** A message from one key holder to another: shared secret, encryption and decryption together. */
module Exchange {
  import Base64
  import opened Bytes
  import opened Nip44
  import opened Nip44Padding
  import opened Options
  import opened Schnorr
  import Secp256k1

  // What a encrypts for the public key of b, b opens with the public key of a: to that text and no other.
  lemma MessageArrives(c: Secp256k1.Curve, f: Primitives, a: seq<byte>, b: seq<byte>, pa: seq<byte>, pb: seq<byte>,
                       sent: seq<byte>, received: seq<byte>, nonce: seq<byte>, plain: seq<byte>, other: seq<byte>)
    requires Secp256k1.Valid(c) && Sized(f) && PublicKeyOf(c, a, pa) && PublicKeyOf(c, b, pb)
    requires Shares(c, a, pb, sent) && Shares(c, b, pa, received)
    requires |nonce| == 32 && 1 <= |plain| <= MAX_PLAINTEXT
    ensures Opens(f, ConversationKey(f, received), Base64.Encode(Sealed(f, ConversationKey(f, sent), nonce, plain)), other)
       <==> other == plain
  {
    var conv := ConversationKey(f, sent);
    var payload := Base64.Encode(Sealed(f, conv, nonce, plain));
    SharedAgrees(c, a, b, pa, pb, sent, received);
    SealedOpens(f, conv, nonce, plain);
    if Opens(f, conv, payload, other) {
      OpenedUnique(f, conv, payload, plain, other);
    }
  }

  // The whole way: a agrees on a secret and encrypts, b agrees on it and decrypts. The text arrives up to
  // its first NUL byte, hence whole if it has none, and nothing is sent outside the admissible lengths.
  method Send(c: Secp256k1.Curve, f: Primitives, a: seq<byte>, b: seq<byte>, pa: seq<byte>, pb: seq<byte>,
              nonce: seq<byte>, plain: seq<byte>)
    returns (received: Option<seq<byte>>)
    requires Secp256k1.Valid(c) && Sized(f) && PublicKeyOf(c, a, pa) && PublicKeyOf(c, b, pb) && |nonce| == 32
    ensures received == if 1 <= |plain| <= MAX_PLAINTEXT then Some(CString(plain)) else None
    ensures 1 <= |plain| <= MAX_PLAINTEXT && (forall i | 0 <= i < |plain| :: plain[i] != 0) ==> received == Some(plain)
  {
    var sent := Ecdh(c, a, pb);
    SharedExists(c, a, b, pb);
    var payload := Encrypt(f, sent, nonce, plain);
    if payload.None? {
      return None;
    }
    var agreed := Ecdh(c, b, pa);
    SharedExists(c, b, a, pa);
    MessageArrives(c, f, a, b, pa, pb, sent.value, agreed.value, nonce, plain, plain);
    received := Decrypt(f, agreed, payload.value);
    ghost var other :| Opens(f, ConversationKey(f, agreed.value), payload.value, other) && received == Some(CString(other));
    MessageArrives(c, f, a, b, pa, pb, sent.value, agreed.value, nonce, plain, other);
    if forall i | 0 <= i < |plain| :: plain[i] != 0 {
      CStringWhole(plain);
    }
  }
}
