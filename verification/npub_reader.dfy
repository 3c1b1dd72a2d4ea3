/** The npub text as another reader of BIP-173 takes it apart, from its characters alone. */
module NpubReader {
  import opened Bech32
  import opened Bech32Field
  import opened Bytes
  import opened Npub

  // The characters before the separator, expanded: their high bits, a zero, their low bits.
  function Expanded(h: string): seq<bv8> {
    seq(|h|, i requires 0 <= i < |h| => (h[i] as int / 32 % 256) as bv8) + [0]
    + seq(|h|, i requires 0 <= i < |h| => (h[i] as int % 32) as bv8)
  }

  // The text after the separator spells these symbols in the alphabet of BIP-173.
  predicate Spells(s: string, symbols: seq<bv8>) {
    && |s| == |symbols|
    && forall i | 0 <= i < |s| :: symbols[i] < 32 && s[i] == "qpzry9x8gf2tvdw0s3jn54khce6mua7l"[symbols[i] as int]
  }

  // A text with prefix, separator and symbols whose polynomial leaves the remainder 1; the symbols before
  // the last six are the bytes of the key, regrouped.
  ghost predicate Reads(s: string, symbols: seq<bv8>, pub: seq<byte>) {
    && |s| >= 11 && s[..4] == "npub" && s[4] == '1' && Spells(s[5..], symbols)
    && Closed(Expanded(s[..4]) + symbols)
    && Regroups(pub, DataOf(symbols))
  }

  // The symbols before the last six, as numbers.
  function DataOf(symbols: seq<bv8>): seq<nat>
    requires |symbols| >= 6
  {
    seq(|symbols| - 6, i requires 0 <= i < |symbols| - 6 => symbols[i] as nat)
  }

  lemma NpubReads(pub: seq<byte>, s: string) returns (symbols: seq<bv8>)
    requires IsNpub(pub, s)
    ensures Reads(s, symbols, pub)
  {
    var data :| Regroups(pub, data) && s == "npub1" + Letters(Body(data));
    symbols := Body(data);
    TextParts(Letters(symbols));
    LettersSpell(symbols);
    DataComesBack(data);
    BodyIsClosed(data);
  }

  lemma TextParts(t: string)
    ensures ("npub1" + t)[..4] == "npub" && ("npub1" + t)[4] == '1' && ("npub1" + t)[5..] == t
  {
  }

  lemma BodyIsClosed(data: seq<nat>)
    requires Digits(data, 32)
    ensures Closed(Expanded("npub") + Body(data))
  {
    ExpandedNpub();
    BodyCloses(data);
    PrefixIsWord();
    JoinedWord(PREFIX, Body(data));
    ClosedIsOne(PREFIX + Body(data));
  }

  lemma PrefixIsWord()
    ensures Word(PREFIX)
  {
  }

  lemma JoinedWord(v: seq<bv8>, w: seq<bv8>)
    requires Word(v) && Word(w)
    ensures Word(v + w)
  {
  }

  lemma LettersSpell(v: seq<bv8>)
    requires Word(v)
    ensures Spells(Letters(v), v)
  {
  }

  lemma DataComesBack(data: seq<nat>)
    requires Digits(data, 32)
    ensures DataOf(Body(data)) == data
  {
    var v := Body(data);
    forall i | 0 <= i < |data|
      ensures v[i] as nat == data[i]
    {
      NarrowExact(data[i]);
    }
  }

  lemma ExpandedNpub()
    ensures Expanded("npub") == PREFIX
  {
    assert 'n' as int == 110 && 'p' as int == 112 && 'u' as int == 117 && 'b' as int == 98;
  }
}
