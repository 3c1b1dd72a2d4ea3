/** Base64 (section 4 of RFC 4648): the library's block codec, and the padding rule around its decoder. */
module Base64 {
  import opened Bytes
  import opened Options

  // ----- one symbol

  function Symbol(v: nat): char
    requires v < 64
  {
    if v < 26 then 'A' + v as char
    else if v < 52 then 'a' + (v - 26) as char
    else if v < 62 then '0' + (v - 52) as char
    else if v == 62 then '+'
    else '/'
  }

  // The six bits of a symbol; the decoder reads the padding character as zero.
  function Meaning(c: char): (v: Option<nat>)
    ensures v.Some? ==> v.value < 64
  {
    if 'A' <= c <= 'Z' then Some((c - 'A') as nat)
    else if 'a' <= c <= 'z' then Some(26 + (c - 'a') as nat)
    else if '0' <= c <= '9' then Some(52 + (c - '0') as nat)
    else if c == '+' then Some(62)
    else if c == '/' then Some(63)
    else if c == '=' then Some(0)
    else None
  }

  lemma SymbolMeans(v: nat)
    requires v < 64
    ensures Meaning(Symbol(v)) == Some(v) && Symbol(v) != '=' && Symbol(v) != '#'
  {
  }

  // ----- one group of three bytes or four symbols

  function Group(a: byte, b: byte, c: byte): (s: string)
    ensures |s| == 4
  {
    [Symbol(a / 4), Symbol(a % 4 * 16 + b / 16), Symbol(b % 16 * 4 + c / 64), Symbol(c % 64)]
  }

  function Triple(p: nat, q: nat, r: nat, t: nat): (d: seq<byte>)
    requires p < 64 && q < 64 && r < 64 && t < 64
    ensures |d| == 3
  {
    [p * 4 + q / 16, q % 16 * 16 + r / 4, r % 4 * 64 + t]
  }

  function Ungroup(p: char, q: char, r: char, t: char): Option<seq<byte>> {
    if Meaning(p).Some? && Meaning(q).Some? && Meaning(r).Some? && Meaning(t).Some? then
      Some(Triple(Meaning(p).value, Meaning(q).value, Meaning(r).value, Meaning(t).value))
    else None
  }

  lemma TripleOfGroup(a: byte, b: byte, c: byte)
    ensures Triple(a / 4, a % 4 * 16 + b / 16, b % 16 * 4 + c / 64, c % 64) == [a, b, c]
  {
    assert (a % 4 * 16 + b / 16) / 16 == a % 4 && (a % 4 * 16 + b / 16) % 16 == b / 16;
    assert (b % 16 * 4 + c / 64) / 4 == b % 16 && (b % 16 * 4 + c / 64) % 4 == c / 64;
  }

  predicate Plain(s: string) {
    |s| == 4 && s[0] != '=' && s[1] != '=' && s[2] != '=' && s[3] != '='
  }

  lemma GroupIsPlain(a: byte, b: byte, c: byte)
    ensures Plain(Group(a, b, c))
  {
    SymbolMeans(a / 4);
    SymbolMeans(a % 4 * 16 + b / 16);
    SymbolMeans(b % 16 * 4 + c / 64);
    SymbolMeans(c % 64);
  }

  // A group of symbols decodes to its three bytes.
  lemma GroupDecodes(a: byte, b: byte, c: byte)
    ensures var g := Group(a, b, c); Ungroup(g[0], g[1], g[2], g[3]) == Some([a, b, c])
  {
    SymbolMeans(a / 4);
    SymbolMeans(a % 4 * 16 + b / 16);
    SymbolMeans(b % 16 * 4 + c / 64);
    SymbolMeans(c % 64);
    TripleOfGroup(a, b, c);
  }

  // ----- whole texts

  function Encode(d: seq<byte>): string {
    if d == [] then ""
    else if |d| == 1 then Group(d[0], 0, 0)[..2] + "=="
    else if |d| == 2 then Group(d[0], d[1], 0)[..3] + "="
    else Group(d[0], d[1], d[2]) + Encode(d[3..])
  }

  // The library's decoder first drops blanks in front, and blanks, line ends and its end mark behind,
  // as long as more than three characters are left.
  predicate Blank(c: char) {
    c == ' ' || c == '\t'
  }

  predicate Loose(c: char) {
    Blank(c) || c == '\n' || c == '\r' || c == '-'
  }

  function TrimStart(s: string): string {
    if s != [] && Blank(s[0]) then TrimStart(s[1..]) else s
  }

  function TrimEnd(s: string): string {
    if |s| > 3 && Loose(s[|s| - 1]) then TrimEnd(s[..|s| - 1]) else s
  }

  // The block decoder: three bytes for every four symbols, padding included.
  function DecodeBlock(s: string): Option<seq<byte>> {
    if s == [] then Some([])
    else if |s| < 4 then None
    else
      var first, rest := Ungroup(s[0], s[1], s[2], s[3]), DecodeBlock(s[4..]);
      if first.Some? && rest.Some? then Some(first.value + rest.value) else None
  }

  function TrailingEquals(s: string): nat {
    if s != [] && s[|s| - 1] == '=' then 1 + TrailingEquals(s[..|s| - 1]) else 0
  }

  // What b64d makes of a text: the blocks of the trimmed text without the bytes that padding stands for.
  function Decoded(s: string): Option<seq<byte>> {
    var d := DecodeBlock(TrimEnd(TrimStart(s)));
    if d.None? || |d.value| < TrailingEquals(s) then None else Some(d.value[..|d.value| - TrailingEquals(s)])
  }

  // b64d
  method Decode(s: string) returns (out: Option<seq<byte>>)
    ensures out == Decoded(s)
  {
    var o := DecodeBlock(TrimEnd(TrimStart(s)));
    if o.None? {
      return None;
    }
    var l: int, n := |o.value|, |s|;
    assert s[..|s|] == s;
    while n > 0 && s[n - 1] == '='
      invariant 0 <= n <= |s| && |o.value| - l + TrailingEquals(s[..n]) == TrailingEquals(s)
    {
      assert s[..n][..n - 1] == s[..n - 1];
      l := l - 1;
      n := n - 1;
    }
    assert TrailingEquals(s[..n]) == 0;
    if l < 0 {
      return None;
    }
    return Some(o.value[..l]);
  }

  // ----- the round trip

  function Filling(n: nat): nat {
    (3 - n % 3) % 3
  }

  lemma Equals1(s: string)
    requires s != [] && s[|s| - 1] != '='
    ensures TrailingEquals(s + "=") == 1
  {
    assert (s + "=")[..|s|] == s;
  }

  lemma Equals2(s: string)
    requires s != [] && s[|s| - 1] != '='
    ensures TrailingEquals(s + "==") == 2
  {
    Equals1(s);
    assert (s + "==")[..|s| + 1] == s + "=";
  }

  lemma {:induction false} EqualsSuffix(p: string, s: string)
    requires p != [] && p[|p| - 1] != '='
    ensures TrailingEquals(p + s) == TrailingEquals(s)
    decreases |s|
  {
    if s == [] {
      assert p + s == p;
    } else if s[|s| - 1] == '=' {
      EqualsSuffix(p, s[..|s| - 1]);
      assert (p + s)[..|p + s| - 1] == p + s[..|s| - 1];
    }
  }

  lemma {:induction false} EncodedEquals(d: seq<byte>)
    ensures TrailingEquals(Encode(d)) == Filling(|d|)
  {
    if |d| == 1 {
      GroupIsPlain(d[0], 0, 0);
      Equals2(Group(d[0], 0, 0)[..2]);
    } else if |d| == 2 {
      GroupIsPlain(d[0], d[1], 0);
      Equals1(Group(d[0], d[1], 0)[..3]);
    } else if |d| >= 3 {
      EncodedEquals(d[3..]);
      MoreEquals(d);
    }
  }

  lemma EncodeMore(d: seq<byte>)
    requires |d| >= 3
    ensures Encode(d) == Group(d[0], d[1], d[2]) + Encode(d[3..])
  {
  }

  lemma FillingMore(n: nat)
    ensures Filling(n + 3) == Filling(n)
  {
  }

  lemma MoreEquals(d: seq<byte>)
    requires |d| >= 3
    ensures TrailingEquals(Encode(d)) == TrailingEquals(Encode(d[3..])) && Filling(|d|) == Filling(|d[3..]|)
  {
    EncodeMore(d);
    FillingMore(|d[3..]|);
    GroupIsPlain(d[0], d[1], d[2]);
    EqualsSuffix(Group(d[0], d[1], d[2]), Encode(d[3..]));
  }

  lemma {:induction false} DecodeEncode(d: seq<byte>)
    ensures DecodeBlock(Encode(d)) == Some(d + Zeros(Filling(|d|)))
  {
    if d == [] {
      assert d + Zeros(0) == [];
    } else if |d| == 1 {
      assert d == [d[0]];
      DecodeOne(d, d[0]);
    } else if |d| == 2 {
      assert d == [d[0], d[1]];
      DecodeTwo(d, d[0], d[1]);
    } else {
      DecodeEncode(d[3..]);
      FillingMore(|d[3..]|);
      DecodeMore(d, Zeros(Filling(|d[3..]|)));
    }
  }

  lemma DecodeOne(d: seq<byte>, a: byte)
    requires d == [a]
    ensures DecodeBlock(Encode(d)) == Some(d + Zeros(Filling(|d|)))
  {
    EncodedOne(a);
    FilledOne(a);
  }

  lemma FilledOne(a: byte)
    ensures [a] + Zeros(Filling(1)) == [a, 0, 0]
  {
  }

  lemma EncodedOne(a: byte)
    ensures DecodeBlock(Encode([a])) == Some([a, 0, 0])
  {
    GroupDecodes(a, 0, 0);
    ZeroSymbol();
    LastGroup(Encode([a]), [a, 0, 0]);
  }

  lemma DecodeTwo(d: seq<byte>, a: byte, b: byte)
    requires d == [a, b]
    ensures DecodeBlock(Encode(d)) == Some(d + Zeros(Filling(|d|)))
  {
    EncodedTwo(a, b);
    FilledTwo(a, b);
  }

  lemma FilledTwo(a: byte, b: byte)
    ensures [a, b] + Zeros(Filling(2)) == [a, b, 0]
  {
  }

  lemma EncodedTwo(a: byte, b: byte)
    ensures DecodeBlock(Encode([a, b])) == Some([a, b, 0])
  {
    GroupDecodes(a, b, 0);
    ZeroSymbol();
    LastGroup(Encode([a, b]), [a, b, 0]);
  }

  // The padding character stands for the symbol of zero.
  lemma ZeroSymbol()
    ensures Meaning('=') == Meaning(Symbol(0))
  {
  }

  lemma DecodeMore(d: seq<byte>, z: seq<byte>)
    requires |d| >= 3 && DecodeBlock(Encode(d[3..])) == Some(d[3..] + z)
    ensures DecodeBlock(Encode(d)) == Some(d + z)
  {
    EncodeMore(d);
    GroupDecodes(d[0], d[1], d[2]);
    DecodeConcat(Group(d[0], d[1], d[2]), Encode(d[3..]), [d[0], d[1], d[2]], d[3..] + z);
    FirstThree(d, z);
  }

  lemma FirstThree(d: seq<byte>, z: seq<byte>)
    requires |d| >= 3
    ensures [d[0], d[1], d[2]] + (d[3..] + z) == d + z
  {
  }

  lemma DecodeConcat(g: string, s: string, x: seq<byte>, y: seq<byte>)
    requires |g| == 4 && Ungroup(g[0], g[1], g[2], g[3]) == Some(x) && DecodeBlock(s) == Some(y)
    ensures DecodeBlock(g + s) == Some(x + y)
  {
    assert (g + s)[4..] == s;
  }

  lemma LastGroup(s: string, d: seq<byte>)
    requires |s| == 4 && Ungroup(s[0], s[1], s[2], s[3]) == Some(d)
    ensures DecodeBlock(s) == Some(d)
  {
    assert s[4..] == [];
    assert d + [] == d;
  }

  // Decoding undoes encoding.
  lemma RoundTrip(d: seq<byte>)
    ensures Decoded(Encode(d)) == Some(d)
  {
    DecodeEncode(d);
    EncodedEquals(d);
    NothingToTrim(d);
  }

  // An encoded text neither starts nor ends with anything that is dropped.
  lemma NothingToTrim(d: seq<byte>)
    ensures TrimEnd(TrimStart(Encode(d))) == Encode(d)
  {
    if d != [] {
      SymbolMeans(d[0] / 4);
      assert !Blank(Encode(d)[0]);
      EndsTight(d);
    }
  }

  lemma SymbolTight(v: nat)
    requires v < 64
    ensures !Loose(Symbol(v))
  {
  }

  lemma {:induction false} EndsTight(d: seq<byte>)
    requires d != []
    ensures Encode(d) != [] && !Loose(Encode(d)[|Encode(d)| - 1])
  {
    if |d| >= 3 {
      EncodeMore(d);
      SymbolTight(d[2] % 64);
      if |d| > 3 {
        EndsTight(d[3..]);
      }
    }
  }

  lemma {:induction false} EncodedLength(d: seq<byte>)
    ensures |Encode(d)| == (|d| + 2) / 3 * 4
  {
    if |d| >= 3 {
      EncodedLength(d[3..]);
      EncodeMore(d);
      assert (|d| + 2) / 3 == (|d| - 1) / 3 + 1;
    }
  }

  // No encoded text starts with the mark of an unsupported version.
  lemma EncodeStarts(d: seq<byte>)
    requires d != []
    ensures Encode(d) != "" && Encode(d)[0] != '#'
  {
    SymbolMeans(d[0] / 4);
  }

  // ----- the text, symbol by symbol

  // The alphabet of RFC 4648.
  const UPPER: string := "ABCDEFGHIJKLMNOPQRSTUVWXYZ"
  const LOWER: string := "abcdefghijklmnopqrstuvwxyz"
  const OTHERS: string := "0123456789+/"

  function Alphabet(): (s: string)
    ensures |s| == 64
  {
    UPPER + LOWER + OTHERS
  }

  lemma UpperAt(v: nat)
    requires v < 26
    ensures UPPER[v] == Symbol(v)
  {
    assert UPPER[v] as int == 65 + v;
  }

  lemma LowerAt(v: nat)
    requires v < 26
    ensures LOWER[v] == Symbol(26 + v)
  {
    assert LOWER[v] as int == 97 + v;
  }

  lemma OthersAt(v: nat)
    requires v < 12
    ensures OTHERS[v] == Symbol(52 + v)
  {
    assert OTHERS[v] as int == if v < 10 then 48 + v else if v == 10 then 43 else 47;
  }

  lemma SymbolIs(v: nat)
    requires v < 64
    ensures Symbol(v) == Alphabet()[v]
  {
    if v < 26 {
      UpperAt(v);
    } else if v < 52 {
      LowerAt(v - 26);
    } else {
      OthersAt(v - 52);
    }
  }

  // These four characters spell the number w in base 64.
  predicate Spells(s: string, w: nat) {
    && |s| == 4 && w < 0x100_0000
    && s[0] == Alphabet()[w / 262144] && s[1] == Alphabet()[w / 4096 % 64] && s[2] == Alphabet()[w / 64 % 64]
    && s[3] == Alphabet()[w % 64]
  }

  lemma GroupSpells(a: byte, b: byte, c: byte)
    ensures Spells(Group(a, b, c), (a as nat * 256 + b) * 256 + c)
  {
    SixBits(a, b, c);
    SymbolIs(a / 4);
    SymbolIs(a % 4 * 16 + b / 16);
    SymbolIs(b % 16 * 4 + c / 64);
    SymbolIs(c % 64);
  }

  lemma SixBits(a: nat, b: nat, c: nat)
    requires a < 256 && b < 256 && c < 256
    ensures var w := (a * 256 + b) * 256 + c;
            && w / 262144 == a / 4 && w / 4096 % 64 == a % 4 * 16 + b / 16
            && w / 64 % 64 == b % 16 * 4 + c / 64 && w % 64 == c % 64
  {
    var p, q, r, t := a / 4, a % 4 * 16 + b / 16, b % 16 * 4 + c / 64, c % 64;
    assert a == 4 * p + a % 4 && b == 16 * (b / 16) + b % 16 && c == 64 * (c / 64) + t;
    FourDigits(p, q, r, t);
  }

  lemma FourDigits(p: nat, q: nat, r: nat, t: nat)
    requires p < 64 && q < 64 && r < 64 && t < 64
    ensures var w := 262144 * p + 4096 * q + 64 * r + t;
            w / 262144 == p && w / 4096 % 64 == q && w / 64 % 64 == r && w % 64 == t
  {
    var w := 262144 * p + 4096 * q + 64 * r + t;
    assert w / 64 == 4096 * p + 64 * q + r;
    assert w / 4096 == 64 * p + q;
  }

  function Least(m: nat, n: nat): nat {
    if m <= n then m else n
  }

  // Every three bytes are encoded by themselves, and so are the bytes that are left.
  lemma EncodeChunks(d: seq<byte>, i: nat)
    requires 3 * i < |d|
    ensures 4 * i + 4 <= |Encode(d)| && (3 * i + 3 >= |d| ==> |Encode(d)| == 4 * i + 4)
    ensures Encode(d)[4 * i..4 * i + 4] == Encode(d[3 * i..Least(3 * i + 3, |d|)])
  {
    var rest := d[3 * i..];
    ChunksDropped(d, i);
    FirstChunk(rest);
    assert rest[..Least(3, |rest|)] == d[3 * i..Least(3 * i + 3, |d|)];
    assert Encode(d)[4 * i..4 * i + 4] == Encode(rest)[..4];
  }

  lemma {:induction false} ChunksDropped(d: seq<byte>, i: nat)
    requires 3 * i <= |d|
    ensures 4 * i <= |Encode(d)| && Encode(d)[4 * i..] == Encode(d[3 * i..])
    decreases i
  {
    if i == 0 {
      assert Encode(d)[0..] == Encode(d) && d[0..] == d;
    } else {
      ChunksDropped(d[3..], i - 1);
      EncodeMore(d);
      assert d[3..][3 * (i - 1)..] == d[3 * i..];
    }
  }

  lemma FirstChunk(d: seq<byte>)
    requires d != []
    ensures 4 <= |Encode(d)| && (|d| <= 3 ==> |Encode(d)| == 4)
    ensures Encode(d)[..4] == Encode(d[..Least(3, |d|)])
  {
    if |d| >= 3 {
      EncodeMore(d);
      EncodeMore(d[..3]);
      assert d[..3][3..] == [];
      assert |d| == 3 ==> d[3..] == [];
    } else {
      assert d[..|d|] == d;
    }
  }

  // Three bytes are four characters; fewer are filled up with zero bits and then with the padding character.
  lemma ChunkSpells(d: seq<byte>)
    requires 1 <= |d| <= 3
    ensures |Encode(d)| == 4
    ensures |d| == 3 ==> Spells(Encode(d), (d[0] as nat * 256 + d[1]) * 256 + d[2])
    ensures |d| == 2 ==> Encode(d)[3] == '=' && Spells(Encode(d)[..3] + "A", (d[0] as nat * 256 + d[1]) * 256)
    ensures |d| == 1 ==> Encode(d)[2..] == "==" && Spells(Encode(d)[..2] + "AA", d[0] as nat * 256 * 256)
  {
    if |d| == 3 {
      EncodeMore(d);
      assert d[3..] == [];
      GroupSpells(d[0], d[1], d[2]);
    } else if |d| == 2 {
      LastLetters(d[0], d[1]);
      assert Encode(d)[..3] + "A" == Group(d[0], d[1], 0);
      GroupSpells(d[0], d[1], 0);
    } else {
      LastLetters(d[0], 0);
      assert Encode(d)[..2] + "AA" == Group(d[0], 0, 0);
      GroupSpells(d[0], 0, 0);
    }
  }

  // What two or four zero bits at the end of a group are spelled as.
  lemma LastLetters(a: byte, b: byte)
    ensures Group(a, b, 0)[..3] + "A" == Group(a, b, 0) && Group(a, 0, 0)[..2] + "AA" == Group(a, 0, 0)
  {
    SymbolIs(0);
  }

  // ----- what is trimmed

  // Spaces and tabs in front, all of them.
  lemma {:induction false} TrimStartMeans(s: string) returns (n: nat)
    ensures n <= |s| && TrimStart(s) == s[n..] && forall i | 0 <= i < n :: s[i] == ' ' || s[i] == '\t'
    ensures n < |s| ==> s[n] != ' ' && s[n] != '\t'
  {
    if s != [] && Blank(s[0]) {
      var m := TrimStartMeans(s[1..]);
      n := m + 1;
    } else {
      n := 0;
    }
  }

  // Spaces, tabs, line ends and dashes behind, as long as more than three characters are left.
  lemma {:induction false} TrimEndMeans(s: string)
    ensures var n := |TrimEnd(s)|;
            && n <= |s| && TrimEnd(s) == s[..n] && (n < 3 ==> n == |s|)
            && (forall i | n <= i < |s| :: s[i] in " \t\n\r-") && (n > 3 ==> s[n - 1] !in " \t\n\r-")
    decreases |s|
  {
    LooseIs();
    if |s| > 3 && Loose(s[|s| - 1]) {
      TrimEndMeans(s[..|s| - 1]);
    }
  }

  lemma LooseIs()
    ensures forall c :: Loose(c) <==> c in " \t\n\r-"
  {
  }
}
