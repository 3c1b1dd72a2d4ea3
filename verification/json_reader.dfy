/** Printed strings as any reader of RFC 8259 takes them (section 7). */
module JsonReader {
  import opened JsonText
  import opened Options

  // The value of a hexadecimal digit.
  function Hex(c: char): Option<nat> {
    if '0' <= c <= '9' then Some((c as int - 48) as nat)
    else if 'a' <= c <= 'f' then Some((c as int - 87) as nat)
    else if 'A' <= c <= 'F' then Some((c as int - 55) as nat)
    else None
  }

  // The code of the character that a letter after a backslash stands for.
  function Named(c: char): Option<nat> {
    if c == '"' then Some(0x22)           // quotation mark
    else if c == '\\' then Some(0x5C)     // reverse solidus
    else if c == '/' then Some(0x2F)      // solidus
    else if c == 'b' then Some(0x08)      // backspace
    else if c == 'f' then Some(0x0C)      // form feed
    else if c == 'n' then Some(0x0A)      // line feed
    else if c == 'r' then Some(0x0D)      // carriage return
    else if c == 't' then Some(0x09)      // tab
    else None
  }

  function Code(a: char, b: char, c: char, d: char): Option<nat> {
    match (Hex(a), Hex(b), Hex(c), Hex(d))
    case (Some(p), Some(q), Some(r), Some(s)) => Some(((p * 16 + q) * 16 + r) * 16 + s)
    case _ => None
  }

  // The codes of the characters of a string between its quotation marks; None where RFC 8259 allows no string.
  function Read(s: string): Option<seq<nat>> {
    if s == "" then Some([])
    else if s[0] == '\\' then
      if |s| < 2 then None
      else if s[1] == 'u' then
        if |s| < 6 then None else Join(Code(s[2], s[3], s[4], s[5]), Read(s[6..]))
      else Join(Named(s[1]), Read(s[2..]))
    else if s[0] == '"' || s[0] as int < 32 then None
    else Join(Some(s[0] as nat), Read(s[1..]))
  }

  function Join(c: Option<nat>, rest: Option<seq<nat>>): Option<seq<nat>> {
    if c.Some? && rest.Some? then Some([c.value] + rest.value) else None
  }

  function Codes(s: string): (v: seq<nat>)
    ensures |v| == |s|
  {
    seq(|s|, i requires 0 <= i < |s| => s[i] as nat)
  }

  lemma HexBack(d: nat)
    requires d < 16
    ensures Hex(HexDigit(d)) == Some(d)
  {
  }

  // One printed character reads back as its code.
  lemma ReadUnit(c: char, t: string)
    ensures Read(EscapeChar(c) + t) == Join(Some(c as nat), Read(t))
  {
    var u := EscapeChar(c);
    var s := u + t;
    assert s[|u|..] == t;
    if |u| == 2 {
      assert s[0] == u[0] && s[1] == u[1];
    } else if |u| == 6 {
      ReadControl(c, t);
    } else {
      assert u == [c];
    }
  }

  lemma ReadControl(c: char, t: string)
    requires |EscapeChar(c)| == 6
    ensures Read(EscapeChar(c) + t) == Join(Some(c as nat), Read(t))
  {
    var s := EscapeChar(c) + t;
    var n := c as int;
    assert s[6..] == t;
    HexBack(n / 16);
    HexBack(n % 16);
    assert s[0] == '\\' && s[1] == 'u' && s[2] == s[3] == '0' && s[4] == HexDigit(n / 16) && s[5] == HexDigit(n % 16);
    assert Code(s[2], s[3], s[4], s[5]) == Some(n);
  }

  // Every printed text reads back as itself, control characters and all.
  lemma {:induction false} PrintedReads(s: string)
    ensures Read(Escape(s)) == Some(Codes(s))
  {
    if s != "" {
      PrintedReads(s[1..]);
      ReadUnit(s[0], Escape(s[1..]));
      assert Codes(s) == [s[0] as nat] + Codes(s[1..]);
    }
  }

  // Where the program's own reader does not answer with a question mark or refuse, it agrees with that reading.
  lemma {:induction false} ReadersAgree(s: string)
    requires Unescape(s).Some? && NoUnicode(s) && Read(s).Some?
    ensures Read(s) == Some(Codes(Unescape(s).value))
    decreases |s|
  {
    if s != "" {
      if s[0] != '\\' {
        ReadersAgree(s[1..]);
        OneMore(s[0], Unescape(s[1..]).value);
      } else {
        ReadersAgree(s[2..]);
        NamedIsUnescaped(s[1]);
        OneMore(Unescaped(s[1]).value, Unescape(s[2..]).value);
      }
    }
  }

  lemma OneMore(c: char, s: string)
    ensures Codes([c] + s) == [c as nat] + Codes(s)
  {
  }

  lemma NamedIsUnescaped(c: char)
    ensures Unescaped(c).Some? <==> Named(c).Some?
    ensures Unescaped(c).Some? ==> Named(c) == Some(Unescaped(c).value as nat)
  {
  }

  // No \u escape.
  predicate NoUnicode(s: string) {
    if s == "" then true
    else if s[0] != '\\' then NoUnicode(s[1..])
    else |s| >= 2 && s[1] != 'u' && NoUnicode(s[2..])
  }
}
