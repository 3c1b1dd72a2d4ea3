/** JSON string escapes as the program prints and reads them. Texts hold no NUL character. */
module JsonText {
  import opened Options

  const BACKSPACE: char := 8 as char
  const FORM_FEED: char := 12 as char

  function HexDigit(d: nat): char
    requires d < 16
  {
    if d < 10 then '0' + d as char else 'a' + (d - 10) as char
  }

  // How one character is printed.
  function EscapeChar(c: char): (s: string)
    ensures s != ""
  {
    if c == '"' then "\\\""
    else if c == '\\' then "\\\\"
    else if c == '\n' then "\\n"
    else if c == '\r' then "\\r"
    else if c == '\t' then "\\t"
    else if c == BACKSPACE then "\\b"
    else if c == FORM_FEED then "\\f"
    else if c < ' ' then "\\u00" + [HexDigit(c as int / 16), HexDigit(c as int % 16)]
    else [c]
  }

  function Escape(s: string): string {
    if s == "" then "" else EscapeChar(s[0]) + Escape(s[1..])
  }

  // json_escape
  method EscapeText(s: string) returns (o: string)
    ensures o == Escape(s)
  {
    o := "";
    for i := 0 to |s|
      invariant o == Escape(s[..i])
    {
      o := o + EscapeChar(s[i]);
      assert s[..i + 1] == s[..i] + [s[i]];
      EscapeConcat(s[..i], [s[i]]);
    }
    assert s[..|s|] == s;
  }

  lemma {:induction false} EscapeConcat(s: string, t: string)
    ensures Escape(s + t) == Escape(s) + Escape(t)
  {
    if s == "" {
      assert s + t == t;
    } else {
      EscapeConcat(s[1..], t);
      Uncons(s, t);
      EscapeCons(s[0], s[1..] + t);
      Associative(EscapeChar(s[0]), Escape(s[1..]), Escape(t));
    }
  }

  lemma Uncons(s: string, t: string)
    requires s != ""
    ensures s + t == [s[0]] + (s[1..] + t)
  {
  }

  lemma EscapeCons(c: char, s: string)
    ensures Escape([c] + s) == EscapeChar(c) + Escape(s)
  {
    assert ([c] + s)[1..] == s;
  }

  lemma Associative(a: string, b: string, c: string)
    ensures a + (b + c) == a + b + c
  {
  }

  // What stands after a backslash, apart from the letter u.
  function Unescaped(c: char): Option<char> {
    if c == '"' then Some('"')
    else if c == '\\' then Some('\\')
    else if c == '/' then Some('/')
    else if c == 'b' then Some(BACKSPACE)
    else if c == 'f' then Some(FORM_FEED)
    else if c == 'n' then Some('\n')
    else if c == 'r' then Some('\r')
    else if c == 't' then Some('\t')
    else None
  }

  function Prepend(c: char, s: Option<string>): Option<string> {
    if s.None? then None else Some([c] + s.value)
  }

  // What the reader makes of an escaped text; a \u escape becomes a question mark.
  function Unescape(s: string): Option<string> {
    if s == "" then Some("")
    else if s[0] != '\\' then Prepend(s[0], Unescape(s[1..]))
    else if |s| < 2 then None
    else if s[1] == 'u' then
      if |s| < 6 then None else Prepend('?', Unescape(s[6..]))
    else if Unescaped(s[1]).None? then None
    else Prepend(Unescaped(s[1]).value, Unescape(s[2..]))
  }

  function Append(o: string, s: Option<string>): Option<string> {
    if s.None? then None else Some(o + s.value)
  }

  lemma AppendMore(o: string, c: char, s: Option<string>)
    ensures Append(o, Prepend(c, s)) == Append(o + [c], s)
  {
    assert s.Some? ==> o + ([c] + s.value) == o + [c] + s.value;
  }

  // json_unescape_slice
  method UnescapeSlice(s: string) returns (out: Option<string>)
    ensures out == Unescape(s)
  {
    var o: string := "";
    var i := 0;
    assert s[0..] == s;
    AppendNothing("", Unescape(s));
    while i < |s|
      invariant 0 <= i <= |s|
      invariant Unescape(s) == Append(o, Unescape(s[i..]))
    {
      var c := s[i];
      ghost var t := s[i..];
      if c != '\\' {
        AppendMore(o, c, Unescape(t[1..]));
        o := o + [c];
        i := i + 1;
        continue;
      }
      i := i + 1;
      if i >= |s| {
        return None;
      }
      c := s[i];
      if c == 'u' {
        if i + 4 < |s| {
          AppendMore(o, '?', Unescape(t[6..]));
          o := o + ['?'];
          i := i + 5;
          continue;
        }
        return None;
      }
      var plain := Unescaped(c);
      if plain.None? {
        return None;
      }
      AppendMore(o, plain.value, Unescape(t[2..]));
      o := o + [plain.value];
      i := i + 1;
    }
    AppendNothing(o, Some(""));
    return Some(o);
  }

  lemma AppendNothing(o: string, s: Option<string>)
    ensures Append("", s) == s && Append(o, Some("")) == Some(o)
  {
    assert s.Some? ==> "" + s.value == s.value;
    assert o + "" == o;
  }

  // ----- the round trip

  // Control characters with an escape of one letter survive; the others come back as question marks.
  predicate Survives(c: char) {
    c >= ' ' || c == '\n' || c == '\r' || c == '\t' || c == BACKSPACE || c == FORM_FEED
  }

  function Shown(s: string): (t: string)
    ensures |t| == |s|
  {
    seq(|s|, i requires 0 <= i < |s| => if Survives(s[i]) then s[i] else '?')
  }

  lemma UnescapeUnit(c: char, t: string)
    ensures Unescape(EscapeChar(c) + t) == Prepend(if Survives(c) then c else '?', Unescape(t))
  {
    var u := EscapeChar(c);
    assert (u + t)[|u|..] == t;
    if u[0] == '\\' {
      assert (u + t)[1] == u[1];
    }
  }

  lemma {:induction false} UnescapeEscape(s: string)
    ensures Unescape(Escape(s)) == Some(Shown(s))
  {
    if s != "" {
      UnescapeEscape(s[1..]);
      UnescapeUnit(s[0], Escape(s[1..]));
      assert Shown(s) == [Shown(s)[0]] + Shown(s[1..]);
    }
  }

  // Reading undoes printing exactly on the texts whose control characters have an escape of one letter.
  lemma RoundTrip(s: string)
    ensures Unescape(Escape(s)) == Some(s) <==> forall i | 0 <= i < |s| :: Survives(s[i])
  {
    UnescapeEscape(s);
    if Shown(s) == s {
      forall i | 0 <= i < |s|
        ensures Survives(s[i])
      {
        assert Shown(s)[i] == s[i];
      }
    }
  }
}
