/** Reading a field by searching for its quoted key. Texts hold no NUL character. */
module JsonSearch {
  import opened JsonScan
  import opened JsonText
  import opened Options

  const PATTERN_SIZE: nat := 128

  predicate IsSpace(c: char) {
    c == ' ' || 9 as char <= c <= 13 as char
  }

  // ----- the search

  // The first place where pat stands in s.
  function StrStr(s: string, pat: string): (at: Option<nat>)
    ensures at.Some? ==> at.value + |pat| <= |s|
  {
    if pat <= s then Some(0)
    else if s == "" then None
    else More(1, StrStr(s[1..], pat))
  }

  function SkipSpaces(s: string): (t: string)
    ensures |t| <= |s|
  {
    if s != "" && IsSpace(s[0]) then SkipSpaces(s[1..]) else s
  }

  // What is searched for: the key in quotes, cut to the size of its buffer.
  function Pattern(key: string): (pat: string)
    ensures pat != ""
  {
    var quoted := "\"" + key + "\"";
    if |quoted| < PATTERN_SIZE then quoted else quoted[..PATTERN_SIZE - 1]
  }

  // The text after the colon of the first occurrence that is followed by one.
  function AfterKey(s: string, pat: string): Option<string>
    requires pat != ""
    decreases |s|
  {
    var at := StrStr(s, pat);
    if at.None? then None
    else
      var rest := SkipSpaces(s[at.value + |pat|..]);
      if rest != "" && rest[0] == ':' then Some(rest[1..]) else AfterKey(rest, pat)
  }

  // find_key
  method FindKey(json: string, key: string) returns (out: Option<string>)
    ensures out == AfterKey(json, Pattern(key))
  {
    var pat := Pattern(key);
    var p := json;
    var at := StrStr(p, pat);
    while at.Some?
      invariant at == StrStr(p, pat) && AfterKey(json, pat) == AfterKey(p, pat)
      decreases |p|
    {
      p := p[at.value + |pat|..];
      p := SkipSpaces(p);
      if p != "" && p[0] == ':' {
        return Some(p[1..]);
      }
      at := StrStr(p, pat);
    }
    out := None;
  }

  // ----- the readers

  // The string whose opening quote is the first character of s.
  function QuotedString(s: string): Option<string> {
    if s == "" || s[0] != '"' then None
    else
      var end := StringEnd(s[1..], false);
      if end.None? then None else Unescape(s[1..1 + end.value])
  }

  function StringField(json: string, key: string): Option<string> {
    var value := AfterKey(json, Pattern(key));
    if value.None? then None else QuotedString(SkipSpaces(value.value))
  }

  // json_get_string
  method GetString(json: string, key: string) returns (out: Option<string>)
    ensures out == StringField(json, key)
  {
    var found := FindKey(json, key);
    if found.None? {
      return None;
    }
    var p := SkipSpaces(found.value);
    if p == "" || p[0] != '"' {
      return None;
    }
    var end := FindStringEnd(p, 1);
    if end.None? {
      return None;
    }
    out := UnescapeSlice(p[1..end.value]);
  }

  // A value that is no string, object or array ends before a delimiter or white space.
  function ScalarEnd(s: string): (n: nat)
    ensures n <= |s|
  {
    if s == "" || s[0] == ',' || s[0] == '}' || s[0] == ']' || IsSpace(s[0]) then 0 else 1 + ScalarEnd(s[1..])
  }

  // The text of the value at the head of s.
  function RawValue(s: string): Option<string> {
    if s != "" && s[0] == '"' then
      var end := StringEnd(s[1..], false);
      if end.None? then None else Some(s[..end.value + 2])
    else if s != "" && (s[0] == '{' || s[0] == '[') then
      var close := if s[0] == '{' then '}' else ']';
      var end := Scan(s, s[0], close, 0, Outside);
      ScanBound(s, s[0], close, 0, Outside);
      if end.None? then None else Some(s[..end.value])
    else Some(s[..ScalarEnd(s)])
  }

  // json_get_raw_value
  method GetRawValue(json: string, key: string) returns (out: Option<string>)
    ensures var value := AfterKey(json, Pattern(key));
            out == if value.None? then None else RawValue(SkipSpaces(value.value))
  {
    var found := FindKey(json, key);
    if found.None? {
      return None;
    }
    var s := SkipSpaces(found.value);
    assert s[0..] == s;
    if s != "" && s[0] == '"' {
      var end := FindStringEnd(s, 1);
      if end.None? {
        return None;
      }
      return Some(s[..end.value + 1]);
    }
    if s != "" && (s[0] == '{' || s[0] == '[') {
      var close := if s[0] == '{' then '}' else ']';
      var end := ScanBrackets(s, 0, s[0], close);
      ScanBound(s, s[0], close, 0, Outside);
      if end.None? {
        return None;
      }
      return Some(s[..end.value]);
    }
    var p := 0;
    while p < |s| && s[p] != ',' && s[p] != '}' && s[p] != ']' && !IsSpace(s[p])
      invariant 0 <= p <= |s| && ScalarEnd(s) == p + ScalarEnd(s[p..])
    {
      p := p + 1;
    }
    out := Some(s[..p]);
  }

  // ----- what the search and the scalars mean

  // White space as the C locale has it.
  lemma IsSpaceMeans(c: char)
    ensures IsSpace(c) <==> c as int in {32, 9, 10, 11, 12, 13}
  {
  }

  predicate StandsAt(s: string, pat: string, i: nat) {
    i + |pat| <= |s| && s[i..i + |pat|] == pat
  }

  // The leftmost place, or nowhere.
  lemma {:induction false} StrStrMeans(s: string, pat: string)
    ensures match StrStr(s, pat)
            case Some(i) => StandsAt(s, pat, i) && forall j: nat | j < i :: !StandsAt(s, pat, j)
            case None => forall j: nat :: !StandsAt(s, pat, j)
    decreases |s|
  {
    StandsFirst(s, pat);
    if !(pat <= s) && s != "" {
      StrStrMeans(s[1..], pat);
      forall j: nat | j > 0
        ensures StandsAt(s, pat, j) == StandsAt(s[1..], pat, j - 1)
      {
        StandsLater(s, pat, j);
      }
    } else if s == "" {
      assert forall j: nat | j > 0 :: !StandsAt(s, pat, j);
    }
  }

  lemma StandsFirst(s: string, pat: string)
    ensures StandsAt(s, pat, 0) <==> pat <= s
  {
  }

  lemma StandsLater(s: string, pat: string, j: nat)
    requires s != "" && j > 0
    ensures StandsAt(s, pat, j) == StandsAt(s[1..], pat, j - 1)
  {
    if j + |pat| <= |s| {
      assert s[j..j + |pat|] == s[1..][j - 1..j - 1 + |pat|];
    }
  }

  // White space or a delimiter.
  predicate Ends(c: char) {
    c == ',' || c == '}' || c == ']' || c as int in {32, 9, 10, 11, 12, 13}
  }

  // A number or a name is read up to the white space or delimiter behind it, or to the end.
  lemma {:induction false} RawScalarWhole(v: string, t: string)
    requires v == "" || (v[0] != '"' && v[0] != '{' && v[0] != '[')
    requires (forall i | 0 <= i < |v| :: !Ends(v[i])) && (t == "" || Ends(t[0]))
    ensures v != "" ==> RawValue(v + t) == Some(v)
  {
    ScalarEndIs(v, t);
    assert (v + t)[..|v|] == v;
  }

  lemma {:induction false} ScalarEndIs(v: string, t: string)
    requires (forall i | 0 <= i < |v| :: !Ends(v[i])) && (t == "" || Ends(t[0]))
    ensures ScalarEnd(v + t) == |v|
  {
    if v != "" {
      IsSpaceMeans(v[0]);
      assert (v + t)[1..] == v[1..] + t;
      ScalarEndIs(v[1..], t);
    } else {
      assert v + t == t;
      if t != "" {
        IsSpaceMeans(t[0]);
      }
    }
  }

  // ----- whole values

  // A field that holds an object or array is read whole, whatever follows it.
  lemma RawValueWhole(square: bool, items: seq<Item>, t: string)
    requires WellFormed(Nest(square, items))
    ensures RawValue(Print(Nest(square, items)) + t) == Some(Print(Nest(square, items)))
  {
    ScanWhole(square, items, t);
    assert Print(Nest(square, items))[0] == Open(square);
  }

  lemma RawStringWhole(b: string, t: string)
    requires Content(b)
    ensures RawValue(Print(Text(b)) + t) == Some(Print(Text(b)))
  {
    ContentEnd(b, t);
    assert (Print(Text(b)) + t)[1..] == b + "\"" + t;
  }
}

/** Flat objects as the program prints them, and what the key search makes of them. */
module FlatObjects {
  import opened JsonScan
  import opened JsonSearch
  import opened JsonText
  import opened Options

  datatype Field = Field(key: string, text: string)

  // Keys are printed as they are.
  function PrintField(f: Field): string {
    "\"" + f.key + "\":\"" + Escape(f.text) + "\""
  }

  // The fields after the first, and the end of the object.
  function PrintRest(fields: seq<Field>): (s: string)
    ensures s != "" && (s[0] == ',' || s[0] == '}')
  {
    if fields == [] then "}" else "," + PrintField(fields[0]) + PrintRest(fields[1..])
  }

  function PrintObject(fields: seq<Field>): string {
    if fields == [] then "{}" else "{" + PrintField(fields[0]) + PrintRest(fields[1..])
  }

  predicate Quoteless(w: string) {
    forall i | 0 <= i < |w| :: w[i] != '"'
  }

  // A key that needs no escapes.
  predicate PlainKey(key: string) {
    forall i | 0 <= i < |key| :: key[i] != '"' && key[i] != '\\'
  }

  // A plain key that fits the buffer and does not look like the punctuation between strings.
  predicate Searchable(key: string) {
    PlainKey(key) && |key| <= 125 && key != "," && key != ":"
  }

  function Quoted(key: string): (pat: string)
    ensures pat != "" && pat[0] == '"'
  {
    "\"" + key + "\""
  }

  lemma PatternIsQuoted(key: string)
    requires |key| <= 125
    ensures Pattern(key) == Quoted(key)
  {
  }

  // ----- walking over a text

  lemma StepOver(s: string, pat: string)
    requires pat != "" && s != "" && !(pat <= s)
    ensures AfterKey(s, pat) == AfterKey(s[1..], pat)
  {
    var at := StrStr(s[1..], pat);
    if at.Some? {
      DropAfterFirst(s, at.value + |pat|);
    }
  }

  lemma DropAfterFirst(s: string, k: nat)
    requires k + 1 <= |s|
    ensures s[1..][k..] == s[k + 1..]
  {
  }

  lemma {:induction false} SkipQuoteless(w: string, t: string, pat: string)
    requires Quoteless(w) && pat != "" && pat[0] == '"'
    ensures AfterKey(w + t, pat) == AfterKey(t, pat)
  {
    if w == "" {
      assert w + t == t;
    } else {
      assert (w + t)[0] == w[0];
      StepOver(w + t, pat);
      assert (w + t)[1..] == w[1..] + t;
      SkipQuoteless(w[1..], t, pat);
    }
  }

  // A quoted key stands at a quoted plain text only if it is that text.
  lemma {:induction false} PlainMatch(key: string, w: string, t: string)
    requires PlainKey(key) && PlainKey(w) && key + "\"" <= w + "\"" + t
    ensures key == w
  {
    PrefixHead(key + "\"", w + "\"" + t);
    if key != "" && w != "" {
      assert (key + "\"")[1..] == key[1..] + "\"" && (w + "\"" + t)[1..] == w[1..] + "\"" + t;
      PlainMatch(key[1..], w[1..], t);
      assert key == [key[0]] + key[1..] && w == [w[0]] + w[1..];
    }
  }

  lemma PrefixHead(a: string, b: string)
    requires a <= b && a != ""
    ensures a[0] == b[0] && a[1..] <= b[1..]
  {
  }

  lemma QuotedMatch(key: string, w: string, t: string)
    requires PlainKey(key) && PlainKey(w) && key != w
    ensures !(Quoted(key) <= "\"" + w + "\"" + t)
  {
    var s := "\"" + w + "\"" + t;
    if Quoted(key) <= s {
      assert s[1..] == w + "\"" + t && Quoted(key)[1..] == key + "\"";
      PlainMatch(key, w, t);
    }
  }

  // ----- walking over a field

  // A quoted key stands at an opening or escaped quote inside a text only if it is the rest of that text.
  lemma {:induction false} InsideMatch(key: string, w: string, t: string)
    requires PlainKey(key) && key + "\"" <= Escape(w) + "\"" + t
    ensures key == Escape(w)
  {
    PrefixHead(key + "\"", Escape(w) + "\"" + t);
    if key != "" && w != "" {
      assert EscapeChar(w[0])[0] == (Escape(w) + "\"" + t)[0];
      assert EscapeChar(w[0]) == [w[0]];
      assert (key + "\"")[1..] == key[1..] + "\"" && (Escape(w) + "\"" + t)[1..] == Escape(w[1..]) + "\"" + t;
      InsideMatch(key[1..], w[1..], t);
      assert key == [key[0]] + key[1..];
    }
  }

  // What follows a printed text: the next field or the end, neither of which is a colon or a space.
  lemma RestStays(fields: seq<Field>)
    ensures SkipSpaces(PrintRest(fields)) == PrintRest(fields)
  {
  }

  lemma AfterLastQuote(key: string)
    requires Searchable(key)
    ensures !(Quoted(key) <= "\"}")
  {
    assert key == "" ==> Quoted(key)[1] == '"';
    assert "\"}"[1] == '}';
  }

  lemma AfterInnerQuote(f: Field, t: string, key: string)
    requires Searchable(key)
    ensures !(Quoted(key) <= "\"" + ("," + PrintField(f) + t))
  {
    var u := f.key + "\":\"" + Escape(f.text) + "\"" + t;
    assert "\"" + ("," + PrintField(f) + t) == "\"" + "," + "\"" + u;
    QuotedMatch(key, ",", u);
  }

  // From the closing quote of a text the search goes on at the next field.
  lemma CloseQuote(fields: seq<Field>, key: string)
    requires Searchable(key)
    ensures AfterKey("\"" + PrintRest(fields), Quoted(key)) == AfterKey(PrintRest(fields), Quoted(key))
  {
    if fields == [] {
      AfterLastQuote(key);
    } else {
      AfterInnerQuote(fields[0], PrintRest(fields[1..]), key);
    }
    StepOver("\"" + PrintRest(fields), Quoted(key));
    assert ("\"" + PrintRest(fields))[1..] == PrintRest(fields);
  }

  // From a quote before a text, or before what is left of one, the search goes on at the next field.
  lemma {:induction false} OpenQuote(w: string, fields: seq<Field>, key: string)
    requires Searchable(key)
    ensures AfterKey("\"" + (Escape(w) + "\"" + PrintRest(fields)), Quoted(key)) == AfterKey(PrintRest(fields), Quoted(key))
    decreases |w|, 1
  {
    var t := Escape(w) + "\"" + PrintRest(fields);
    assert ("\"" + t)[1..] == t;
    if Quoted(key) <= "\"" + t {
      TextHit(w, fields, key);
    } else {
      StepOver("\"" + t, Quoted(key));
      InText(w, fields, key);
    }
  }

  // A text that equals the key is taken for it, but no colon follows.
  lemma TextHit(w: string, fields: seq<Field>, key: string)
    requires PlainKey(key) && Quoted(key) <= "\"" + (Escape(w) + "\"" + PrintRest(fields))
    ensures AfterKey("\"" + (Escape(w) + "\"" + PrintRest(fields)), Quoted(key)) == AfterKey(PrintRest(fields), Quoted(key))
  {
    var t := Escape(w) + "\"" + PrintRest(fields);
    Unquote(key, t);
    InsideMatch(key, w, PrintRest(fields));
    RestStays(fields);
    HitPassed(key, PrintRest(fields));
  }

  lemma HitPassed(key: string, t: string)
    requires t != "" && t[0] != ':' && SkipSpaces(t) == t
    ensures AfterKey("\"" + (key + "\"" + t), Quoted(key)) == AfterKey(t, Quoted(key))
  {
    assert "\"" + (key + "\"" + t) == Quoted(key) + t;
    Matched("\"" + (key + "\"" + t), Quoted(key), t);
  }

  lemma Unquote(key: string, t: string)
    requires Quoted(key) <= "\"" + t
    ensures key + "\"" <= t
  {
    assert Quoted(key)[1..] == key + "\"" && ("\"" + t)[1..] == t;
  }

  // An occurrence at the start that no colon follows is passed over.
  lemma Matched(s: string, pat: string, t: string)
    requires pat != "" && s == pat + t
    ensures var rest := SkipSpaces(t);
            AfterKey(s, pat) == if rest != "" && rest[0] == ':' then Some(rest[1..]) else AfterKey(rest, pat)
  {
    assert s[0 + |pat|..] == t;
  }

  // From inside a text the search goes on at the next field.
  lemma {:induction false} InText(w: string, fields: seq<Field>, key: string)
    requires Searchable(key)
    ensures AfterKey(Escape(w) + "\"" + PrintRest(fields), Quoted(key)) == AfterKey(PrintRest(fields), Quoted(key))
    decreases |w|, 0
  {
    if w == "" {
      assert Escape(w) + "\"" + PrintRest(fields) == "\"" + PrintRest(fields);
      CloseQuote(fields, key);
    } else {
      var t := Escape(w[1..]) + "\"" + PrintRest(fields);
      UnitFirst(w, PrintRest(fields));
      if w[0] == '"' {
        QuoteUnit(t, Quoted(key));
        OpenQuote(w[1..], fields, key);
      } else {
        UnitQuoteless(w[0]);
        SkipQuoteless(EscapeChar(w[0]), t, Quoted(key));
        InText(w[1..], fields, key);
      }
    }
  }

  lemma UnitFirst(w: string, t: string)
    requires w != ""
    ensures Escape(w) + "\"" + t == EscapeChar(w[0]) + (Escape(w[1..]) + "\"" + t)
  {
  }

  // The backslash before a quote is passed over.
  lemma QuoteUnit(t: string, pat: string)
    requires pat != "" && pat[0] == '"'
    ensures AfterKey(EscapeChar('"') + t, pat) == AfterKey("\"" + t, pat)
  {
    assert EscapeChar('"') + t == "\\" + ("\"" + t);
    SkipQuoteless("\\", "\"" + t, pat);
  }

  lemma UnitQuoteless(c: char)
    requires c != '"'
    ensures Quoteless(EscapeChar(c))
  {
  }

  // From the opening quote of another key the search goes on at its closing quote.
  lemma KeyPassed(k: string, t: string, key: string)
    requires Searchable(key) && PlainKey(k) && k != key
    ensures AfterKey("\"" + k + "\"" + t, Quoted(key)) == AfterKey("\"" + t, Quoted(key))
  {
    var s := "\"" + k + "\"" + t;
    QuotedMatch(key, k, t);
    StepOver(s, Quoted(key));
    assert s[1..] == k + ("\"" + t);
    SkipQuoteless(k, "\"" + t, Quoted(key));
  }

  // A field with another key is passed over.
  lemma FieldPassed(f: Field, fields: seq<Field>, key: string)
    requires Searchable(key) && PlainKey(f.key) && f.key != key
    ensures AfterKey(PrintField(f) + PrintRest(fields), Quoted(key)) == AfterKey(PrintRest(fields), Quoted(key))
  {
    var value := "\"" + (Escape(f.text) + "\"" + PrintRest(fields));
    FieldShape(f, PrintRest(fields));
    KeyPassed(f.key, ":" + value, key);
    AfterColon(value, key);
    OpenQuote(f.text, fields, key);
  }

  lemma FieldShape(f: Field, t: string)
    ensures var value := "\"" + (Escape(f.text) + "\"" + t);
            PrintField(f) + t == "\"" + f.key + "\"" + (":" + value) && "\"" + (":" + value) == "\":" + value
  {
  }

  // From the closing quote of a key the search goes on at the text.
  lemma AfterColon(value: string, key: string)
    requires Searchable(key) && value != "" && value[0] == '"'
    ensures AfterKey("\":" + value, Quoted(key)) == AfterKey(value, Quoted(key))
  {
    var s := "\":" + value;
    assert s == "\"" + ":" + "\"" + value[1..];
    QuotedMatch(key, ":", value[1..]);
    StepOver(s, Quoted(key));
    assert s[1..] == ":" + value;
    SkipQuoteless(":", value, Quoted(key));
  }

  // At its own field the search ends just before the text.
  lemma FieldHit(f: Field, t: string)
    ensures AfterKey(PrintField(f) + t, Quoted(f.key)) == Some("\"" + Escape(f.text) + "\"" + t)
  {
    var value := "\"" + Escape(f.text) + "\"" + t;
    var s := PrintField(f) + t;
    assert s == Quoted(f.key) + (":" + value);
    Matched(s, Quoted(f.key), ":" + value);
    assert (":" + value)[1..] == value;
  }

  // ----- lookups

  predicate PlainKeys(fields: seq<Field>) {
    forall i | 0 <= i < |fields| :: PlainKey(fields[i].key)
  }

  // Field i is the first with its key.
  predicate First(fields: seq<Field>, i: nat) {
    i < |fields| && forall j | 0 <= j < i :: fields[j].key != fields[i].key
  }

  // What a search over the fields should give: what follows the first key that is equal.
  function Wanted(fields: seq<Field>, key: string): Option<string> {
    if fields == [] then None
    else if fields[0].key == key then Some("\"" + Escape(fields[0].text) + "\"" + PrintRest(fields[1..]))
    else Wanted(fields[1..], key)
  }

  lemma {:induction false} SearchRest(fields: seq<Field>, key: string)
    requires Searchable(key) && PlainKeys(fields)
    ensures AfterKey(PrintRest(fields), Quoted(key)) == Wanted(fields, key)
    decreases |fields|, 1
  {
    if fields == [] {
      assert "}" == "}" + "";
      SkipQuoteless("}", "", Quoted(key));
    } else {
      Regroup(PrintField(fields[0]), PrintRest(fields[1..]));
      SkipQuoteless(",", PrintField(fields[0]) + PrintRest(fields[1..]), Quoted(key));
      SearchField(fields, key);
    }
  }

  lemma {:induction false} SearchField(fields: seq<Field>, key: string)
    requires Searchable(key) && PlainKeys(fields) && fields != []
    ensures AfterKey(PrintField(fields[0]) + PrintRest(fields[1..]), Quoted(key)) == Wanted(fields, key)
    decreases |fields|, 0
  {
    if fields[0].key == key {
      FieldHit(fields[0], PrintRest(fields[1..]));
    } else {
      FieldPassed(fields[0], fields[1..], key);
      SearchRest(fields[1..], key);
    }
  }

  lemma SearchObject(fields: seq<Field>, key: string)
    requires Searchable(key) && PlainKeys(fields)
    ensures AfterKey(PrintObject(fields), Pattern(key)) == Wanted(fields, key)
  {
    PatternIsQuoted(key);
    if fields == [] {
      assert PrintObject(fields) == "{}" + "";
      SkipQuoteless("{}", "", Quoted(key));
    } else {
      Regroup(PrintField(fields[0]), PrintRest(fields[1..]));
      SkipQuoteless("{", PrintField(fields[0]) + PrintRest(fields[1..]), Quoted(key));
      SearchField(fields, key);
    }
  }

  lemma Regroup(a: string, b: string)
    ensures "{" + a + b == "{" + (a + b) && "," + a + b == "," + (a + b)
  {
  }

  lemma {:induction false} WantedFirst(fields: seq<Field>, i: nat)
    requires First(fields, i)
    ensures Wanted(fields, fields[i].key) == Some("\"" + Escape(fields[i].text) + "\"" + PrintRest(fields[i + 1..]))
  {
    if i > 0 {
      assert fields[0].key != fields[i].key;
      WantedFirst(fields[1..], i - 1);
      assert fields[1..][i..] == fields[i + 1..];
    }
  }

  lemma {:induction false} WantedNone(fields: seq<Field>, key: string)
    requires forall i | 0 <= i < |fields| :: fields[i].key != key
    ensures Wanted(fields, key) == None
  {
    if fields != [] {
      WantedNone(fields[1..], key);
    }
  }

  lemma {:induction false} EscapeContent(s: string)
    ensures Content(Escape(s))
  {
    if s != "" {
      EscapeContent(s[1..]);
      UnitContent(s[0], Escape(s[1..]));
    }
  }

  lemma {:induction false} PlainContent(w: string, t: string)
    requires PlainKey(w) && Content(t)
    ensures Content(w + t)
  {
    if w == "" {
      assert w + t == t;
    } else {
      PlainContent(w[1..], t);
      assert (w + t)[1..] == w[1..] + t;
    }
  }

  lemma UnitContent(c: char, t: string)
    requires Content(t)
    ensures Content(EscapeChar(c) + t)
  {
    var u := EscapeChar(c);
    if |u| == 1 {
      PlainContent(u, t);
    } else {
      assert (u + t)[2..] == u[2..] + t;
      PlainContent(u[2..], t);
    }
  }

  // A printed text is read back, whatever follows its closing quote.
  lemma TextRead(w: string, t: string)
    ensures QuotedString(SkipSpaces("\"" + Escape(w) + "\"" + t)) == Some(Shown(w))
  {
    EscapeContent(w);
    ContentRead(Escape(w), t);
    UnescapeEscape(w);
  }

  lemma ContentRead(b: string, t: string)
    requires Content(b)
    ensures QuotedString(SkipSpaces("\"" + b + "\"" + t)) == Unescape(b)
  {
    var s := "\"" + b + "\"" + t;
    ContentEnd(b, t);
    assert s[1..] == b + "\"" + t;
    assert s[1..1 + |b|] == b;
  }

  // Looking a searchable key up gives the text of the first field that has it ...
  lemma LookupFinds(fields: seq<Field>, i: nat)
    requires PlainKeys(fields) && First(fields, i) && Searchable(fields[i].key)
    ensures StringField(PrintObject(fields), fields[i].key) == Some(Shown(fields[i].text))
  {
    SearchObject(fields, fields[i].key);
    WantedFirst(fields, i);
    TextRead(fields[i].text, PrintRest(fields[i + 1..]));
  }

  // ... and nothing when no field has it.
  lemma LookupMisses(fields: seq<Field>, key: string)
    requires PlainKeys(fields) && Searchable(key) && forall i | 0 <= i < |fields| :: fields[i].key != key
    ensures StringField(PrintObject(fields), key) == None
  {
    SearchObject(fields, key);
    WantedNone(fields, key);
  }

  // ----- the keys for which that fails

  ghost predicate AlwaysFound(key: string) {
    forall fields: seq<Field>, i: nat :: PlainKeys(fields) && First(fields, i) && fields[i].key == key ==>
      StringField(PrintObject(fields), key) == Some(Shown(fields[i].text))
  }

  // Pieces without quotes, each after a quote.
  function Pieces(ps: seq<string>): string {
    if ps == [] then "" else "\"" + (ps[0] + Pieces(ps[1..]))
  }

  // The search passes over the pieces that differ from the key.
  lemma {:induction false} PassPieces(ps: seq<string>, n: nat, key: string)
    requires PlainKey(key) && n < |ps| && forall i | 0 <= i < n :: PlainKey(ps[i]) && ps[i] != key
    ensures AfterKey(Pieces(ps), Quoted(key)) == AfterKey(Pieces(ps[n..]), Quoted(key))
  {
    if n > 0 {
      var t := ps[1] + Pieces(ps[2..]);
      assert Pieces(ps) == "\"" + ps[0] + "\"" + t;
      QuotedMatch(key, ps[0], t);
      StepOver(Pieces(ps), Quoted(key));
      assert Pieces(ps)[1..] == ps[0] + Pieces(ps[1..]);
      SkipQuoteless(ps[0], Pieces(ps[1..]), Quoted(key));
      PassPieces(ps[1..], n - 1, key);
      assert ps[1..][n - 1..] == ps[n..];
    }
  }

  lemma LastPiece(p: string, key: string)
    requires PlainKey(key) && PlainKey(p) && |p| < 2
    ensures (key != "" || p == "") ==> AfterKey(Pieces([p]), Quoted(key)) == None
  {
    var s := "\"" + p;
    assert Pieces([p]) == s;
    if key != "" || p == "" {
      assert |Quoted(key)| > |s|;
      assert StrStr(s, Quoted(key)) == None;
    }
  }

  lemma FirstTwoPieces(ps: seq<string>)
    requires |ps| > 1
    ensures Pieces(ps) == Quoted(ps[0]) + (ps[1] + Pieces(ps[2..]))
  {
    assert ps[1..][1..] == ps[2..];
    assert Pieces(ps[1..]) == "\"" + (ps[1] + Pieces(ps[2..]));
    QuoteGlue(ps[0], ps[1] + Pieces(ps[2..]));
  }

  lemma QuoteGlue(a: string, t: string)
    ensures "\"" + (a + ("\"" + t)) == Quoted(a) + t
  {
  }

  // The first piece is the key, and the next begins with no space.
  lemma PieceHit(ps: seq<string>, key: string)
    requires |ps| > 1 && ps[0] == key && ps[1] != "" && !IsSpace(ps[1][0])
    ensures var rest := ps[1] + Pieces(ps[2..]);
            AfterKey(Pieces(ps), Quoted(key)) == if ps[1][0] == ':' then Some(rest[1..]) else AfterKey(rest, Quoted(key))
  {
    var rest := ps[1] + Pieces(ps[2..]);
    FirstTwoPieces(ps);
    assert rest[0] == ps[1][0];
    Matched(Pieces(ps), Quoted(key), rest);
  }

  lemma FieldPieces(k: string, v: string, p: string, ps: seq<string>)
    requires Escape(v) == v
    ensures PrintField(Field(k, v)) + (p + Pieces(ps)) == Pieces([k, ":", v, p] + ps)
  {
    var all := [k, ":", v, p] + ps;
    ThreePieces(all);
    LastOfFour(k, v, p, ps);
    FieldGlue(k, v, p + Pieces(ps));
  }

  lemma LastOfFour(k: string, v: string, p: string, ps: seq<string>)
    ensures Pieces(([k, ":", v, p] + ps)[3..]) == "\"" + (p + Pieces(ps))
  {
    assert ([k, ":", v, p] + ps)[3..][1..] == ps;
  }

  lemma FieldGlue(k: string, v: string, t: string)
    requires Escape(v) == v
    ensures PrintField(Field(k, v)) + t == "\"" + k + "\"" + ":" + "\"" + v + ("\"" + t)
  {
  }

  lemma ThreePieces(ps: seq<string>)
    requires |ps| >= 3
    ensures Pieces(ps) == "\"" + ps[0] + "\"" + ps[1] + "\"" + ps[2] + Pieces(ps[3..])
  {
    assert ps[1..][1..] == ps[2..] && ps[2..][1..] == ps[3..];
    assert Pieces(ps[2..]) == "\"" + (ps[2] + Pieces(ps[3..]));
    assert Pieces(ps[1..]) == "\"" + (ps[1] + Pieces(ps[2..]));
    Glue(ps[0], ps[1], ps[2], Pieces(ps[3..]));
  }

  lemma Glue(a: string, b: string, c: string, t: string)
    ensures "\"" + (a + ("\"" + (b + ("\"" + (c + t))))) == "\"" + a + "\"" + b + "\"" + c + t
  {
    assert "\"" + (b + ("\"" + (c + t))) == "\"" + b + "\"" + c + t;
  }

  lemma LastField(l: string, w: string)
    requires Escape(w) == w
    ensures PrintRest([Field(l, w)]) == "," + Pieces([l, ":", w, "}"])
  {
    FieldPieces(l, w, "}", []);
    assert [l, ":", w, "}"] + [] == [l, ":", w, "}"];
    assert [Field(l, w)][1..] == [];
  }

  lemma TwoFields(k: string, v: string, l: string, w: string)
    requires Escape(v) == v && Escape(w) == w
    ensures PrintObject([Field(k, v), Field(l, w)]) == "{" + Pieces([k, ":", v, ",", l, ":", w, "}"])
  {
    var fields, rest := [Field(k, v), Field(l, w)], [l, ":", w, "}"];
    assert fields[1..] == [Field(l, w)];
    LastField(l, w);
    FieldPieces(k, v, ",", rest);
    assert [k, ":", v, ","] + rest == [k, ":", v, ",", l, ":", w, "}"];
    Regroup(PrintField(Field(k, v)), PrintRest(fields[1..]));
  }

  lemma CommaSearch(k: string, v: string, w: string)
    requires PlainKey(k) && PlainKey(v) && PlainKey(w) && k != "," && v != "," && w != ","
    ensures AfterKey("{" + Pieces([k, ":", v, ",", ",", ":", w, "}"]), Quoted(",")) == None
  {
    var ps := [k, ":", v, ",", ",", ":", w, "}"];
    var rest := [":", w, "}"];
    SkipQuoteless("{", Pieces(ps), Quoted(","));
    PassPieces(ps, 3, ",");
    assert ps[3..] == [",", ",", ":", w, "}"] && ps[3..][2..] == rest;
    PieceHit(ps[3..], ",");
    SkipQuoteless(",", Pieces(rest), Quoted(","));
    CommaEnd(w);
  }

  lemma CommaEnd(w: string)
    requires PlainKey(w) && w != ","
    ensures AfterKey(Pieces([":", w, "}"]), Quoted(",")) == None
  {
    var rest := [":", w, "}"];
    PassPieces(rest, 2, ",");
    assert rest[2..] == ["}"];
    LastPiece("}", ",");
  }

  // The key "," is taken for the comma between two strings, and its own field is then missed.
  lemma CommaMissed()
    ensures !AlwaysFound(",")
  {
    var fields := [Field("a", "x"), Field(",", "v")];
    assert Escape("x") == "x" && Escape("v") == "v";
    TwoFields("a", "x", ",", "v");
    PatternIsQuoted(",");
    CommaSearch("a", "x", "v");
    assert PlainKeys(fields) && First(fields, 1);
  }

  lemma ColonSearch(k: string, v: string, w: string)
    requires PlainKey(k) && PlainKey(v) && k != ":" && v != "" && v[0] == ':'
    ensures AfterKey("{" + Pieces([k, ":", v, ",", ":", ":", w, "}"]), Quoted(":"))
         == Some((v + Pieces([",", ":", ":", w, "}"]))[1..])
  {
    var ps := [k, ":", v, ",", ":", ":", w, "}"];
    SkipQuoteless("{", Pieces(ps), Quoted(":"));
    PassPieces(ps, 1, ":");
    assert ps[1..] == [":", v, ",", ":", ":", w, "}"] && ps[1..][2..] == [",", ":", ":", w, "}"];
    PieceHit(ps[1..], ":");
  }

  // No string is read where a letter stands.
  lemma NotQuoted(v: string, t: string)
    requires |v| > 1 && !IsSpace(v[1]) && v[1] != '"'
    ensures QuotedString(SkipSpaces((v + t)[1..])) == None
  {
    assert (v + t)[1..][0] == v[1];
  }

  lemma ColonUnread(k: string, v: string, w: string)
    requires Escape(v) == v && Escape(w) == w && PlainKey(k) && PlainKey(v) && k != ":"
    requires |v| > 1 && v[0] == ':' && !IsSpace(v[1])
    ensures StringField(PrintObject([Field(k, v), Field(":", w)]), ":") == None
  {
    TwoFields(k, v, ":", w);
    PatternIsQuoted(":");
    ColonSearch(k, v, w);
    NotQuoted(v, Pieces([",", ":", ":", w, "}"]));
  }

  // The key ":" is taken for the colon after another key.
  lemma ColonMissed()
    ensures !AlwaysFound(":")
  {
    var fields := [Field("a", ":z"), Field(":", "v")];
    assert Escape(":z") == ":z" && Escape("v") == "v";
    ColonUnread("a", ":z", "v");
    assert PlainKeys(fields) && First(fields, 1);
  }

  // A key that does not fit the buffer is cut, and its closing quote stands where a colon is expected.
  lemma LongMissed(key: string)
    requires PlainKey(key) && |key| > 125
    ensures !AlwaysFound(key)
  {
    var fields := [Field(key, "x")];
    var pat, tail := Pattern(key), "\":\"x\"}";
    assert Escape("x") == "x";
    assert PrintRest(fields[1..]) == "}";
    assert pat == "\"" + key[..126];
    assert key == key[..126] + key[126..];
    assert PrintObject(fields) == "{" + (pat + (key[126..] + tail));
    SkipQuoteless("{", pat + (key[126..] + tail), pat);
    Matched(pat + (key[126..] + tail), pat, key[126..] + tail);
    var w := SpacesSkipped(key[126..], tail);
    if w != "" && w[0] == ':' {
      assert (w + tail)[1..] == w[1..] + tail;
      ColonTail(w[1..], tail);
    } else {
      SkipQuoteless(w, tail, pat);
      assert StrStr(tail, pat) == None;
    }
    assert PlainKeys(fields) && First(fields, 0);
    assert Shown("x") == "x";
  }

  // Skipping spaces leaves a part of what precedes the first quote.
  lemma {:induction false} SpacesSkipped(w: string, t: string) returns (rest: string)
    requires PlainKey(w) && t != "" && !IsSpace(t[0])
    ensures SkipSpaces(w + t) == rest + t && PlainKey(rest) && Quoteless(rest)
  {
    if w == "" {
      assert w + t == t;
      rest := "";
      assert rest + t == t;
    } else if IsSpace(w[0]) {
      assert (w + t)[1..] == w[1..] + t;
      rest := SpacesSkipped(w[1..], t);
    } else {
      rest := w;
    }
  }

  lemma ColonTail(w: string, t: string)
    requires PlainKey(w) && t == "\":\"x\"}"
    ensures QuotedString(SkipSpaces(w + t)) != Some("x")
  {
    var rest := SpacesSkipped(w, t);
    if rest == "" {
      assert rest + t == t;
      assert t[1..] == ":" + "\"" + "x\"}";
      ContentEnd(":", "x\"}");
      assert t[1..2] == ":";
      assert Unescape(":") == Prepend(':', Unescape(""));
      assert ":"[0] != "x"[0];
    } else {
      assert (rest + t)[0] == rest[0] != '"';
    }
  }

  // A plain key is found in every object that has it exactly if it is searchable.
  lemma LookupExact(key: string)
    requires PlainKey(key)
    ensures AlwaysFound(key) <==> Searchable(key)
  {
    if Searchable(key) {
      forall fields: seq<Field>, i: nat | PlainKeys(fields) && First(fields, i) && fields[i].key == key
        ensures StringField(PrintObject(fields), key) == Some(Shown(fields[i].text))
      {
        LookupFinds(fields, i);
      }
    } else if |key| > 125 {
      LongMissed(key);
    } else if key == "," {
      CommaMissed();
    } else {
      ColonMissed();
    }
  }
}
