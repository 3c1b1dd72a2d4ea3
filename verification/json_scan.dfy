/** Finding the end of a JSON value by counting one kind of bracket. Texts hold no NUL character. */
module JsonScan {
  import opened Options

  // The scanner is outside strings, inside one, or just past a backslash inside one.
  datatype Mode = Outside | Inside | Escaped

  function More(k: nat, n: Option<nat>): Option<nat> {
    if n.None? then None else Some(k + n.value)
  }

  lemma MoreMore(k: nat, l: nat, n: Option<nat>)
    ensures More(k, More(l, n)) == More(k + l, n)
  {
  }

  // ----- strings

  function NextInside(c: char): Mode {
    if c == '\\' then Escaped else if c == '"' then Outside else Inside
  }

  // How many characters of s lie before the closing quote.
  function StringEnd(s: string, escaped: bool): (n: Option<nat>)
    ensures n.Some? ==> n.value < |s| && s[n.value] == '"'
  {
    if s == "" then None
    else if escaped then More(1, StringEnd(s[1..], false))
    else if s[0] == '\\' then More(1, StringEnd(s[1..], true))
    else if s[0] == '"' then Some(0)
    else More(1, StringEnd(s[1..], false))
  }

  // The content of a well-formed string: no bare quote, and every backslash has a successor.
  predicate Content(b: string) {
    if b == "" then true
    else if b[0] == '\\' then |b| >= 2 && Content(b[2..])
    else b[0] != '"' && Content(b[1..])
  }

  lemma {:induction false} ContentEnd(b: string, t: string)
    requires Content(b)
    ensures StringEnd(b + "\"" + t, false) == Some(|b|)
  {
    var s := b + "\"" + t;
    if b == "" {
      assert s[0] == '"';
    } else if b[0] == '\\' {
      ContentEnd(b[2..], t);
      assert s[1..][1..] == b[2..] + "\"" + t;
    } else {
      ContentEnd(b[1..], t);
      assert s[1..] == b[1..] + "\"" + t;
    }
  }

  // The string loop of the two readers: the index of the closing quote from `start` on.
  method FindStringEnd(json: string, start: nat) returns (end: Option<nat>)
    requires start <= |json|
    ensures end == More(start, StringEnd(json[start..], false))
  {
    var p, escaped := start, false;
    while p < |json|
      invariant start <= p <= |json|
      invariant More(start, StringEnd(json[start..], false)) == More(p, StringEnd(json[p..], escaped))
    {
      ghost var s := json[p..];
      assert s[1..] == json[p + 1..];
      if escaped {
        MoreMore(p, 1, StringEnd(s[1..], false));
        escaped := false;
      } else if json[p] == '\\' {
        MoreMore(p, 1, StringEnd(s[1..], true));
        escaped := true;
      } else if json[p] == '"' {
        return Some(p);
      } else {
        MoreMore(p, 1, StringEnd(s[1..], false));
      }
      p := p + 1;
    }
    end := None;
  }

  // ----- brackets

  // How many characters of s are read until the depth of the counted bracket returns to zero.
  function Scan(s: string, open: char, close: char, depth: int, mode: Mode): Option<nat> {
    if s == "" then None
    else if mode == Escaped then More(1, Scan(s[1..], open, close, depth, Inside))
    else if mode == Inside then More(1, Scan(s[1..], open, close, depth, NextInside(s[0])))
    else if s[0] == '"' then More(1, Scan(s[1..], open, close, depth, Inside))
    else
      var d := if s[0] == open then depth + 1 else depth;
      if s[0] == close then
        if d - 1 == 0 then Some(1) else More(1, Scan(s[1..], open, close, d - 1, Outside))
      else More(1, Scan(s[1..], open, close, d, Outside))
  }

  lemma {:induction false} ScanBound(s: string, open: char, close: char, depth: int, mode: Mode)
    ensures var n := Scan(s, open, close, depth, mode); n.Some? ==> 0 < n.value <= |s| && s[n.value - 1] == close
  {
    if s == "" {
    } else if mode == Escaped {
      ScanBound(s[1..], open, close, depth, Inside);
    } else if mode == Inside {
      ScanBound(s[1..], open, close, depth, NextInside(s[0]));
    } else if s[0] == '"' {
      ScanBound(s[1..], open, close, depth, Inside);
    } else {
      var d := if s[0] == open then depth + 1 else depth;
      ScanBound(s[1..], open, close, if s[0] == close then d - 1 else d, Outside);
    }
  }

  // The bracket loop of json_get_raw_value.
  method ScanBrackets(json: string, start: nat, open: char, close: char) returns (end: Option<nat>)
    requires start <= |json|
    ensures end == More(start, Scan(json[start..], open, close, 0, Outside))
  {
    var p, depth, mode := start, 0, Outside;
    ghost var whole := More(start, Scan(json[start..], open, close, 0, Outside));
    while p < |json|
      invariant start <= p <= |json|
      invariant whole == More(p, Scan(json[p..], open, close, depth, mode))
    {
      var c := json[p];
      ghost var s, d0, m0 := json[p..], depth, mode;
      assert s[1..] == json[p + 1..];
      if mode == Escaped {
        mode := Inside;
      } else if mode == Inside {
        mode := NextInside(c);
      } else if c == '"' {
        mode := Inside;
      } else {
        if c == open {
          depth := depth + 1;
        }
        if c == close {
          depth := depth - 1;
          if depth == 0 {
            return Some(p + 1);
          }
        }
      }
      MoreMore(p, 1, Scan(s[1..], open, close, depth, mode));
      p := p + 1;
    }
    end := None;
  }

  // ----- nested texts

  // Any text whose brackets of both kinds nest properly outside its strings. Commas, colons, white space,
  // numbers and literals are plain characters, so every JSON object and array is one of these.
  datatype Item =
    | Plain(c: char)
    | Text(content: string)
    | Nest(square: bool, items: seq<Item>)

  predicate WellFormed(i: Item) {
    match i
    case Plain(c) => c != '"' && c != '{' && c != '}' && c != '[' && c != ']'
    case Text(b) => Content(b)
    case Nest(_, items) => forall j | 0 <= j < |items| :: WellFormed(items[j])
  }

  function Open(square: bool): char {
    if square then '[' else '{'
  }

  function Close(square: bool): char {
    if square then ']' else '}'
  }

  function Print(i: Item): string {
    match i
    case Plain(c) => [c]
    case Text(b) => "\"" + b + "\""
    case Nest(square, items) => [Open(square)] + PrintAll(items) + [Close(square)]
  }

  function PrintAll(items: seq<Item>): string {
    if items == [] then "" else Print(items[0]) + PrintAll(items[1..])
  }

  // The depth after one character outside strings.
  function After(c: char, square: bool, depth: int): int {
    if c == Open(square) then depth + 1 else if c == Close(square) then depth - 1 else depth
  }

  lemma ScanStep(c: char, t: string, square: bool, depth: int)
    requires c != '"' && (c == Close(square) ==> depth != 1)
    ensures Scan([c] + t, Open(square), Close(square), depth, Outside)
         == More(1, Scan(t, Open(square), Close(square), After(c, square, depth), Outside))
  {
    assert ([c] + t)[1..] == t;
  }

  // The content of a string and its closing quote are passed over.
  lemma {:induction false} ScanContent(b: string, t: string, square: bool, depth: int)
    requires Content(b)
    ensures Scan(b + "\"" + t, Open(square), Close(square), depth, Inside)
         == More(|b| + 1, Scan(t, Open(square), Close(square), depth, Outside))
  {
    var s := b + "\"" + t;
    if b == "" {
      assert s[1..] == t;
    } else if b[0] == '\\' {
      ScanContent(b[2..], t, square, depth);
      assert s[1..][1..] == b[2..] + "\"" + t;
    } else {
      ScanContent(b[1..], t, square, depth);
      assert s[1..] == b[1..] + "\"" + t;
    }
  }

  lemma ScanText(b: string, t: string, square: bool, depth: int)
    requires Content(b)
    ensures Scan("\"" + b + "\"" + t, Open(square), Close(square), depth, Outside)
         == More(|b| + 2, Scan(t, Open(square), Close(square), depth, Outside))
  {
    ScanContent(b, t, square, depth);
    assert ("\"" + b + "\"" + t)[1..] == b + "\"" + t;
  }

  // At a positive depth a nested text is passed over, and the depth is the same after it.
  lemma {:induction false} ScanItem(i: Item, t: string, square: bool, depth: int)
    requires WellFormed(i) && depth > 0
    ensures Scan(Print(i) + t, Open(square), Close(square), depth, Outside)
         == More(|Print(i)|, Scan(t, Open(square), Close(square), depth, Outside))
    decreases i, 1
  {
    match i
    case Plain(c) =>
      ScanStep(c, t, square, depth);
    case Text(b) =>
      ScanText(b, t, square, depth);
    case Nest(kind, items) =>
      ScanNest(kind, items, t, square, depth);
      assert Print(i) + t == [Open(kind)] + (PrintAll(items) + ([Close(kind)] + t));
  }

  lemma {:induction false} ScanNest(kind: bool, items: seq<Item>, t: string, square: bool, depth: int)
    requires (forall j | 0 <= j < |items| :: WellFormed(items[j])) && depth > 0
    ensures Scan([Open(kind)] + (PrintAll(items) + ([Close(kind)] + t)), Open(square), Close(square), depth, Outside)
         == More(|PrintAll(items)| + 2, Scan(t, Open(square), Close(square), depth, Outside))
    decreases items, 1
  {
    var inner := if kind == square then depth + 1 else depth;
    var rest := [Close(kind)] + t;
    ScanStep(Open(kind), PrintAll(items) + rest, square, depth);
    ScanItems(items, rest, square, inner);
    ScanStep(Close(kind), t, square, inner);
  }

  lemma {:induction false} ScanItems(items: seq<Item>, t: string, square: bool, depth: int)
    requires (forall j | 0 <= j < |items| :: WellFormed(items[j])) && depth > 0
    ensures Scan(PrintAll(items) + t, Open(square), Close(square), depth, Outside)
         == More(|PrintAll(items)|, Scan(t, Open(square), Close(square), depth, Outside))
    decreases items, 0
  {
    if items == [] {
      assert PrintAll(items) + t == t;
    } else {
      ScanItem(items[0], PrintAll(items[1..]) + t, square, depth);
      ScanItems(items[1..], t, square, depth);
      assert PrintAll(items) + t == Print(items[0]) + (PrintAll(items[1..]) + t);
    }
  }

  // The scan of an object or array ends exactly at its closing bracket, although it counts only one kind.
  lemma ScanWhole(square: bool, items: seq<Item>, t: string)
    requires WellFormed(Nest(square, items))
    ensures Scan(Print(Nest(square, items)) + t, Open(square), Close(square), 0, Outside)
         == Some(|Print(Nest(square, items))|)
  {
    var rest := [Close(square)] + t;
    ScanStep(Open(square), PrintAll(items) + rest, square, 0);
    ScanItems(items, rest, square, 1);
    assert rest[0] == Close(square);
    assert Print(Nest(square, items)) + t == [Open(square)] + (PrintAll(items) + rest);
  }
}
