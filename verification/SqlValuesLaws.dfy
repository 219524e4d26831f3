/** Printed values read back as the values that were printed. */
module SqlValuesLaws {
  import opened Text
  import opened Splitter
  import opened SplitterLaws
  import opened SqlValues

  // ---------------------------------------------------------------- Python string literals

  /** What one character becomes inside a literal quoted by `q`. */
  function Unit(c: char, q: char): string {
    if c == '\'' && q == '\'' then "\\'" else PyEscape(c)
  }

  function Body(text: string, q: char): string {
    if text == "" then "" else Unit(text[0], q) + Body(text[1..], q)
  }

  lemma {:induction false} EscapeQuotesAppend(x: string, y: string)
    ensures EscapeQuotes(x + y) == EscapeQuotes(x) + EscapeQuotes(y)
  {
    if x == "" {
      assert x + y == y;
    } else {
      EscapeQuotesAppend(x[1..], y);
      assert (x + y)[1..] == x[1..] + y;
      Assoc(if x[0] == '\'' then "\\'" else [x[0]], EscapeQuotes(x[1..]), EscapeQuotes(y));
    }
  }

  lemma {:induction false} EscapeQuotesPlain(e: string)
    requires '\'' !in e
    ensures EscapeQuotes(e) == e
  {
    if e != "" {
      EscapeQuotesPlain(e[1..]);
    }
  }

  lemma {:induction false} EscapeQuotesUnit(c: char)
    ensures EscapeQuotes(PyEscape(c)) == Unit(c, '\'')
  {
    if c == '\'' {
      assert "'"[1..] == "";
    } else {
      if c < ' ' {
        NoQuoteInHex(c as nat / 16);
        NoQuoteInHex(c as nat % 16);
      }
      EscapeQuotesPlain(PyEscape(c));
    }
  }

  lemma {:induction false} NoQuoteInHex(d: nat)
    requires d < 16
    ensures HexDigit(d) != '\'' && HexDigit(d) >= ' ' && HexDigit(d) != '\U{7F}'
    ensures HexValue(HexDigit(d)) == Some(d)
  {
  }

  lemma {:induction false} BodyOfPyString(text: string, q: char)
    requires q == '\'' || q == '"'
    ensures Body(text, q) == if q == '\'' then EscapeQuotes(PyEscapeBody(text)) else PyEscapeBody(text)
  {
    if text != "" {
      BodyOfPyString(text[1..], q);
      EscapeQuotesAppend(PyEscape(text[0]), PyEscapeBody(text[1..]));
      EscapeQuotesUnit(text[0]);
    }
  }

  /** Reading one printed character consumes exactly what was printed for it. */
  lemma {:induction false} ReadUnit(s: string, i: nat, q: char, c: char)
    requires q == '\'' || q == '"'
    requires q == '"' ==> c != '"'
    requires i + |Unit(c, q)| < |s| && s[i..i + |Unit(c, q)|] == Unit(c, q)
    ensures PyBody(s, i, q) == Prepend([c], PyBody(s, i + |Unit(c, q)|, q))
  {
    var u := Unit(c, q);
    assert forall k :: 0 <= k < |u| ==> s[i + k] == s[i..i + |u|][k] == u[k];
    if |u| == 4 {
      var n := c as nat;
      NoQuoteInHex(n / 16);
      NoQuoteInHex(n % 16);
      assert s[i] == u[0] == '\\' && s[i + 1] == u[1] == 'x';
      assert s[i + 2] == u[2] == HexDigit(n / 16) && s[i + 3] == u[3] == HexDigit(n % 16);
      assert n / 16 * 16 + n % 16 == n;
    } else if |u| == 2 {
      assert s[i] == u[0] == '\\' && s[i + 1] == u[1];
    } else {
      assert s[i] == u[0] == c;
    }
  }

  lemma {:induction false} ReadBody(s: string, i: nat, text: string, q: char)
    requires q == '\'' || q == '"'
    requires q == '"' ==> '"' !in text
    requires i <= |s| && s[i..] == Body(text, q) + [q]
    ensures PyBody(s, i, q) == Some(text)
    decreases |text|
  {
    hide PyBody, Unit;
    if text == "" {
      assert s[i..] == [q];
      ReadClose(s, i, q);
    } else {
      var u, rest := Unit(text[0], q), Body(text[1..], q);
      Assoc(u, rest, [q]);
      SuffixSplit(s, i, u, rest + [q]);
      ReadUnit(s, i, q, text[0]);
      ReadBody(s, i + |u|, text[1..], q);
      assert [text[0]] + text[1..] == text;
    }
  }

  lemma {:induction false} ReadClose(s: string, i: nat, q: char)
    requires i <= |s| && s[i..] == [q] && (q == '\'' || q == '"')
    ensures PyBody(s, i, q) == Some("")
  {
    assert s[i] == s[i..][0];
  }

  predicate Printable(s: string) {
    forall k :: 0 <= k < |s| ==> s[k] >= ' ' && s[k] != '\U{7F}'
  }

  lemma {:induction false} BodyPrintable(text: string, q: char)
    ensures Printable(Body(text, q))
  {
    if text != "" {
      BodyPrintable(text[1..], q);
      var c := text[0];
      if c < ' ' || c == '\U{7F}' {
        NoQuoteInHex(c as nat / 16);
        NoQuoteInHex(c as nat % 16);
      }
      assert Printable(Unit(c, q));
    }
  }

  lemma {:induction false} PyQuoteFits(text: string)
    ensures PyQuote(text) == '\'' || (PyQuote(text) == '"' && '"' !in text)
  {
  }

  /** Decoding the printed literal of any string gives the string, and the literal holds no control character. */
  lemma {:induction false} PyStringRoundTrip(text: string)
    ensures PyDecode(PyString(text)) == Some(text)
    ensures Printable(PyString(text))
  {
    hide PyBody, PyQuote;
    var q := PyQuote(text);
    PyQuoteFits(text);
    BodyOfPyString(text, q);
    BodyPrintable(text, q);
    var s := PyString(text);
    assert s == [q] + Body(text, q) + [q];
    assert s[1..] == Body(text, q) + [q];
    ReadBody(s, 1, text, q);
  }

  // ---------------------------------------------------------------- lists for IN (...)

  /** The first comma at top level from `i` on, or the end of the text. */
  function ItemEnd(s: string, i: nat): nat
    decreases |s| - i
  {
    if i >= |s| then |s|
    else if s[i] == ',' then i
    else match Element(s, i) {
      case Open => |s|
      case Closed(e) => ItemEnd(s, e)
    }
  }

  lemma {:induction false} ItemEndBounds(s: string, i: nat)
    requires i <= |s|
    ensures i <= ItemEnd(s, i) <= |s|
    decreases |s| - i
  {
    if i < |s| && s[i] != ',' && Element(s, i).Closed? {
      ItemEndBounds(s, Element(s, i).end);
    }
  }

  /** The items between top-level commas, as the SQL lexer sees them, without surrounding space. */
  function SplitList(s: string, i: nat): seq<string>
    requires i <= |s|
    decreases |s| - i
  {
    ItemEndBounds(s, i);
    var k := ItemEnd(s, i);
    [Trim(s[i..k])] + if k < |s| then SplitList(s, k + 1) else []
  }

  /** A text that is one list item: no space around it, no top-level comma, and it ends at top level. */
  predicate IsItem(p: string) {
    && p != "" && !IsSpace(p[0]) && !IsSpace(p[|p| - 1])
    && TopLevel(p, |p|) && ItemEnd(p, 0) == |p|
  }

  lemma {:induction false} ItemEndFramed(t: string, d: nat, p: string, i: nat)
    requires Framed(t, d, p) && (d + |p| < |t| ==> t[d + |p|] == ',')
    requires i <= |p| && Reaches(p, i, |p|) && ItemEnd(p, i) == |p|
    ensures ItemEnd(t, d + i) == d + |p|
    decreases |p| - i
  {
    hide Element;
    WindowChars(t, d, p);
    if i < |p| {
      ElementFramed(t, d, p, i);
      ItemEndFramed(t, d, p, Element(p, i).end);
    }
  }

  lemma {:induction false} TrimOfItem(p: string)
    requires p != "" && !IsSpace(p[0]) && !IsSpace(p[|p| - 1])
    ensures Trim(p) == p && Trim(" " + p) == p
  {
    assert Lead(p) == 0 && p[0..] == p;
    assert (" " + p)[1..] == p;
    assert Lead(" " + p) == 1;
    assert Trail(p) == |p|;
  }

  /** The item that stands at `d`, after at most one space, is the first one split off. */
  lemma {:induction false} FirstItem(t: string, d: nat, lead: string, p: string, rest: string)
    requires (lead == "" || lead == " ") && IsItem(p)
    requires d <= |t| && t[d..] == lead + (p + rest) && (rest != "" ==> rest[0] == ',')
    ensures
      var k := d + |lead| + |p|;
      k <= |t| && t[k..] == rest && ItemEnd(t, d) == k && Trim(t[d..k]) == p
  {
    hide Trim, ItemEnd, Reaches, IsSpace;
    var m := d + |lead|;
    SuffixSplit(t, d, lead, p + rest);
    SuffixSplit(t, m, p, rest);
    ItemEndFramed(t, m, p, 0);
    SkipLeadingSpace(t, d, lead);
    TrimOfItem(p);
    Glue(t, d, m, m + |p|);
    assert lead == "" ==> lead + p == p;
  }

  lemma {:induction false} Glue(t: string, d: nat, m: nat, k: nat)
    requires d <= m <= k <= |t|
    ensures t[d..k] == t[d..m] + t[m..k]
  {
  }

  lemma {:induction false} SkipLeadingSpace(t: string, d: nat, lead: string)
    requires lead == "" || lead == " "
    requires d + |lead| <= |t| && t[d..d + |lead|] == lead
    ensures ItemEnd(t, d) == ItemEnd(t, d + |lead|)
  {
    hide Element;
    if lead == " " {
      assert t[d] == t[d..d + 1][0] == ' ';
      assert KindAt(t, d) == Plain;
    }
  }

  lemma {:induction false} JoinCons(p: string, parts: seq<string>)
    ensures Join([p] + parts, ", ") == p + if parts == [] then "" else "," + (" " + Join(parts, ", "))
  {
    assert ([p] + parts)[1..] == parts;
    assert p + "" == p;
    assert p + ", " + Join(parts, ", ") == p + ("," + (" " + Join(parts, ", ")));
  }

  lemma {:induction false} SplitJoined(t: string, d: nat, lead: string, parts: seq<string>)
    requires lead == "" || lead == " "
    requires parts != [] && forall k :: 0 <= k < |parts| ==> IsItem(parts[k])
    requires d <= |t| && t[d..] == lead + Join(parts, ", ")
    ensures SplitList(t, d) == parts
    decreases |parts|
  {
    hide ItemEnd, IsItem, Trim, Join;
    var p, others := parts[0], parts[1..];
    assert parts == [p] + others;
    JoinCons(p, others);
    var rest := if others == [] then "" else "," + (" " + Join(others, ", "));
    FirstItem(t, d, lead, p, rest);
    var k := d + |lead| + |p|;
    if others != [] {
      SuffixSplit(t, k, ",", " " + Join(others, ", "));
      SplitJoined(t, k + 1, " ", others);
    }
  }

  // Numbers, truth values and null print without quotes.

  predicate IsBare(v: Value) {
    v.Null? || v.Bool? || v.Num?
  }

  /** Characters that `String(number)` uses. */
  predicate IsNumberChar(c: char) {
    IsDigit(c) || 'A' <= c <= 'Z' || 'a' <= c <= 'z' || c == '.' || c == '+' || c == '-'
  }

  /** A list item whose number, if it is one, is printed as JavaScript prints numbers. */
  predicate NumberText(v: Value) {
    v.Num? ==> v.text != "" && forall k :: 0 <= k < |v.text| ==> IsNumberChar(v.text[k])
  }

  lemma {:induction false} BareIsItem(p: string, i: nat)
    requires i <= |p| && forall k :: 0 <= k < |p| ==> IsNumberChar(p[k])
    requires !Includes(p, "--")
    ensures Reaches(p, i, |p|) && ItemEnd(p, i) == |p|
    decreases |p| - i
  {
    hide Element;
    if i < |p| {
      AtTwo(p, '-', '-');
      IndexOfFirst(p, "--", 0);
      assert KindAt(p, i) == Plain;
      BareIsItem(p, i + 1);
    }
  }

  lemma {:induction false} StringCloseAtEnd(p: string, i: nat)
    requires 1 <= i < |p| && p[|p| - 1] == '\'' && forall k :: i <= k < |p| - 1 ==> p[k] != '\''
    ensures StringClose(p, i) == Closed(|p|)
    decreases |p| - i
  {
    if i < |p| - 1 {
      StringCloseAtEnd(p, i + 1);
    }
  }

  lemma {:induction false} QuotedIsItem(text: string)
    requires '\'' !in text
    ensures IsItem("'" + text + "'")
  {
    var p := "'" + text + "'";
    assert forall k :: 1 <= k < |p| - 1 ==> p[k] == text[k - 1];
    StringCloseAtEnd(p, 1);
    assert Element(p, 0) == Closed(|p|);
    assert Reaches(p, |p|, |p|) && ItemEnd(p, |p|) == |p|;
  }

  /** What a guarded item prints as. */
  function PrintedItem(v: Value): string {
    if IsBare(v) then Render(v) else "'" + Render(v) + "'"
  }

  lemma {:induction false} PrintedIsItem(name: string, v: Value)
    requires NumberText(v) && FirstUnsafe(name, Render(v), 0).None?
    ensures IsItem(PrintedItem(v))
  {
    GuardIsSqlSafe(name, Render(v), 0);
    if IsBare(v) {
      assert !Includes(Render(v), INJECTION_TOKENS[3]);
      BareIsItem(Render(v), 0);
    } else {
      SafeHasNoQuote(Render(v));
      QuotedIsItem(Render(v));
    }
  }

  lemma {:induction false} RenderedParts(name: string, items: seq<Value>)
    requires forall k :: 0 <= k < |items| ==> NumberText(items[k])
    ensures
      var r := RenderItems(name, items, true, false);
      r.Ok? ==> |r.value| == |items| && forall k :: 0 <= k < |items| ==> r.value[k] == PrintedItem(items[k]) && IsItem(r.value[k])
  {
    if items != [] {
      RenderedParts(name, items[1..]);
      if RenderItem(name, items[0], true, false).Ok? {
        PrintedIsItem(name, items[0]);
      }
    }
  }

  /** A guarded list splits, by the SQL lexer, into one printed item for each value, in order. */
  lemma {:induction false} SqlListRoundTrip(name: string, items: seq<Value>)
    requires forall k :: 0 <= k < |items| ==> NumberText(items[k])
    ensures
      var r := RenderList(name, List(items), true, false);
      r.Ok? ==> SplitList(r.value, 0) == seq(|items|, k requires 0 <= k < |items| => PrintedItem(items[k]))
  {
    var r := RenderList(name, List(items), true, false);
    if r.Ok? {
      RenderedParts(name, items);
      var parts := RenderItems(name, items, true, false).value;
      assert r.value[0..] == "" + Join(parts, ", ");
      SplitJoined(r.value, 0, "", parts);
      assert parts == seq(|items|, k requires 0 <= k < |items| => PrintedItem(items[k]));
    }
  }
}
