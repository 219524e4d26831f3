/** Printing pipeline values into SQL and Python text, and reading the printed text back. */
module SqlValues {
  import opened Text

  /** A pipeline value. `Num` holds the text that `String(n)` gives for the number. */
  datatype Value = Undefined | Null | Bool(b: bool) | Num(text: string) | Str(text: string) | List(items: seq<Value>)

  datatype Error =
    | Unsafe(name: string, token: string)
    | ControlChars(name: string)
    | MustBeList(name: string)
    | EmptyList(name: string)
    | NoNodeValue(name: string)
    | NoVarValue(name: string)

  // ---------------------------------------------------------------- the injection guard

  const INJECTION_TOKENS: seq<string> := ["'", "\"", ";", "--", "/*", "*/", "\\"]

  predicate Includes(s: string, token: string) {
    IndexOf(s, token, 0).Some?
  }

  predicate IsControl(c: char) {
    c < ' '
  }

  /** What the guard accepts: no token that closes a literal, joins statements or opens a comment, no control character. */
  predicate SqlSafe(s: string) {
    && (forall k :: 0 <= k < |INJECTION_TOKENS| ==> !Includes(s, INJECTION_TOKENS[k]))
    && (forall k :: 0 <= k < |s| ==> !IsControl(s[k]))
  }

  /** The first error the guard meets, as `assertSqlSafe` throws it. */
  function FirstUnsafe(name: string, s: string, k: nat): Option<Error>
    requires k <= |INJECTION_TOKENS|
    decreases |INJECTION_TOKENS| - k
  {
    if k < |INJECTION_TOKENS| then
      if Includes(s, INJECTION_TOKENS[k]) then Some(Unsafe(name, INJECTION_TOKENS[k])) else FirstUnsafe(name, s, k + 1)
    else if exists j :: 0 <= j < |s| && IsControl(s[j]) then Some(ControlChars(name))
    else None
  }

  lemma {:induction false} GuardIsSqlSafe(name: string, s: string, k: nat)
    requires k <= |INJECTION_TOKENS|
    requires forall j :: 0 <= j < k ==> !Includes(s, INJECTION_TOKENS[j])
    ensures FirstUnsafe(name, s, k).None? <==> SqlSafe(s)
    ensures FirstUnsafe(name, s, k).Some? ==> About(FirstUnsafe(name, s, k).value, name) && Found(FirstUnsafe(name, s, k).value, s)
    decreases |INJECTION_TOKENS| - k
  {
    if k < |INJECTION_TOKENS| && !Includes(s, INJECTION_TOKENS[k]) {
      GuardIsSqlSafe(name, s, k + 1);
    }
  }

  /** The error is one of the guard, about this name. */
  predicate About(e: Error, name: string) {
    (e.Unsafe? || e.ControlChars?) && e.name == name
  }

  /** The text holds what the error complains of. */
  predicate Found(e: Error, s: string) {
    (e.Unsafe? ==> Includes(s, e.token)) && (e.ControlChars? ==> exists k :: 0 <= k < |s| && s[k] as int < 0x20)
  }

  /** No quote, no backslash, no semicolon, no character below the space, and no pair that opens or closes a comment. */
  predicate Harmless(s: string) {
    && (forall k :: 0 <= k < |s| ==>
          s[k] != '\'' && s[k] != '"' && s[k] != ';' && s[k] != '\\' && s[k] as int >= 0x20)
    && (forall k :: 0 <= k < |s| - 1 ==>
          !(s[k] == '-' && s[k + 1] == '-') && !(s[k] == '/' && s[k + 1] == '*') && !(s[k] == '*' && s[k + 1] == '/'))
  }

  lemma {:induction false} IncludesChar(s: string, c: char)
    ensures Includes(s, [c]) <==> exists k :: 0 <= k < |s| && s[k] == c
  {
    AtOne(s, c);
    IndexOfFirst(s, [c], 0);
  }

  lemma {:induction false} IncludesPair(s: string, c: char, d: char)
    ensures Includes(s, [c, d]) <==> exists k :: 0 <= k < |s| - 1 && s[k] == c && s[k + 1] == d
  {
    AtTwo(s, c, d);
    IndexOfFirst(s, [c, d], 0);
    var r := IndexOf(s, [c, d], 0);
    hide IndexOf, At;
    if r.Some? {
      var p := r.value;
      assert p < |s| - 1 && s[p] == c && s[p + 1] == d;
    } else {
      forall k | 0 <= k < |s| - 1 ensures !(s[k] == c && s[k + 1] == d) {
        assert !At(s, [c, d], k);
      }
    }
  }

  lemma {:induction false} TokensAre()
    ensures INJECTION_TOKENS == [['\''], ['"'], [';'], ['-', '-'], ['/', '*'], ['*', '/'], ['\\']]
  {
  }

  /** The guard, spelled out in characters. */
  lemma {:induction false} SafeIsHarmless(s: string)
    ensures SqlSafe(s) <==> Harmless(s)
  {
    TokensAre();
    IncludesChar(s, '\'');
    IncludesChar(s, '"');
    IncludesChar(s, ';');
    IncludesChar(s, '\\');
    IncludesPair(s, '-', '-');
    IncludesPair(s, '/', '*');
    IncludesPair(s, '*', '/');
    hide Includes;
    var ts := INJECTION_TOKENS;
    assert SqlSafe(s) <==>
      && !Includes(s, ts[0]) && !Includes(s, ts[1]) && !Includes(s, ts[2]) && !Includes(s, ts[3])
      && !Includes(s, ts[4]) && !Includes(s, ts[5]) && !Includes(s, ts[6])
      && (forall k :: 0 <= k < |s| ==> !IsControl(s[k]));
  }

  method AssertSqlSafe(name: string, rendered: string) returns (error: Option<Error>)
    ensures error == FirstUnsafe(name, rendered, 0)
    ensures error.None? <==> Harmless(rendered)
    ensures error.Some? ==> About(error.value, name) && Found(error.value, rendered)
  {
    GuardIsSqlSafe(name, rendered, 0);
    SafeIsHarmless(rendered);
    hide Harmless, SqlSafe, Includes, Found;
    for k := 0 to |INJECTION_TOKENS|
      invariant FirstUnsafe(name, rendered, 0) == FirstUnsafe(name, rendered, k)
    {
      if Includes(rendered, INJECTION_TOKENS[k]) {
        return Some(Unsafe(name, INJECTION_TOKENS[k]));
      }
    }
    for j := 0 to |rendered|
      invariant forall i :: 0 <= i < j ==> !IsControl(rendered[i])
    {
      if IsControl(rendered[j]) {
        return Some(ControlChars(name));
      }
    }
    return None;
  }

  /** A guarded value cannot close the single-quoted literal it stands in. */
  lemma {:induction false} SafeHasNoQuote(s: string)
    requires SqlSafe(s)
    ensures '\'' !in s
  {
    AtOne(s, '\'');
    IndexOfFirst(s, "'", 0);
    assert !Includes(s, INJECTION_TOKENS[0]);
  }

  // ---------------------------------------------------------------- rendering

  /** `String(value)`; a list inside a list prints its items joined by commas. */
  function StringOf(v: Value): string {
    match v
    case Undefined => "undefined"
    case Null => "null"
    case Bool(b) => if b then "true" else "false"
    case Num(text) => text
    case Str(text) => text
    case List(items) => CommaJoin(items)
  }

  function CommaJoin(items: seq<Value>): string {
    if items == [] then ""
    else
      var first := if items[0].Undefined? || items[0].Null? then "" else StringOf(items[0]);
      if |items| == 1 then first else first + "," + CommaJoin(items[1..])
  }

  function Render(v: Value): string {
    if v.Null? || v.Undefined? then "null" else StringOf(v)
  }

  function PyEscape(c: char): string {
    if c == '\\' then "\\\\"
    else if c == '\t' then "\\t"
    else if c == '\n' then "\\n"
    else if c == '\r' then "\\r"
    else if c < ' ' || c == '\U{7F}' then ['\\', 'x', HexDigit(c as nat / 16), HexDigit(c as nat % 16)]
    else [c]
  }

  function HexDigit(d: nat): char
    requires d < 16
  {
    if d < 10 then '0' + d as char else 'a' + (d - 10) as char
  }

  function PyEscapeBody(text: string): string {
    if text == "" then "" else PyEscape(text[0]) + PyEscapeBody(text[1..])
  }

  /** Puts a backslash before every single quote. */
  function EscapeQuotes(text: string): string {
    if text == "" then ""
    else (if text[0] == '\'' then "\\'" else [text[0]]) + EscapeQuotes(text[1..])
  }

  function PyQuote(text: string): char {
    if '\'' in text && '"' !in text then '"' else '\''
  }

  function PyString(text: string): string {
    var body := PyEscapeBody(text);
    if PyQuote(text) == '"' then "\"" + body + "\"" else "'" + EscapeQuotes(body) + "'"
  }

  function PyLiteral(v: Value): string {
    match v
    case Undefined => "None"
    case Null => "None"
    case Bool(b) => if b then "True" else "False"
    case Num(text) => text
    case Str(text) => PyString(text)
    case List(items) => PyString(StringOf(v))
  }

  function RenderItem(name: string, item: Value, guard: bool, python: bool): Result<string, Error> {
    if python then Ok(PyLiteral(item))
    else
      var rendered := Render(item);
      if !guard then Ok(rendered)
      else match FirstUnsafe(name, rendered, 0) {
        case Some(e) => Err(e)
        case None => Ok(if item.Null? || item.Bool? || item.Num? then rendered else "'" + rendered + "'")
      }
  }

  function RenderItems(name: string, items: seq<Value>, guard: bool, python: bool): Result<seq<string>, Error> {
    if items == [] then Ok([])
    else
      var first :- RenderItem(name, items[0], guard, python);
      var rest :- RenderItems(name, items[1..], guard, python);
      Ok([first] + rest)
  }

  /** `renderList`: the text for the inside of `IN (...)`. */
  function RenderList(name: string, raw: Value, guard: bool, python: bool): Result<string, Error> {
    if !raw.List? then Err(MustBeList(name))
    else if raw.items == [] then Err(EmptyList(name))
    else
      var parts :- RenderItems(name, raw.items, guard, python);
      Ok(Join(parts, ", "))
  }

  // ---------------------------------------------------------------- reading a Python string literal

  /** The value of a hexadecimal digit. */
  function HexValue(c: char): Option<nat> {
    if '0' <= c <= '9' then Some((c - '0') as nat)
    else if 'a' <= c <= 'f' then Some((c - 'a') as nat + 10)
    else if 'A' <= c <= 'F' then Some((c - 'A') as nat + 10)
    else None
  }

  function OctalEnd(s: string, i: nat, most: nat): (j: nat)
    requires i <= |s|
    ensures i <= j <= |s|
    decreases most
  {
    if 0 < most && i < |s| && '0' <= s[i] <= '7' then OctalEnd(s, i + 1, most - 1) else i
  }

  function OctalValue(s: string): nat {
    if s == "" || !('0' <= s[|s| - 1] <= '7') then 0
    else 8 * OctalValue(s[..|s| - 1]) + (s[|s| - 1] - '0') as nat
  }

  /** One-character escapes of the Python string literal grammar. */
  function NamedEscape(c: char): Option<char> {
    match c
    case '\\' => Some('\\')
    case '\'' => Some('\'')
    case '"' => Some('"')
    case 'a' => Some('\U{07}')
    case 'b' => Some('\U{08}')
    case 'f' => Some('\U{0C}')
    case 'n' => Some('\n')
    case 'r' => Some('\r')
    case 't' => Some('\t')
    case 'v' => Some('\U{0B}')
    case _ => None
  }

  /**
   * Reads the rest of a string literal quoted by `q` up to the closing quote, which must end the text.
   * Escapes follow section 2.4.1 of the Python 3.12 Language Reference, without the `\N`, `\u` and `\U` forms.
   */
  function PyBody(s: string, i: nat, q: char): Option<string>
    requires i <= |s|
    decreases |s| - i
  {
    if i == |s| || s[i] == '\n' || s[i] == '\r' || s[i] == '\0' then None
    else if s[i] == q then (if i + 1 == |s| then Some("") else None)
    else if s[i] != '\\' then Prepend([s[i]], PyBody(s, i + 1, q))
    else if i + 1 == |s| then None
    else if s[i + 1] == '\n' then PyBody(s, i + 2, q)
    else if NamedEscape(s[i + 1]).Some? then Prepend([NamedEscape(s[i + 1]).value], PyBody(s, i + 2, q))
    else if s[i + 1] == 'x' then
      if i + 3 < |s| && HexValue(s[i + 2]).Some? && HexValue(s[i + 3]).Some? then
        Prepend([(16 * HexValue(s[i + 2]).value + HexValue(s[i + 3]).value) as char], PyBody(s, i + 4, q))
      else None
    else if '0' <= s[i + 1] <= '7' then
      var j := OctalEnd(s, i + 2, 2);
      Prepend([(OctalValue(s[i + 1..j]) % 0x200) as char], PyBody(s, j, q))
    else if s[i + 1] == 'N' || s[i + 1] == 'u' || s[i + 1] == 'U' then None
    else Prepend([s[i], s[i + 1]], PyBody(s, i + 2, q))
  }

  function Prepend(s: string, rest: Option<string>): Option<string> {
    match rest
    case None => None
    case Some(t) => Some(s + t)
  }

  function PyDecode(s: string): Option<string> {
    if s != "" && (s[0] == '\'' || s[0] == '"') then PyBody(s, 1, s[0]) else None
  }
}
