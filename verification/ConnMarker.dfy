/** The comment line `-- @conn "name"` that sends one statement to another connection, found, removed and written. */
module ConnMarker {
  import opened Text

  /** A marker: its name and the lines `from..to` that it covers. */
  datatype Marker = Marker(name: string, from: nat, to: nat)

  /** A marker at the start of a text: its name and its length. */
  datatype Hit = Hit(name: string, len: nat)

  /** `delta` is how far positions from `at` on move. */
  datatype MarkerEdit = MarkerEdit(text: string, delta: int, at: nat)

  // ---------------------------------------------------------------- the pattern

  function SkipBlanks(u: string, k: nat): (r: nat)
    requires k <= |u|
    ensures k <= r <= |u|
    decreases |u| - k
  {
    if k < |u| && IsBlank(u[k]) then SkipBlanks(u, k + 1) else k
  }

  /** The first newline from `k` on, or the end of the text. */
  function LineEnd(u: string, k: nat): (r: nat)
    requires k <= |u|
    ensures k <= r <= |u|
    decreases |u| - k
  {
    if k < |u| && u[k] != '\n' then LineEnd(u, k + 1) else k
  }

  /** The position behind the line break at `k`; the end of the text counts as one. */
  function BreakEnd(u: string, k: nat): (r: Option<nat>)
    requires k <= |u|
    ensures r.Some? ==> k <= r.value <= |u|
  {
    if k == |u| then Some(k)
    else if u[k] == '\n' then Some(k + 1)
    else if u[k] == '\r' && k + 1 < |u| && u[k + 1] == '\n' then Some(k + 2)
    else None
  }

  /** The position behind the quote that closes a name; a doubled quote does not close it. */
  function QuoteClose(u: string, k: nat): (r: Option<nat>)
    requires k <= |u|
    ensures r.Some? ==> k < r.value <= |u|
    decreases |u| - k
  {
    if k == |u| then None
    else if u[k] != '"' then QuoteClose(u, k + 1)
    else if k + 1 < |u| && u[k + 1] == '"' then QuoteClose(u, k + 2)
    else Some(k + 1)
  }

  predicate ConnWordAt(u: string, k: nat) {
    && k + 5 <= |u|
    && u[k] == '@' && LowerChar(u[k + 1]) == 'c' && LowerChar(u[k + 2]) == 'o'
    && LowerChar(u[k + 3]) == 'n' && LowerChar(u[k + 4]) == 'n'
    && (k + 5 < |u| ==> !IsWord(u[k + 5]))
  }

  /** `-- @conn` at the start of a line, in any case: where the name would start. */
  function Attempt(u: string): (r: Option<nat>)
    ensures r.Some? ==> 7 <= r.value <= |u|
  {
    var p := SkipBlanks(u, 0);
    if p + 2 <= |u| && u[p] == '-' && u[p + 1] == '-' then
      var q := SkipBlanks(u, p + 2);
      if ConnWordAt(u, q) then Some(SkipBlanks(u, q + 5)) else None
    else None
  }

  function Unquote(raw: string): string {
    if |raw| < 2 then raw
    else if raw[0] == '"' && raw[1] == '"' then "\"" + Unquote(raw[2..])
    else [raw[0]] + Unquote(raw[1..])
  }

  /** A quoted name starts at `p`; only blanks may follow it on its line. */
  function QuotedMatch(u: string, p: nat): (r: Option<Hit>)
    requires p < |u|
    ensures r.Some? ==> p < r.value.len <= |u|
  {
    match QuoteClose(u, p + 1)
    case None => None
    case Some(e) =>
      match BreakEnd(u, SkipBlanks(u, e)) {
        case None => None
        case Some(f) => Some(Hit(Unquote(u[p + 1..e - 1]), f))
      }
  }

  /** A name without quotes, up to the end of the line, or no name at all. */
  function UnquotedMatch(u: string, p: nat): (r: Option<Hit>)
    requires p <= |u|
    ensures r.Some? ==> p <= r.value.len <= |u|
  {
    if p < |u| && !IsSpace(u[p]) then
      var e := LineEnd(u, p);
      Some(Hit(Trim(u[p..e]), if e < |u| then e + 1 else e))
    else match BreakEnd(u, p) {
      case None => None
      case Some(f) => Some(Hit("", f))
    }
  }

  /** The marker pattern at the start of a line, with the line break that ends it. */
  function MatchHere(u: string): (r: Option<Hit>)
    ensures r.Some? ==> 0 < r.value.len <= |u|
  {
    match Attempt(u)
    case None => None
    case Some(p) => if p < |u| && u[p] == '"' then QuotedMatch(u, p) else UnquotedMatch(u, p)
  }

  predicate LineStart(s: string, i: nat) {
    i == 0 || (i <= |s| && s[i - 1] == '\n')
  }

  function MatchAt(s: string, i: nat): (r: Option<Marker>)
    requires i <= |s|
    ensures r.Some? ==> r.value.from == i < r.value.to <= |s|
  {
    if LineStart(s, i) && MatchHere(s[i..]).Some? then
      var hit := MatchHere(s[i..]).value;
      Some(Marker(hit.name, i, i + hit.len))
    else None
  }

  /** The first match at or after `i`, as `exec` finds it from `lastIndex`. */
  function Exec(s: string, i: nat): (r: Option<Marker>)
    requires i <= |s|
    ensures r.Some? ==> i <= r.value.from < r.value.to <= |s|
    decreases |s| - i
  {
    if MatchAt(s, i).Some? then MatchAt(s, i)
    else if i == |s| then None
    else Exec(s, i + 1)
  }

  function Markers(s: string, i: nat): seq<Marker>
    requires i <= |s|
    decreases |s| - i
  {
    match Exec(s, i)
    case None => []
    case Some(m) => [m] + Markers(s, m.to)
  }

  // ---------------------------------------------------------------- finding and removing

  lemma {:induction false} NoMarkerWithoutAt(s: string, i: nat)
    requires i <= |s| && '@' !in s
    ensures Exec(s, i).None?
    decreases |s| - i
  {
    hide MatchHere;
    if Attempt(s[i..]).Some? {
      AttemptHasAt(s[i..]);
    }
    MatchNeedsAttempt(s[i..]);
    if i < |s| {
      NoMarkerWithoutAt(s, i + 1);
    }
  }

  lemma {:induction false} AttemptHasAt(u: string)
    requires Attempt(u).Some?
    ensures '@' in u
  {
  }

  lemma {:induction false} MatchNeedsAttempt(u: string)
    ensures MatchHere(u).Some? ==> Attempt(u).Some?
  {
    hide Attempt, QuotedMatch;
  }

  method FindMarkers(text: string) returns (out: seq<Marker>)
    ensures out == Markers(text, 0)
  {
    out := [];
    if '@' !in text {
      NoMarkerWithoutAt(text, 0);
      return;
    }
    hide Exec;
    var lastIndex := 0;
    var m := Exec(text, lastIndex);
    while m.Some?
      invariant 0 <= lastIndex <= |text| && m == Exec(text, lastIndex)
      invariant Markers(text, 0) == out + Markers(text, lastIndex)
      decreases |text| - lastIndex
    {
      Assoc(out, [m.value], Markers(text, m.value.to));
      out := out + [m.value];
      lastIndex := m.value.to;
      m := Exec(text, lastIndex);
    }
  }

  /** Markers in order, inside the part of `s` from `last` on. */
  predicate InOrder(s: string, marks: seq<Marker>, last: nat) {
    if marks == [] then last <= |s|
    else last <= marks[0].from <= marks[0].to && InOrder(s, marks[1..], marks[0].to)
  }

  lemma {:induction false} MarkersInOrder(s: string, i: nat)
    requires i <= |s|
    ensures InOrder(s, Markers(s, i), i)
    decreases |s| - i
  {
    hide Exec;
    if Exec(s, i).Some? {
      MarkersInOrder(s, Exec(s, i).value.to);
    }
  }

  lemma {:induction false} InOrderBound(s: string, marks: seq<Marker>, last: nat)
    requires InOrder(s, marks, last)
    ensures last <= |s|
  {
    if marks != [] {
      InOrderBound(s, marks[1..], marks[0].to);
    }
  }

  /** The text from `last` on without the marker lines. */
  function Gaps(s: string, marks: seq<Marker>, last: nat): string
    requires InOrder(s, marks, last)
  {
    if marks == [] then s[last..]
    else
      InOrderBound(s, marks[1..], marks[0].to);
      s[last..marks[0].from] + Gaps(s, marks[1..], marks[0].to)
  }

  function Strip(s: string): string {
    MarkersInOrder(s, 0);
    Gaps(s, Markers(s, 0), 0)
  }

  /** The loop that `stripMarkers` and `upsertMarker` share: copy what lies between the markers. */
  method CopyGaps(s: string, marks: seq<Marker>, start: nat) returns (out: string)
    requires InOrder(s, marks, start)
    ensures out == Gaps(s, marks, start)
  {
    out := "";
    var last := start;
    InOrderBound(s, marks, start);
    assert marks[0..] == marks;
    for k := 0 to |marks|
      invariant InOrder(s, marks[k..], last)
      invariant Gaps(s, marks, start) == out + Gaps(s, marks[k..], last)
    {
      assert marks[k..][1..] == marks[k + 1..];
      InOrderBound(s, marks[k + 1..], marks[k].to);
      Assoc(out, s[last..marks[k].from], Gaps(s, marks[k + 1..], marks[k].to));
      out := out + s[last..marks[k].from];
      last := marks[k].to;
    }
    InOrderBound(s, [], last);
    out := out + s[last..];
  }

  method StripMarkers(text: string) returns (out: string)
    ensures out == Strip(text)
  {
    var marks := FindMarkers(text);
    MarkersInOrder(text, 0);
    if |marks| == 0 {
      assert text[0..] == text;
      return text;
    }
    out := CopyGaps(text, marks, 0);
  }

  // ---------------------------------------------------------------- writing

  function EscapeName(name: string): string {
    if name == "" then "" else (if name[0] == '"' then "\"\"" else [name[0]]) + EscapeName(name[1..])
  }

  function MarkerLine(name: string): string {
    "-- @conn \"" + EscapeName(name) + "\""
  }

  /** Where a marker goes into a statement without one: the start of the first line with content. */
  function InsertAt(stmt: string): (at: nat)
    ensures at <= |stmt|
  {
    LastLine(stmt, Lead(stmt))
  }

  /** The start of the line in which position `k` lies. */
  function LastLine(s: string, k: nat): (r: nat)
    requires k <= |s|
    ensures r <= k
  {
    if k == 0 || s[k - 1] == '\n' then k else LastLine(s, k - 1)
  }

  function Upsert(stmt: string, name: Option<string>): MarkerEdit {
    var marks := Markers(stmt, 0);
    var line := if name.None? then "" else MarkerLine(name.value) + "\n";
    if marks != [] then
      MarkersInOrder(stmt, 0);
      InOrderBound(stmt, marks[1..], marks[0].to);
      var text := stmt[..marks[0].from] + line + Gaps(stmt, marks[1..], marks[0].to);
      MarkerEdit(text, |text| - |stmt|, marks[0].from)
    else if name.None? then MarkerEdit(stmt, 0, 0)
    else
      var at := InsertAt(stmt);
      MarkerEdit(stmt[..at] + line + stmt[at..], |line|, at)
  }

  method UpsertMarker(stmt: string, name: Option<string>) returns (edit: MarkerEdit)
    ensures edit == Upsert(stmt, name)
  {
    var marks := FindMarkers(stmt);
    var line := if name.None? then "" else MarkerLine(name.value) + "\n";
    if |marks| > 0 {
      MarkersInOrder(stmt, 0);
      InOrderBound(stmt, marks[1..], marks[0].to);
      var rest := CopyGaps(stmt, marks[1..], marks[0].to);
      var out := stmt[..marks[0].from] + line + rest;
      return MarkerEdit(out, |out| - |stmt|, marks[0].from);
    }
    if name.None? {
      return MarkerEdit(stmt, 0, 0);
    }
    var at := InsertAt(stmt);
    return MarkerEdit(stmt[..at] + line + stmt[at..], |line|, at);
  }

  /** `mergeBody`: a marker typed into the body wins, otherwise the one of the previous source stays. */
  function MergeBody(prev: string, body: string): string {
    var typed, kept := Markers(body, 0), Markers(prev, 0);
    if typed != [] then Upsert(body, Some(typed[0].name)).text
    else if kept != [] then Upsert(body, Some(kept[0].name)).text
    else body
  }

  // ---------------------------------------------------------------- resolving

  datatype Conn = Conn(id: string, name: string, kind: string)

  datatype ResolveError = TooMany(n: nat) | NoName | NotFound(name: string)

  datatype Target = Inherit | Connection(id: string, name: string, kind: string) | Duck | Error(error: ResolveError)

  const DUCK_MARKER_NAME := "연합 조회"

  function FindConn(conns: seq<Conn>, name: string): Option<Conn> {
    if conns == [] then None
    else if Norm(conns[0].name) == Norm(name) then Some(conns[0])
    else FindConn(conns[1..], name)
  }

  function ResolveName(name: string, conns: seq<Conn>): Target {
    if name == "" then Error(NoName)
    else match FindConn(conns, name) {
      case Some(c) => Connection(c.id, c.name, c.kind)
      case None => if Norm(name) == Norm(DUCK_MARKER_NAME) then Duck else Error(NotFound(name))
    }
  }

  /** `resolveConn`: where a statement goes. */
  function Resolve(text: string, conns: seq<Conn>): Target {
    var marks := Markers(text, 0);
    if marks == [] then Inherit
    else if |marks| > 1 then Error(TooMany(|marks|))
    else ResolveName(marks[0].name, conns)
  }
}
