/** Where the marker pattern matches and where it does not, what surrounds a written marker, and the form of an update. */
module ConnMarkerParts {
  import opened Text
  import opened ConnMarker

  // ---------------------------------------------------------------- lines that hold no marker

  /** The line tries to be a marker with a quoted name. */
  predicate QuoteAttempt(u: string) {
    match Attempt(u)
    case None => false
    case Some(p) => p < |u| && u[p] == '"'
  }

  /** No marker starts here, whatever text follows the line. */
  predicate QuietHere(u: string) {
    MatchHere(u).None? && !QuoteAttempt(u)
  }

  predicate Quiet(s: string) {
    forall i :: 0 <= i <= |s| && LineStart(s, i) ==> QuietHere(s[i..])
  }

  /** A quoted name that never closes on a line of its own. */
  predicate DanglingHere(u: string) {
    MatchHere(u).None? && QuoteAttempt(u)
  }

  predicate NoDangling(s: string) {
    forall i :: 0 <= i <= |s| && LineStart(s, i) ==> !DanglingHere(s[i..])
  }

  /** The text consists of whole lines. */
  predicate WholeLines(s: string) {
    s == "" || s[|s| - 1] == '\n'
  }

  lemma {:induction false} SkipBlanksLocal(u: string, b: string, k: nat, e: nat)
    requires k <= e < |u| && u[e] == '\n'
    ensures SkipBlanks(u + b, k) == SkipBlanks(u, k) <= e
    decreases e - k
  {
    if k < e && IsBlank(u[k]) {
      SkipBlanksLocal(u, b, k + 1, e);
    }
  }

  lemma {:induction false} AttemptLocal(u: string, b: string, e: nat)
    requires e < |u| && u[e] == '\n' && forall k :: 0 <= k < e ==> u[k] != '\n'
    ensures Attempt(u + b) == Attempt(u)
    ensures Attempt(u).Some? ==> Attempt(u).value <= e
  {
    hide SkipBlanks, IsWord;
    SkipBlanksLocal(u, b, 0, e);
    var p := SkipBlanks(u, 0);
    if p + 2 <= |u| && u[p] == '-' && u[p + 1] == '-' {
      assert p + 2 <= e;
      SkipBlanksLocal(u, b, p + 2, e);
      var q := SkipBlanks(u, p + 2);
      if ConnWordAt(u, q) {
        assert q + 5 <= e;
        SkipBlanksLocal(u, b, q + 5, e);
      }
      assert ConnWordAt(u + b, q) ==> q + 5 <= e;
    }
  }

  /** Whether a line is quiet depends on the line alone. */
  lemma {:induction false} QuietLocal(u: string, b: string)
    requires '\n' in u
    ensures QuietHere(u + b) <==> QuietHere(u)
  {
    var e := LineEnd(u, 0);
    LineEndIsNewline(u, 0);
    AttemptLocal(u, b, e);
    hide Attempt, QuotedMatch, LineEnd, Trim;
    assert Attempt(u).Some? ==> (u + b)[Attempt(u).value] == u[Attempt(u).value];
  }

  lemma {:induction false} LineEndIsNewline(u: string, k: nat)
    requires k <= |u| && exists j :: k <= j < |u| && u[j] == '\n'
    ensures LineEnd(u, k) < |u| && u[LineEnd(u, k)] == '\n'
    ensures forall j :: k <= j < LineEnd(u, k) ==> u[j] != '\n'
    decreases |u| - k
  {
    if u[k] != '\n' {
      LineEndIsNewline(u, k + 1);
    }
  }

  lemma {:induction false} EmptyIsQuiet()
    ensures QuietHere("") && Quiet("")
  {
  }

  lemma {:induction false} SpaceIsQuiet(s: string)
    requires AllSpace(s)
    ensures Quiet(s)
  {
    forall i | 0 <= i <= |s| && LineStart(s, i) ensures QuietHere(s[i..]) {
      assert forall k :: 0 <= k < |s[i..]| ==> s[i..][k] == s[i + k];
      assert Attempt(s[i..]).None?;
    }
  }

  // ---------------------------------------------------------------- markers on one line

  lemma {:induction false} QuoteCloseLocal(u: string, b: string, k: nat, e: nat)
    requires k <= e < |u| && u[e] == '\n'
    ensures QuoteClose(u, k).Some? && QuoteClose(u, k).value <= e ==> QuoteClose(u + b, k) == QuoteClose(u, k)
    ensures QuoteClose(u + b, k).Some? && QuoteClose(u + b, k).value <= e ==> QuoteClose(u, k) == QuoteClose(u + b, k)
    decreases e - k
  {
    if k < e {
      if u[k] != '"' {
        QuoteCloseLocal(u, b, k + 1, e);
      } else if u[k + 1] == '"' {
        QuoteCloseLocal(u, b, k + 2, e);
      }
    }
  }

  lemma {:induction false} QuoteCloseInLine(u: string, k: nat)
    requires k <= |u| && QuoteClose(u, k).Some?
    ensures u[QuoteClose(u, k).value - 1] == '"'
    decreases |u| - k
  {
    if u[k] != '"' {
      QuoteCloseInLine(u, k + 1);
    } else if k + 1 < |u| && u[k + 1] == '"' {
      QuoteCloseInLine(u, k + 2);
    }
  }

  /** One line with its newline. */
  predicate IsLine(line: string) {
    line != "" && line[|line| - 1] == '\n' && forall k :: 0 <= k < |line| - 1 ==> line[k] != '\n'
  }

  lemma {:induction false} BreakEndLocal(u: string, b: string, k: nat, e: nat)
    requires k <= e < |u| && u[e] == '\n' && forall j :: k <= j < e ==> u[j] != '\n'
    ensures BreakEnd(u + b, k) == BreakEnd(u, k)
    ensures BreakEnd(u, k).Some? ==> BreakEnd(u, k).value == e + 1
  {
  }

  lemma {:induction false} QuotedMatchLocal(line: string, b: string, p: nat)
    requires IsLine(line) && p < |line| && line[p] == '"'
    ensures QuotedMatch(line, p).Some? ==> QuotedMatch(line + b, p) == QuotedMatch(line, p)
    ensures QuotedMatch(line + b, p).Some? && QuotedMatch(line + b, p).value.len <= |line| ==> QuotedMatch(line, p).Some?
  {
    hide QuoteClose, SkipBlanks, Unquote;
    var e := |line| - 1;
    QuoteCloseLocal(line, b, p + 1, e);
    if QuoteClose(line + b, p + 1).Some? {
      QuoteCloseInLine(line + b, p + 1);
    }
    if QuoteClose(line, p + 1).Some? {
      var q := QuoteClose(line, p + 1).value;
      QuoteCloseInLine(line, p + 1);
      SkipBlanksLocal(line, b, q, e);
      BreakEndLocal(line, b, SkipBlanks(line, q), e);
      assert (line + b)[p + 1..q - 1] == line[p + 1..q - 1];
    }
  }

  lemma {:induction false} LineEndIs(u: string, k: nat, e: nat)
    requires k <= e < |u| && u[e] == '\n' && forall j :: k <= j < e ==> u[j] != '\n'
    ensures LineEnd(u, k) == e
    decreases e - k
  {
    if k < e {
      LineEndIs(u, k + 1, e);
    }
  }

  lemma {:induction false} UnquotedMatchLocal(line: string, b: string, p: nat)
    requires IsLine(line) && p < |line|
    ensures UnquotedMatch(line + b, p) == UnquotedMatch(line, p)
  {
    var e := |line| - 1;
    hide LineEnd, Trim;
    LineEndIs(line, p, e);
    LineEndIs(line + b, p, e);
    assert (line + b)[p..e] == line[p..e];
    BreakEndLocal(line, b, p, e);
  }

  /** Whether a line is a one-line marker depends on the line alone. */
  lemma {:induction false} LineMatchLocal(line: string, b: string)
    requires IsLine(line)
    ensures MatchHere(line).Some? ==> MatchHere(line + b) == MatchHere(line)
    ensures MatchHere(line + b).Some? && MatchHere(line + b).value.len <= |line| ==> MatchHere(line) == MatchHere(line + b)
  {
    var e := |line| - 1;
    AttemptLocal(line, b, e);
    hide Attempt, QuotedMatch, UnquotedMatch;
    if Attempt(line).Some? {
      var p := Attempt(line).value;
      assert (line + b)[p] == line[p];
      if line[p] == '"' {
        QuotedMatchLocal(line, b, p);
      } else {
        UnquotedMatchLocal(line, b, p);
      }
    }
  }

  /** The first line of a text that contains a newline. */
  function FirstLine(u: string): string
    requires '\n' in u
  {
    LineEndIsNewline(u, 0);
    u[..LineEnd(u, 0) + 1]
  }

  lemma {:induction false} FirstLineIs(u: string)
    requires '\n' in u
    ensures IsLine(FirstLine(u)) && u == FirstLine(u) + u[|FirstLine(u)|..]
  {
    LineEndIsNewline(u, 0);
  }

  lemma {:induction false} OneLineLength(line: string, b: string, n: nat)
    requires IsLine(line) && n <= |line + b| && forall k :: 0 <= k < n - 1 ==> (line + b)[k] != '\n'
    ensures n <= |line|
  {
    assert (line + b)[|line| - 1] == '\n';
  }

  // ---------------------------------------------------------------- searching

  lemma {:induction false} ExecSkips(s: string, i: nat, j: nat)
    requires i <= j <= |s| && forall k :: i <= k < j ==> MatchAt(s, k).None?
    ensures Exec(s, i) == Exec(s, j)
    decreases j - i
  {
    hide MatchAt;
    if i < j {
      ExecSkips(s, i + 1, j);
    }
  }

  lemma {:induction false} ExecFirst(s: string, i: nat)
    requires i <= |s|
    ensures Exec(s, i).None? ==> forall k :: i <= k <= |s| ==> MatchAt(s, k).None?
    ensures
      Exec(s, i).Some? ==>
        var m := Exec(s, i).value;
        MatchAt(s, m.from) == Some(m) && forall k :: i <= k < m.from ==> MatchAt(s, k).None?
    decreases |s| - i
  {
    hide MatchAt;
    if MatchAt(s, i).None? && i < |s| {
      ExecFirst(s, i + 1);
    }
  }

  lemma {:induction false} QuietHasNoMarkers(s: string)
    requires Quiet(s)
    ensures Markers(s, 0) == []
  {
    hide MatchHere, QuoteAttempt;
    ExecFirst(s, 0);
  }

  /** A text at the end of another, from the start of a line on, has its markers there too. */
  lemma {:induction false} SuffixMatch(s: string, j: nat, r: string, k: nat)
    requires j <= |s| && s[j..] == r && LineStart(s, j) && k <= |r|
    ensures MatchAt(s, j + k).None? <==> MatchAt(r, k).None?
  {
    assert s[j + k..] == r[k..];
    assert k > 0 ==> s[j + k - 1] == s[j..][k - 1];
  }

  lemma {:induction false} SuffixExec(s: string, j: nat, r: string)
    requires j <= |s| && s[j..] == r && LineStart(s, j)
    ensures Exec(s, j).None? <==> Exec(r, 0).None?
  {
    hide MatchAt, LineStart;
    ExecFirst(s, j);
    ExecFirst(r, 0);
    if Exec(s, j).Some? {
      SuffixMatch(s, j, r, Exec(s, j).value.from - j);
    }
    if Exec(r, 0).Some? {
      SuffixMatch(s, j, r, Exec(r, 0).value.from);
    }
  }

  lemma {:induction false} BreakEndsLine(u: string, k: nat)
    requires k <= |u| && BreakEnd(u, k).Some?
    ensures BreakEnd(u, k).value == |u| || u[BreakEnd(u, k).value - 1] == '\n'
  {
  }

  lemma {:induction false} LineEndStops(u: string, k: nat)
    requires k <= |u|
    ensures LineEnd(u, k) == |u| || u[LineEnd(u, k)] == '\n'
    decreases |u| - k
  {
    if k < |u| && u[k] != '\n' {
      LineEndStops(u, k + 1);
    }
  }

  /** A marker ends with its line. */
  lemma {:induction false} MatchEndsLine(u: string)
    requires MatchHere(u).Some?
    ensures MatchHere(u).value.len == |u| || u[MatchHere(u).value.len - 1] == '\n'
  {
    hide Attempt, Trim, Unquote, SkipBlanks, QuoteClose, BreakEnd, LineEnd;
    var p := Attempt(u).value;
    if p < |u| && u[p] == '"' {
      BreakEndsLine(u, SkipBlanks(u, QuoteClose(u, p + 1).value));
    } else if p < |u| && !IsSpace(u[p]) {
      LineEndStops(u, p);
    } else {
      BreakEndsLine(u, p);
    }
  }

  lemma {:induction false} MarkerEndsLine(s: string, i: nat)
    requires i <= |s| && MatchAt(s, i).Some?
    ensures var e := MatchAt(s, i).value.to; e == |s| || LineStart(s, e)
  {
    hide MatchHere;
    MatchEndsLine(s[i..]);
  }

  // ---------------------------------------------------------------- one written marker

  lemma {:induction false} UnquoteEscaped(name: string)
    ensures Unquote(EscapeName(name)) == name
  {
    if name != "" {
      UnquoteEscaped(name[1..]);
      var e := EscapeName(name[1..]);
      if name[0] == '"' {
        assert EscapeName(name)[2..] == e;
      } else {
        assert EscapeName(name)[1..] == e;
        assert e == "" ==> name[1..] == "";
      }
    }
  }

  lemma {:induction false} QuoteCloseEscaped(u: string, k: nat, name: string, z: string)
    requires k <= |u| && u[k..] == EscapeName(name) + ("\"" + z) && z != "" && z[0] != '"'
    ensures QuoteClose(u, k) == Some(k + |EscapeName(name)| + 1)
    decreases |name|
  {
    if name == "" {
      SuffixSplit(u, k, "\"", z);
      assert u[k] == u[k..][0];
    } else {
      var c := if name[0] == '"' then "\"\"" else [name[0]];
      Assoc(c, EscapeName(name[1..]), "\"" + z);
      SuffixSplit(u, k, c, EscapeName(name[1..]) + ("\"" + z));
      assert u[k] == u[k..k + |c|][0] && (|c| == 2 ==> u[k + 1] == u[k..k + |c|][1]);
      QuoteCloseEscaped(u, k + |c|, name[1..], z);
    }
  }

  const PREFIX := "-- @conn \""

  lemma {:induction false} PrefixAttempt(u: string)
    requires PREFIX <= u
    ensures Attempt(u) == Some(9) && u[9] == '"'
  {
    assert forall k :: 0 <= k < |PREFIX| ==> u[k] == PREFIX[k];
    assert SkipBlanks(u, 0) == 0 && SkipBlanks(u, 3) == 3 && SkipBlanks(u, 2) == 3;
    assert SkipBlanks(u, 9) == 9 && SkipBlanks(u, 8) == 9;
    assert ConnWordAt(u, 3);
  }

  function WrittenLine(name: string): string {
    MarkerLine(name) + "\n"
  }

  lemma {:induction false} WrittenShape(name: string, r: string)
    ensures
      var u, e := WrittenLine(name) + r, EscapeName(name);
      var z := "\"" + ("\n" + r);
      && |WrittenLine(name)| == 12 + |e| <= |u|
      && PREFIX <= u && u[10..] == e + z && u[10..10 + |e|] == e && u[11 + |e|] == '\n'
  {
    var u, e := WrittenLine(name) + r, EscapeName(name);
    assert u == PREFIX + (e + ("\"" + ("\n" + r)));
  }

  /** A written marker line reads back as a marker with the same name, whatever follows it. */
  lemma {:induction false} WrittenMatches(name: string, r: string)
    ensures MatchHere(WrittenLine(name) + r) == Some(Hit(name, |WrittenLine(name)|))
  {
    hide Attempt, Unquote, QuoteClose, LineEnd, Trim, EscapeName, WrittenLine;
    WrittenShape(name, r);
    var u, e := WrittenLine(name) + r, EscapeName(name);
    PrefixAttempt(u);
    QuoteCloseEscaped(u, 10, name, "\n" + r);
    UnquoteEscaped(name);
  }

  /** `g` is whole lines, and none of them is a marker in front of `z`. */
  predicate Silent(g: string, z: string) {
    WholeLines(g) && forall k :: 0 <= k < |g| ==> MatchAt(g + z, k).None?
  }

  /** What surrounds `w` once it stands between `g` and `r`: no other marker. */
  predicate Surround(g: string, w: string, r: string) {
    Silent(g, w + r) && Markers(r, 0) == []
  }

  function Marked(g: string, name: string, r: string): string {
    g + WrittenLine(name) + r
  }

  lemma {:induction false} MarkedIs(g: string, name: string, r: string)
    ensures Marked(g, name, r) == g + (WrittenLine(name) + r)
  {
  }

  /** Quiet lines are silent in front of any text. */
  lemma {:induction false} QuietSurrounds(g: string, w: string, r: string)
    requires WholeLines(g) && Quiet(g) && Markers(r, 0) == []
    ensures Surround(g, w, r)
  {
    hide QuietHere, Markers;
    var s, z := g + (w + r), w + r;
    forall k | 0 <= k < |g| ensures MatchAt(s, k).None? {
      if LineStart(s, k) {
        assert LineStart(g, k);
        assert g[k..][|g| - 1 - k] == '\n';
        assert s[k..] == g[k..] + z;
        QuietLocal(g[k..], z);
        QuietNoMatch(s[k..]);
      }
    }
  }

  lemma {:induction false} QuietNoMatch(u: string)
    requires QuietHere(u)
    ensures MatchHere(u).None?
  {
  }

  lemma {:induction false} MatchOfWritten(g: string, name: string, r: string)
    requires WholeLines(g)
    ensures
      var s, e := Marked(g, name, r), |g| + |WrittenLine(name)|;
      && |g| < e <= |s| && s[..|g|] == g && s[e..] == r && LineStart(s, e)
      && MatchAt(s, |g|) == Some(Marker(name, |g|, e))
  {
    hide MatchHere;
    var s, z := Marked(g, name, r), WrittenLine(name) + r;
    assert s == g + z && s[|g|..] == z;
    WrittenMatches(name, r);
  }

  /** Where the search for markers goes when the lines above the written one are silent. */
  lemma {:induction false} MarkersBehindHead(g: string, name: string, r: string)
    requires Silent(g, WrittenLine(name) + r)
    ensures
      var s, e := Marked(g, name, r), |g| + |WrittenLine(name)|;
      && e <= |s|
      && Markers(s, 0) == [Marker(name, |g|, e)] + Markers(s, e)
      && (Markers(s, e) == [] <==> Markers(r, 0) == [])
  {
    hide Marked, MatchAt, WrittenLine;
    var s, e := Marked(g, name, r), |g| + |WrittenLine(name)|;
    MarkedIs(g, name, r);
    MatchOfWritten(g, name, r);
    ExecSkips(s, 0, |g|);
    SuffixExec(s, e, r);
    assert Exec(s, |g|) == MatchAt(s, |g|);
  }

  /** Exactly one marker, the written one; removing it leaves what surrounds it. */
  lemma {:induction false} OneWrittenMarker(g: string, name: string, r: string)
    requires Surround(g, WrittenLine(name), r)
    ensures
      var s := Marked(g, name, r);
      && Markers(s, 0) == [Marker(name, |g|, |g| + |WrittenLine(name)|)]
      && Strip(s) == g + r
  {
    hide Marked, Markers, WrittenLine, Silent;
    var s, e := Marked(g, name, r), |g| + |WrittenLine(name)|;
    MarkersBehindHead(g, name, r);
    SlicesOfMarked(g, name, r);
    assert s[0..|g|] == g;
    MarkersInOrder(s, 0);
    GapsOfOne(s, Marker(name, |g|, e));
  }

  lemma {:induction false} GapsOfOne(s: string, m: Marker)
    requires InOrder(s, [m], 0)
    ensures m.from <= m.to <= |s| && Gaps(s, [m], 0) == s[0..m.from] + s[m.to..]
  {
    assert [m][1..] == [];
  }

  // ---------------------------------------------------------------- lines that come alive

  /** The line tries to be a marker, and its quoted name closes at the end of a line. */
  predicate NameCloses(u: string) {
    match Attempt(u)
    case None => false
    case Some(p) => p < |u| && u[p] == '"' && QuotedMatch(u, p).Some?
  }

  predicate Outside(marks: seq<Marker>, i: nat) {
    forall k :: 0 <= k < |marks| ==> !(marks[k].from <= i < marks[k].to)
  }

  /** The text from `i` on without the markers in it. */
  function Remaining(s: string, i: nat): string
    requires i <= |s|
  {
    MarkersInOrder(s, i);
    Gaps(s, Markers(s, i), i)
  }

  /** What takes the place of the first marker. */
  function Replacement(name: Option<string>): string {
    if name.None? then "" else WrittenLine(name.value)
  }

  /** The text before the place where `upsertMarker` writes. */
  function UpsertHead(s: string): string {
    var marks := Markers(s, 0);
    MarkersInOrder(s, 0);
    if marks == [] then s[..InsertAt(s)]
    else
      InOrderBound(s, marks[1..], marks[0].to);
      s[..marks[0].from]
  }

  /** The text behind it, without other markers. */
  function UpsertRest(s: string): string {
    var marks := Markers(s, 0);
    MarkersInOrder(s, 0);
    if marks == [] then s[InsertAt(s)..] else Gaps(s, marks[1..], marks[0].to)
  }

  /** The text from line `i` on after the choice of `name`, for a text that shows a marker. */
  function TextFrom(s: string, name: Option<string>, i: nat): string
    requires i <= |s|
  {
    if i < |UpsertHead(s)| then s[i..|UpsertHead(s)|] + (Replacement(name) + UpsertRest(s)) else Remaining(s, i)
  }

  /** From `x` on, no line outside the markers is left open now and closes once the markers are gone. */
  predicate CalmFrom(s: string, x: nat)
    requires x <= |s|
  {
    forall i :: x <= i < |s| && LineStart(s, i) && Outside(Markers(s, x), i) && DanglingHere(s[i..]) ==>
      !NameCloses(Remaining(s, i))
  }

  /**
   * No line outside the markers is left open now and has its quoted name closed, at the end of a line, once the first
   * marker is replaced by that of `name` (or removed) and the others are removed.
   */
  predicate Calm(s: string, name: Option<string>) {
    Markers(s, 0) == [] ||
    forall i :: 0 <= i < |s| && LineStart(s, i) && Outside(Markers(s, 0), i) && DanglingHere(s[i..]) ==>
      !NameCloses(TextFrom(s, name, i))
  }

  lemma {:induction false} NoDanglingIsCalm(s: string, name: Option<string>)
    requires NoDangling(s)
    ensures Calm(s, name)
  {
    hide DanglingHere, NameCloses, TextFrom, Outside;
  }

  /** In front of other text a line that did not match matches exactly when it was open and its name closes now. */
  lemma {:induction false} LineRevives(s: string, i: nat, y: nat, v: string)
    requires i < y <= |s| && s[y - 1] == '\n' && MatchHere(s[i..]).None?
    ensures MatchHere(s[i..y] + v).Some? <==> DanglingHere(s[i..]) && NameCloses(s[i..y] + v)
  {
    var l, u := s[i..y], s[i..y] + v;
    assert l[y - 1 - i] == '\n';
    assert s[i..] == l + s[y..];
    AttemptInFront(l, v);
    AttemptInFront(l, s[y..]);
    QuietLocal(l, v);
    QuietLocal(l, s[y..]);
    hide Attempt, QuotedMatch, UnquotedMatch;
  }

  lemma {:induction false} AttemptInFront(l: string, v: string)
    requires '\n' in l
    ensures Attempt(l + v) == Attempt(l) && QuoteAttempt(l + v) == QuoteAttempt(l)
  {
    LineEndIsNewline(l, 0);
    AttemptLocal(l, v, LineEnd(l, 0));
    hide Attempt, LineEnd;
    if Attempt(l).Some? {
      assert (l + v)[Attempt(l).value] == l[Attempt(l).value];
    }
  }

  lemma {:induction false} UnquoteKeeps(raw: string, k: nat)
    requires k < |raw| && raw[k] == '\n'
    ensures '\n' in Unquote(raw)
  {
    if |raw| >= 2 {
      if raw[0] == '"' && raw[1] == '"' {
        UnquoteKeeps(raw[2..], k - 2);
      } else if k > 0 {
        UnquoteKeeps(raw[1..], k - 1);
      }
    }
  }

  lemma {:induction false} LongQuotedName(line: string, b: string, p: nat)
    requires IsLine(line) && p < |line| && line[p] == '"'
    requires QuotedMatch(line + b, p).Some? && QuotedMatch(line + b, p).value.len > |line|
    ensures '\n' in QuotedMatch(line + b, p).value.name
  {
    var u, e := line + b, |line| - 1;
    hide SkipBlanks, QuoteClose, Unquote;
    var q := QuoteClose(u, p + 1).value;
    QuoteCloseInLine(u, p + 1);
    if q <= e {
      SkipBlanksLocal(line, b, q, e);
      BreakEndLocal(line, b, SkipBlanks(line, q), e);
      assert false;
    }
    assert u[e] == '\n' && u[q - 1] == '"';
    assert u[p + 1..q - 1][e - p - 1] == '\n';
    UnquoteKeeps(u[p + 1..q - 1], e - p - 1);
  }

  /** A marker that reaches over the end of its first line has a quoted name with a newline. */
  lemma {:induction false} LongMatchName(line: string, b: string)
    requires IsLine(line) && MatchHere(line + b).Some? && MatchHere(line + b).value.len > |line|
    ensures '\n' in MatchHere(line + b).value.name
  {
    AttemptLocal(line, b, |line| - 1);
    hide Attempt, QuotedMatch, UnquotedMatch, IsLine;
    var p := Attempt(line + b).value;
    assert (line + b)[p] == line[p];
    if line[p] == '"' {
      LongQuotedName(line, b, p);
    } else {
      UnquotedMatchLocal(line, b, p);
      UnquotedInLine(line, p);
      assert false;
    }
  }

  lemma {:induction false} UnquotedInLine(line: string, p: nat)
    requires IsLine(line) && p < |line|
    ensures UnquotedMatch(line, p).Some? ==> UnquotedMatch(line, p).value.len <= |line|
  {
  }

  /** A line that comes alive has a name with a newline in it. */
  lemma {:induction false} RevivedName(s: string, i: nat, y: nat, v: string)
    requires i < y <= |s| && s[y - 1] == '\n' && MatchHere(s[i..]).None? && MatchHere(s[i..y] + v).Some?
    ensures '\n' in MatchHere(s[i..y] + v).value.name
  {
    hide MatchHere;
    var l := s[i..y];
    assert l[y - 1 - i] == '\n';
    FirstLineIs(l);
    var line, rest := FirstLine(l), l[|FirstLine(l)|..];
    assert l + v == line + (rest + v);
    assert s[i..] == line + (rest + s[y..]);
    LineMatchLocal(line, rest + v);
    LineMatchLocal(line, rest + s[y..]);
    LongMatchName(line, rest + v);
  }

  lemma {:induction false} NoMatchAtEnd(s: string)
    ensures MatchAt(s, |s|).None? && Exec(s, |s|).None?
  {
    assert s[|s|..] == "";
  }

  lemma {:induction false} MatchStartsLine(s: string, i: nat)
    requires i <= |s| && MatchAt(s, i).Some?
    ensures i < |s| && LineStart(s, i)
  {
    hide MatchHere;
  }

  /** The markers of whole lines and the text behind them: none in the one and none in the other. */
  lemma {:induction false} NoMarkersInParts(g: string, z: string)
    requires WholeLines(g)
    ensures Markers(g + z, 0) == [] <==> Silent(g, z) && Markers(z, 0) == []
  {
    hide MatchAt;
    var t := g + z;
    assert t[|g|..] == z;
    assert LineStart(t, |g|);
    ExecFirst(t, 0);
    SuffixExec(t, |g|, z);
    if Silent(g, z) {
      ExecSkips(t, 0, |g|);
    }
    if Markers(t, 0) == [] {
      ExecSkips(t, 0, |g|);
    }
  }

  lemma {:induction false} MatchInFront(s: string, x: nat, y: nat, v: string, i: nat)
    requires x <= i < y <= |s| && LineStart(s, x) && LineStart(s, y) && MatchAt(s, i).None?
    ensures
      MatchAt(s[x..y] + v, i - x).Some? <==> LineStart(s, i) && DanglingHere(s[i..]) && NameCloses(s[i..y] + v)
  {
    hide MatchHere, DanglingHere, NameCloses;
    var g := s[x..y];
    assert (g + v)[i - x..] == s[i..y] + v;
    assert LineStart(g + v, i - x) <==> LineStart(s, i);
    if LineStart(s, i) {
      LineRevives(s, i, y, v);
    }
  }

  lemma {:induction false} SilentIs(g: string, v: string)
    ensures Silent(g, v) <==> WholeLines(g) && forall k :: 0 <= k < |g| ==> MatchAt(g + v, k).None?
  {
    hide MatchAt, WholeLines;
  }

  lemma {:induction false} SilentLine(s: string, x: nat, y: nat, v: string, i: nat)
    requires x <= i < y <= |s| && LineStart(s, x) && LineStart(s, y) && MatchAt(s, i).None? && Silent(s[x..y], v)
    requires LineStart(s, i) && DanglingHere(s[i..])
    ensures !NameCloses(s[i..y] + v)
  {
    hide *;
    SilentIs(s[x..y], v);
    MatchInFront(s, x, y, v, i);
  }

  lemma {:induction false} LoudLine(s: string, x: nat, y: nat, v: string) returns (i: nat)
    requires x <= y <= |s| && LineStart(s, x) && LineStart(s, y) && (forall k :: x <= k < y ==> MatchAt(s, k).None?)
    requires WholeLines(s[x..y]) && !Silent(s[x..y], v)
    ensures x <= i < y && LineStart(s, i) && DanglingHere(s[i..]) && NameCloses(s[i..y] + v)
  {
    hide *;
    SilentIs(s[x..y], v);
    var k :| 0 <= k < |s[x..y]| && MatchAt(s[x..y] + v, k).Some?;
    i := x + k;
    MatchInFront(s, x, y, v, i);
  }

  lemma {:induction false} WholeBetween(s: string, x: nat, y: nat)
    requires x <= y <= |s| && LineStart(s, y)
    ensures WholeLines(s[x..y])
  {
  }

  /** The lines `x..y` of `s`, none of them a marker there, are silent in front of `v` unless one of them comes alive. */
  lemma {:induction false} SilentExactly(s: string, x: nat, y: nat, v: string)
    requires x <= y <= |s| && LineStart(s, x) && LineStart(s, y) && forall k :: x <= k < y ==> MatchAt(s, k).None?
    ensures WholeLines(s[x..y])
    ensures
      Silent(s[x..y], v) <==>
      forall i :: x <= i < y && LineStart(s, i) && DanglingHere(s[i..]) ==> !NameCloses(s[i..y] + v)
  {
    hide *;
    WholeBetween(s, x, y);
    if Silent(s[x..y], v) {
      forall i | x <= i < y && LineStart(s, i) && DanglingHere(s[i..]) ensures !NameCloses(s[i..y] + v) {
        SilentLine(s, x, y, v, i);
      }
    } else {
      var i := LoudLine(s, x, y, v);
    }
  }

  /** From a line start on, the remaining text shows no marker exactly when no line comes alive. */
  lemma {:induction false} RemainingIsMarkerFree(s: string, x: nat)
    requires x <= |s| && (x == |s| || LineStart(s, x))
    ensures Markers(Remaining(s, x), 0) == [] <==> CalmFrom(s, x)
    decreases |s| - x
  {
    hide MatchAt, Silent, NameCloses, DanglingHere, Outside, Markers, LineStart;
    if x == |s| {
      NothingRemains(s);
    } else {
      ExecFirst(s, x);
      if Exec(s, x).None? {
        RemainingUnmarked(s, x);
      } else {
        var m := Exec(s, x).value;
        MatchStartsLine(s, m.from);
        MarkerEndsLine(s, m.from);
        RemainingIsMarkerFree(s, m.to);
        RemainingParts(s, x, m);
        SilentExactly(s, x, m.from, Remaining(s, m.to));
        NoMarkersInParts(s[x..m.from], Remaining(s, m.to));
        CalmParts(s, x, m);
      }
    }
  }

  lemma {:induction false} NothingRemains(s: string)
    ensures Markers(Remaining(s, |s|), 0) == []
  {
    NoMatchAtEnd(s);
    NoMatchAtEnd("");
    assert s[|s|..] == "";
  }

  lemma {:induction false} RemainingUnmarked(s: string, x: nat)
    requires x < |s| && LineStart(s, x) && Exec(s, x).None?
    ensures Markers(Remaining(s, x), 0) == [] && CalmFrom(s, x)
  {
    hide MatchHere, QuotedMatch, UnquotedMatch, Attempt;
    ExecFirst(s, x);
    SuffixExec(s, x, s[x..]);
    forall i | x <= i < |s| && LineStart(s, i) && DanglingHere(s[i..]) ensures !NameCloses(Remaining(s, i)) {
      assert MatchAt(s, i).None?;
      ExecSkips(s, x, i);
      assert Remaining(s, i) == s[i..];
      OpenStaysOpen(s[i..]);
    }
  }

  lemma {:induction false} OpenStaysOpen(u: string)
    requires DanglingHere(u)
    ensures !NameCloses(u)
  {
    hide Attempt, QuotedMatch, UnquotedMatch;
  }

  lemma {:induction false} RemainingParts(s: string, x: nat, m: Marker)
    requires x <= |s| && Exec(s, x) == Some(m)
    ensures Markers(s, x) == [m] + Markers(s, m.to)
    ensures forall i :: x <= i <= m.from ==> Markers(s, i) == Markers(s, x)
    ensures forall i :: x <= i <= m.from ==> Remaining(s, i) == s[i..m.from] + Remaining(s, m.to)
  {
    hide MatchAt;
    ExecFirst(s, x);
    forall i | x <= i <= m.from
      ensures Markers(s, i) == Markers(s, x) && Remaining(s, i) == s[i..m.from] + Remaining(s, m.to)
    {
      ExecSkips(s, x, i);
      assert Markers(s, i)[1..] == Markers(s, m.to);
    }
  }

  lemma {:induction false} OutsideCons(m: Marker, marks: seq<Marker>, i: nat)
    ensures Outside([m] + marks, i) <==> !(m.from <= i < m.to) && Outside(marks, i)
  {
    var all := [m] + marks;
    assert all[0] == m && forall k :: 0 <= k < |marks| ==> marks[k] == all[k + 1];
  }

  lemma {:induction false} OutsideBefore(s: string, marks: seq<Marker>, last: nat, i: nat)
    requires InOrder(s, marks, last) && i < last
    ensures Outside(marks, i)
  {
    if marks != [] {
      OutsideBefore(s, marks[1..], marks[0].to, i);
      assert marks == [marks[0]] + marks[1..];
      OutsideCons(marks[0], marks[1..], i);
    }
  }

  /** Outside the markers from `x` on: before the first of them, or behind it and outside the others. */
  lemma {:induction false} OutsideParts(s: string, x: nat, m: Marker, i: nat)
    requires x <= |s| && Exec(s, x) == Some(m) && x <= i < |s|
    ensures Outside(Markers(s, x), i) <==> i < m.from || (m.to <= i && Outside(Markers(s, m.to), i))
  {
    RemainingParts(s, x, m);
    MarkersInOrder(s, m.to);
    hide Exec, Outside, Markers, Remaining;
    OutsideCons(m, Markers(s, m.to), i);
    if i < m.from {
      OutsideBefore(s, Markers(s, m.to), m.to, i);
    }
  }

  lemma {:induction false} CalmParts(s: string, x: nat, m: Marker)
    requires x <= |s| && Exec(s, x) == Some(m)
    ensures
      CalmFrom(s, x) <==>
      && (forall i :: x <= i < m.from && LineStart(s, i) && DanglingHere(s[i..]) ==> !NameCloses(s[i..m.from] + Remaining(s, m.to)))
      && CalmFrom(s, m.to)
  {
    RemainingParts(s, x, m);
    hide Exec, MatchAt, NameCloses, DanglingHere, Outside, LineStart, Markers, Remaining;
    forall i | x <= i < |s|
      ensures Outside(Markers(s, x), i) <==> i < m.from || (m.to <= i && Outside(Markers(s, m.to), i))
    {
      OutsideParts(s, x, m, i);
    }
  }

  // ---------------------------------------------------------------- the update

  lemma {:induction false} LastLineStarts(s: string, k: nat)
    requires k <= |s|
    ensures LineStart(s, LastLine(s, k))
  {
    if k != 0 && s[k - 1] != '\n' {
      LastLineStarts(s, k - 1);
    }
  }

  lemma {:induction false} SurroundOfMarkerFree(s: string, w: string)
    requires Markers(s, 0) == []
    ensures Surround(s[..InsertAt(s)], w, s[InsertAt(s)..])
  {
    hide Quiet, Exec, Surround, WholeLines;
    var at := InsertAt(s);
    LastLineStarts(s, Lead(s));
    assert forall k :: 0 <= k < at ==> s[..at][k] == s[..Lead(s)][k];
    SpaceIsQuiet(s[..at]);
    MarkerFreeSuffix(s, at);
    UpsertHeadLines(s);
    QuietSurrounds(s[..at], w, s[at..]);
  }

  lemma {:induction false} MarkerFreeSuffix(s: string, j: nat)
    requires Markers(s, 0) == [] && j <= |s| && LineStart(s, j)
    ensures Markers(s[j..], 0) == []
  {
    hide MatchAt, LineStart;
    ExecFirst(s, 0);
    ExecFirst(s, j);
    SuffixExec(s, j, s[j..]);
  }

  /** What surrounds the place of the first marker is silent exactly when no line comes alive. */
  lemma {:induction false} SurroundOfMarked(s: string, name: Option<string>)
    requires Markers(s, 0) != []
    ensures Surround(UpsertHead(s), Replacement(name), UpsertRest(s)) <==> Calm(s, name)
  {
    MarkersInOrder(s, 0);
    var m := Markers(s, 0)[0];
    assert Exec(s, 0) == Some(m);
    hide MatchAt, Silent, NameCloses, DanglingHere, Exec, LineStart, Replacement;
    assert Markers(s, 0)[1..] == Markers(s, m.to);
    ExecFirst(s, 0);
    MatchStartsLine(s, m.from);
    MarkerEndsLine(s, m.from);
    assert s[0..m.from] == s[..m.from] == UpsertHead(s);
    assert UpsertRest(s) == Remaining(s, m.to);
    SilentExactly(s, 0, m.from, Replacement(name) + UpsertRest(s));
    RemainingIsMarkerFree(s, m.to);
    CalmSplit(s, name, m);
  }

  lemma {:induction false} TextFromParts(s: string, name: Option<string>, m: Marker, i: nat)
    requires Exec(s, 0) == Some(m) && i < |s|
    ensures
      TextFrom(s, name, i) == if i < m.from then s[i..m.from] + (Replacement(name) + UpsertRest(s)) else Remaining(s, i)
  {
    MarkersInOrder(s, 0);
    assert Markers(s, 0) != [];
    assert |UpsertHead(s)| == m.from;
    hide UpsertRest, Replacement, Remaining;
  }

  lemma {:induction false} CalmSplit(s: string, name: Option<string>, m: Marker)
    requires Exec(s, 0) == Some(m)
    ensures
      Calm(s, name) <==>
      && (forall i :: 0 <= i < m.from && LineStart(s, i) && DanglingHere(s[i..]) ==>
            !NameCloses(s[i..m.from] + (Replacement(name) + UpsertRest(s))))
      && CalmFrom(s, m.to)
  {
    assert Markers(s, 0) != [];
    hide Exec, MatchAt, NameCloses, DanglingHere, Outside, LineStart, Markers, Remaining, UpsertHead, UpsertRest, Replacement, TextFrom;
    forall i | 0 <= i < |s|
      ensures Outside(Markers(s, 0), i) <==> i < m.from || (m.to <= i && Outside(Markers(s, m.to), i))
      ensures
        TextFrom(s, name, i) == if i < m.from then s[i..m.from] + (Replacement(name) + UpsertRest(s)) else Remaining(s, i)
    {
      OutsideParts(s, 0, m, i);
      TextFromParts(s, name, m, i);
    }
  }

  /** `upsertMarker` writes one line between two parts, which together are the stripped text. */
  lemma {:induction false} UpsertForm(s: string, name: Option<string>)
    ensures Upsert(s, name).text == UpsertHead(s) + Replacement(name) + UpsertRest(s)
    ensures Strip(s) == UpsertHead(s) + UpsertRest(s)
    ensures WholeLines(UpsertHead(s))
    ensures Surround(UpsertHead(s), Replacement(name), UpsertRest(s)) <==> Calm(s, name)
  {
    hide Exec, Surround, InsertAt, EscapeName;
    MarkersInOrder(s, 0);
    if Markers(s, 0) == [] {
      assert s[0..] == s;
      SurroundOfMarkerFree(s, Replacement(name));
      assert WholeLines(UpsertHead(s)) by {
        hide *;
        UpsertHeadLines(s);
      }
    } else {
      var m := Markers(s, 0)[0];
      assert s[0..m.from] == s[..m.from];
      SurroundOfMarked(s, name);
      UpsertHeadLines(s);
    }
  }

  lemma {:induction false} UpsertHeadLines(s: string)
    ensures WholeLines(UpsertHead(s))
  {
    hide MatchAt;
    if Markers(s, 0) == [] {
      LastLineStarts(s, Lead(s));
    } else {
      ExecFirst(s, 0);
      MatchStartsLine(s, Markers(s, 0)[0].from);
    }
  }

  /** A text with one written marker is updated in place. */
  lemma {:induction false} UpsertMarkedAgain(g: string, name: string, r: string, other: string)
    requires Surround(g, WrittenLine(name), r)
    ensures Upsert(Marked(g, name, r), Some(other)).text == Marked(g, other, r)
    ensures Upsert(Marked(g, name, r), None).text == g + r
  {
    hide Surround, Markers;
    OneWrittenMarker(g, name, r);
    SlicesOfMarked(g, name, r);
    var s, e := Marked(g, name, r), |g| + |WrittenLine(name)|;
    assert [Marker(name, |g|, e)][1..] == [];
    assert g + "" + r == g + r;
  }

  lemma {:induction false} SlicesOfMarked(g: string, name: string, r: string)
    ensures
      var s, e := Marked(g, name, r), |g| + |WrittenLine(name)|;
      e <= |s| && s[..|g|] == g && s[e..] == r
  {
  }
}
