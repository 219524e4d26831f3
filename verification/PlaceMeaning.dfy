/** Placing a marker, in characters. */
module PlaceMeaning {
  import opened Text
  import opened Lexemes
  import opened Splitter
  import opened SplitterLaws
  import opened SplitterMeaning
  import opened ConnMarker
  import opened PlaceMarker
  import opened PlaceMarkerLaws
  import opened NewStatementParts

  // ---------------------------------------------------------------- which statement

  /** The first statement that ends at or behind the cursor, and the last one when there is none. */
  lemma {:induction false} ChooseMeans(rs: seq<Range>, pos: nat, j: nat)
    requires rs != []
    ensures
      j == Choose(rs, pos)
      <==> j < |rs| && (forall i :: 0 <= i < j ==> rs[i].to < pos) && (pos <= rs[j].to || j == |rs| - 1)
  {
    if pos > rs[0].to && |rs| > 1 {
      var rest := rs[1..];
      assert forall i :: 0 < i < |rs| ==> rs[i] == rest[i - 1];
      if 0 < j < |rs| {
        ChooseMeans(rest, pos, j - 1);
        assert forall i :: 0 <= i < j - 1 ==> rest[i] == rs[i + 1];
      }
    }
  }

  /** What runs: the selection; without one the whole MongoDB text, and of SQL the statement at the cursor, if there is one. */
  lemma {:induction false} PickMeans(doc: string, selFrom: nat, selTo: nat, head: nat, mongo: bool)
    requires selFrom <= selTo <= |doc|
    ensures
      var rs, text := Ranges(doc), PickRunText(doc, selFrom, selTo, head, mongo);
      && (selFrom < selTo ==> text == doc[selFrom..selTo])
      && (selFrom == selTo && (mongo || rs == []) ==> text == doc)
      && (selFrom == selTo && !mongo && rs != [] ==>
            exists j: nat ::
              && j < |rs| && (forall i :: 0 <= i < j ==> rs[i].to < head) && (head <= rs[j].to || j == |rs| - 1)
              && text == Piece(doc, rs[j]))
  {
    var rs := Ranges(doc);
    hide Ranges, Piece, Choose;
    if rs != [] {
      ChooseMeans(rs, head, Choose(rs, head));
    }
  }

  // ---------------------------------------------------------------- when a new statement is opened

  predicate BlankOnly(s: string) {
    forall k :: 0 <= k < |s| ==> s[k] == ' ' || s[k] == '\t'
  }

  /** The last line of `head` holds nothing but blanks. */
  ghost predicate BlankLastLine(head: string) {
    exists k :: 0 <= k <= |head| && (k == 0 || head[k - 1] == '\n') && BlankOnly(head[k..])
  }

  lemma {:induction false} BlankTailLaws(s: string)
    ensures BlankOnly(s[BlankTail(s)..]) && (BlankTail(s) > 0 ==> !IsBlank(s[BlankTail(s) - 1]))
  {
    if s != "" && IsBlank(s[|s| - 1]) {
      var u := s[..|s| - 1];
      BlankTailLaws(u);
      assert s[BlankTail(s)..] == u[BlankTail(u)..] + [s[|s| - 1]];
    }
  }

  lemma {:induction false} BlankFrom(s: string, k: nat)
    requires k <= |s|
    ensures BlankOnly(s[k..]) <==> forall i :: k <= i < |s| ==> IsBlank(s[i])
  {
    var u := s[k..];
    assert forall i :: 0 <= i < |u| ==> u[i] == s[k + i];
    if BlankOnly(u) {
      forall i | k <= i < |s| ensures IsBlank(s[i]) {
        assert s[i] == u[i - k];
      }
    }
  }

  /** What is left of a text without the blanks in front. */
  ghost predicate WithoutBlanks(s: string, t: string) {
    (t != "" ==> !BlankOnly([t[0]])) && exists b :: BlankOnly(b) && s == b + t
  }

  lemma {:induction false} SkipsTo(s: string, i: nat, e: nat)
    requires i <= e <= |s| && (forall k :: i <= k < e ==> IsBlank(s[k])) && (e < |s| ==> !IsBlank(s[e]))
    ensures SkipBlanks(s, i) == e
    decreases e - i
  {
    if i < e {
      SkipsTo(s, i + 1, e);
    }
  }

  lemma {:induction false} BlanksRead(b: string, t: string)
    requires BlankOnly(b) && (t != "" ==> !BlankOnly([t[0]]))
    ensures DropBlanks(b + t) == t
  {
    var s := b + t;
    assert forall k :: 0 <= k < |b| ==> s[k] == b[k];
    assert t != "" ==> [t[0]][0] == t[0] && s[|b|] == t[0];
    SkipsTo(s, 0, |b|);
    hide SkipBlanks;
  }

  lemma {:induction false} DropBlanksMeans(s: string, t: string)
    ensures t == DropBlanks(s) <==> WithoutBlanks(s, t)
  {
    BlanksInFront(s, 0);
    var k := SkipBlanks(s, 0);
    assert s == s[0..k] + s[k..];
    assert k < |s| ==> s[k..][0] == s[k] && [s[k]][0] == s[k];
    hide SkipBlanks;
    if WithoutBlanks(s, t) {
      var b :| BlankOnly(b) && s == b + t;
      BlanksRead(b, t);
    }
  }

  lemma {:induction false} BlanksInFront(s: string, i: nat)
    requires i <= |s|
    ensures BlankOnly(s[i..SkipBlanks(s, i)]) && (SkipBlanks(s, i) < |s| ==> !IsBlank(s[SkipBlanks(s, i)]))
    decreases |s| - i
  {
    if i < |s| && IsBlank(s[i]) {
      BlanksInFront(s, i + 1);
      assert s[i..SkipBlanks(s, i)] == [s[i]] + s[i + 1..SkipBlanks(s, i)];
    }
  }

  lemma {:induction false} OwnLineMeans(head: string)
    ensures OnOwnLine(head) <==> BlankLastLine(head)
  {
    BlankTailLaws(head);
    forall k: nat | k <= |head| ensures BlankOnly(head[k..]) <==> forall i :: k <= i < |head| ==> IsBlank(head[i]) {
      BlankFrom(head, k);
    }
    assert !IsBlank('\n');
    hide BlankTail, BlankOnly, IsBlank;
  }

  lemma {:induction false} TrimEmptyMeans(s: string)
    ensures Trim(s) == "" <==> AllSpace(s)
  {
    if Trim(s) == "" {
      TrimEmptyIsSpace(s);
    }
    if AllSpace(s) {
      assert s[Lead(s)..] == "";
    }
  }

  /**
   * A new statement is opened exactly when that is allowed and a connection is chosen, the trigger stands on a line of
   * its own, something other than space and markers stands above it in its statement, and nothing but space below.
   */
  lemma {:induction false} OpensNewMeans(stmt: string, at: nat, name: Option<string>, allowSplit: bool)
    requires at <= |stmt|
    ensures
      OpensNew(stmt, at, name, allowSplit)
      <==>
      && allowSplit && name.Some? && BlankLastLine(stmt[..at])
      && !AllSpace(Strip(stmt[..at])) && AllSpace(stmt[at..])
  {
    OwnLineMeans(stmt[..at]);
    TrimEmptyMeans(Strip(stmt[..at]));
    TrimEmptyMeans(stmt[at..]);
    hide Strip, Trim, OnOwnLine, BlankLastLine, AllSpace;
  }

  // ---------------------------------------------------------------- which separator

  /** A line of literals, single characters, and at most a line comment at its end. */
  predicate PlainLine(ls: seq<Lexeme>, e: Ending) {
    (e.Done? || e.OpenLine?) && forall k :: 0 <= k < |ls| ==> ls[k].Quoted? || ls[k].Single?
  }

  predicate NoDashes(s: string) {
    forall k :: 0 <= k < |s| - 1 ==> !(s[k] == '-' && s[k + 1] == '-')
  }

  lemma {:induction false} DropLiteral(t: string, d: nat, x: string, rest: string)
    requires d <= |t| && t[d..] == "'" + Doubled(x) + "'" + rest && (rest == "" || rest[0] != '\'')
    ensures d < |t| && DropLiterals(t, d) == "''" + DropLiterals(t, d + |Doubled(x)| + 2)
  {
    var y := Doubled(x);
    assert "'" + y + "'" + rest == "'" + (y + ("'" + rest));
    SuffixSplit(t, d, "'", y + ("'" + rest));
    assert t[d] == t[d..d + 1][0];
    hide StringClose, Doubled, LastPair;
    DoubledCloses(t, d + 1, x, rest);
  }

  lemma {:induction false} DropSingle(t: string, d: nat)
    requires d < |t| && t[d] != '\''
    ensures DropLiterals(t, d) == [t[d]] + DropLiterals(t, d + 1)
  {
  }

  lemma {:induction false} DropEnd(t: string)
    ensures DropLiterals(t, |t|) == ""
  {
  }

  lemma {:induction false} DropFirst(t: string, d: nat)
    requires d < |t|
    ensures DropLiterals(t, d) != "" && DropLiterals(t, d)[0] == t[d]
  {
  }

  lemma {:induction false} CommentKept(t: string, d: nat, x: string)
    requires d <= |t| && t[d..] == "--" + x
    ensures !NoDashes(DropLiterals(t, d))
  {
    SuffixSplit(t, d, "--", x);
    assert t[d] == t[d..d + 2][0] && t[d + 1] == t[d..d + 2][1];
    hide DropLiterals;
    DropSingle(t, d);
    DropSingle(t, d + 1);
    var s := DropLiterals(t, d);
    assert s[0] == '-' && s[1] == '-';
  }

  lemma {:induction false} DashesCons(a: string, s: string)
    requires a == "''" || (|a| == 1 && !(a == "-" && s != "" && s[0] == '-'))
    ensures NoDashes(a + s) <==> NoDashes(s)
  {
    var t := a + s;
    assert forall k :: 0 <= k < |s| ==> t[|a| + k] == s[k];
    if NoDashes(t) {
      forall k | 0 <= k < |s| - 1 ensures !(s[k] == '-' && s[k + 1] == '-') {
        assert t[|a| + k] == s[k] && t[|a| + k + 1] == s[k + 1];
      }
    }
  }

  lemma {:induction false} PlainTail(ls: seq<Lexeme>, e: Ending)
    requires ls != [] && PlainLine(ls, e) && ProperAll(ls, e)
    ensures PlainLine(ls[1..], e) && ProperAll(ls[1..], e) && SpellAll(ls, e) == Spell(ls[0]) + SpellAll(ls[1..], e)
    ensures Proper(ls[0], SpellAll(ls[1..], e)) && (ls[0].Quoted? || ls[0].Single?)
  {
    hide Proper, Spell;
    assert forall k :: 0 <= k < |ls[1..]| ==> ls[1..][k] == ls[k + 1];
  }

  lemma {:induction false} PlainFirst(l: Lexeme, rest: string)
    requires Proper(l, rest)
    ensures l.Quoted? ==> Spell(l) == "'" + Doubled(l.text) + "'" && (rest == "" || rest[0] != '\'')
    ensures l.Single? ==> Spell(l) == [l.c] && Bare(l.c, rest)
  {
    hide Doubled, Bare;
  }

  lemma {:induction false} DroppedEnd(t: string, d: nat, e: Ending)
    requires d <= |t| && t[d..] == SpellEnding(e) && (e.Done? || e.OpenLine?)
    ensures NoDashes(DropLiterals(t, d)) <==> e.Done?
  {
    hide DropLiterals;
    if e.Done? {
      DropEnd(t);
    } else {
      CommentKept(t, d, e.text);
    }
  }

  lemma {:induction false} DroppedLine(t: string, d: nat, ls: seq<Lexeme>, e: Ending)
    requires d <= |t| && t[d..] == SpellAll(ls, e) && PlainLine(ls, e) && ProperAll(ls, e)
    ensures NoDashes(DropLiterals(t, d)) <==> e.Done?
    decreases |ls|
  {
    hide *;
    EndingOf(ls, e);
    if ls == [] {
      SpellOnlyEnding(e);
      DroppedEnd(t, d, e);
    } else {
      var l, rest := ls[0], SpellAll(ls[1..], e);
      PlainTail(ls, e);
      PlainFirst(l, rest);
      SuffixSplit(t, d, Spell(l), rest);
      DroppedLine(t, d + |Spell(l)|, ls[1..], e);
      if l.Quoted? {
        DropLiteral(t, d, l.text, rest);
        DashesCons("''", DropLiterals(t, d + |Spell(l)|));
      } else {
        SingleDropped(t, d, l.c, rest);
        DashesCons([l.c], DropLiterals(t, d + 1));
      }
    }
  }

  lemma {:induction false} SpellOnlyEnding(e: Ending)
    ensures SpellAll([], e) == SpellEnding(e)
  {
  }

  lemma {:induction false} SingleDropped(t: string, d: nat, c: char, rest: string)
    requires d + 1 <= |t| && t[d..d + 1] == [c] && t[d + 1..] == rest && Bare(c, rest)
    ensures DropLiterals(t, d) == [c] + DropLiterals(t, d + 1)
    ensures var s := DropLiterals(t, d + 1); !([c] == "-" && s != "" && s[0] == '-')
  {
    hide DropLiterals, StartsBody;
    assert t[d] == t[d..d + 1][0];
    DropSingle(t, d);
    if d + 1 < |t| {
      DropFirst(t, d + 1);
      assert t[d + 1] == rest[0];
    } else {
      DropEnd(t);
    }
  }

  lemma {:induction false} DashesFound(s: string)
    ensures IndexOf(s, "--", 0).Some? <==> !NoDashes(s)
  {
    IndexOfFirst(s, "--", 0);
    AtTwo(s, '-', '-');
    assert "--" == ['-', '-'];
    var r := IndexOf(s, "--", 0);
    hide IndexOf, At;
    if r.None? {
      forall k | 0 <= k < |s| - 1 ensures !(s[k] == '-' && s[k + 1] == '-') {
        assert !At(s, "--", k);
      }
    } else {
      assert s[r.value] == '-' && s[r.value + 1] == '-';
    }
  }

  /** On such a line the check for a comment at its end is right. */
  lemma {:induction false} CommentSeen(text: string, ls: seq<Lexeme>, e: Ending)
    requires Spells(ls, e, LastLineOf(text)) && PlainLine(ls, e)
    ensures EndsInLineComment(text) <==> e.OpenLine?
  {
    var line := LastLineOf(text);
    assert line[0..] == line;
    hide DropLiterals, ProperAll, SpellAll, PlainLine, IndexOf, LastLine;
    DroppedLine(line, 0, ls, e);
    DashesFound(DropLiterals(line, 0));
    assert e.Done? || e.OpenLine? by {
      EndingOf(ls, e);
    }
  }

  lemma {:induction false} EndingOf(ls: seq<Lexeme>, e: Ending)
    requires PlainLine(ls, e)
    ensures e.Done? || e.OpenLine?
  {
  }

  /** Reading a spelled part of a text from top level on stops at its end exactly when nothing is left open. */
  lemma {:induction false} StopsSpelled(t: string, d: nat, ls: seq<Lexeme>, e: Ending)
    requires d <= |t| && t[d..] == SpellAll(ls, e) && ProperAll(ls, e)
    ensures Stops(t, d) == |t| <==> e.Done?
    decreases |ls|
  {
    hide Element, KindAt, Proper, Spell, ProperEnding;
    if ls == [] {
      if e.Done? {
        assert d == |t|;
      } else {
        OpenIsNotEmpty(e);
        OpenEnding(t, d, e);
      }
    } else {
      ElementSpelled(t, d, ls[0], SpellAll(ls[1..], e));
      SuffixSplit(t, d, Spell(ls[0]), SpellAll(ls[1..], e));
      StopsSpelled(t, d + |Spell(ls[0])|, ls[1..], e);
    }
  }

  lemma {:induction false} OpenIsNotEmpty(e: Ending)
    ensures !e.Done? ==> SpellEnding(e) != ""
  {
  }

  lemma {:induction false} StopsFrom(x: string, i: nat, k: nat)
    requires k <= |x| && Reaches(x, i, k)
    ensures Stops(x, i) == Stops(x, k)
    decreases k - i
  {
    hide Element;
    if i < k {
      StopsFrom(x, Element(x, i).end, k);
    }
  }

  /**
   * The last line above the trigger stands at top level, is plain, and is no marker: then the separator lands unless the
   * line is a comment that ends in a semicolon.
   */
  lemma {:induction false} PlainLineLands(stmt: string, at: nat, a: string, ls: seq<Lexeme>, e: Ending)
    requires at <= |stmt|
    requires
      var x, y := Above(stmt, at), Trim(Strip(stmt[..at]));
      y != "" && x == a + LastLineOf(y) && TopLevel(x, |a|) && Cuts(x, 0, |x|) == [] && Spells(ls, e, LastLineOf(y))
    requires PlainLine(ls, e)
    ensures
      var y := Trim(Strip(stmt[..at]));
      && (Lands(Above(stmt, at), WrittenSeparator(stmt, at)) <==> y[|y| - 1] != ';')
      && WrittenSeparator(stmt, at) == (if y[|y| - 1] == ';' then "" else if e.OpenLine? then "\n;" else ";")
      && (y[|y| - 1] == ';' ==> e.OpenLine?)
  {
    var x, y := Above(stmt, at), Trim(Strip(stmt[..at]));
    var l := LastLineOf(y);
    assert stmt[..at] == Take(stmt, at);
    assert x[|a|..] == l;
    hide Above, Trim, Strip, EndsInLineComment, Reaches, Cuts, Stops, LastLineOf, PlainLine, ProperAll, SpellAll;
    CommentSeen(y, ls, e);
    EndingOf(ls, e);
    StopsFrom(x, 0, |a|);
    StopsSpelled(x, |a|, ls, e);
    if y[|y| - 1] == ';' {
      LastLineEnds(y);
      SemicolonInComment(x, |a|, ls, e);
    }
  }

  lemma {:induction false} LastLineEnds(y: string)
    requires y != "" && y[|y| - 1] == ';'
    ensures var l := LastLineOf(y); l != "" && l[|l| - 1] == ';'
  {
    assert LastLine(y, |y|) <= |y| - 1;
  }

  /** Without a cut in the text, the semicolon at its end lies in the comment. */
  lemma {:induction false} SemicolonInComment(x: string, d: nat, ls: seq<Lexeme>, e: Ending)
    requires d < |x| && x[d..] == SpellAll(ls, e) && ProperAll(ls, e) && PlainLine(ls, e)
    requires TopLevel(x, d) && Cuts(x, 0, |x|) == [] && x[|x| - 1] == ';'
    ensures e.OpenLine?
  {
    if e.Done? {
      hide Element, Cuts, Reaches, Proper, Spell;
      SomeLexeme(ls, e);
      LastIsSemicolon(ls, e);
      CutsSpelled(x, d, ls, e);
      LastSemicolonAt(ls, d);
      var c := SemicolonsAt(ls, d)[|SemicolonsAt(ls, d)| - 1];
      CutsExact(x, d, |x|, c);
      ReachesTrans(x, 0, d, c);
      CutsExact(x, 0, |x|, c);
      assert false;
    }
  }

  lemma {:induction false} SomeLexeme(ls: seq<Lexeme>, e: Ending)
    requires e.Done? && SpellAll(ls, e) != ""
    ensures ls != []
  {
  }

  lemma {:induction false} LastCharacter(l: Lexeme)
    requires l.Quoted? || l.Single?
    ensures Spell(l) != "" && (Spell(l)[|Spell(l)| - 1] == ';' ==> l == Single(';'))
  {
    hide Doubled;
  }

  lemma {:induction false} SpellDone(e: Ending)
    requires e.Done?
    ensures SpellAll([], e) == ""
  {
  }

  lemma {:induction false} LastIsSemicolon(ls: seq<Lexeme>, e: Ending)
    requires e.Done? && ls != [] && PlainLine(ls, e) && ProperAll(ls, e)
    requires SpellAll(ls, e) != "" && SpellAll(ls, e)[|SpellAll(ls, e)| - 1] == ';'
    ensures ls[|ls| - 1] == Single(';')
  {
    hide *;
    PlainTail(ls, e);
    LastCharacter(ls[0]);
    SpellDone(e);
    if |ls| > 1 {
      PlainTail(ls[1..], e);
      LastCharacter(ls[1]);
      LastIsSemicolon(ls[1..], e);
    } else {
      assert ls[1..] == [];
    }
  }

  lemma {:induction false} LastSemicolonAt(ls: seq<Lexeme>, d: nat)
    requires ls != [] && ls[|ls| - 1] == Single(';')
    ensures SemicolonsAt(ls, d) != []
  {
    hide Spell;
    if |ls| > 1 {
      LastSemicolonAt(ls[1..], d + |Spell(ls[0])|);
    }
  }

  // ---------------------------------------------------------------- where the cursor stands

  /** What the edit of a statement touches lies before `at`: the markers there are, or the place for a new one. */
  predicate TouchedBefore(stmt: string, name: Option<string>, at: nat) {
    if Markers(stmt, 0) == [] then name.Some? ==> InsertAt(stmt) <= at
    else forall k :: 0 <= k < |Markers(stmt, 0)| ==> Markers(stmt, 0)[k].to <= at
  }

  lemma {:induction false} GapsEnd(s: string, marks: seq<Marker>, last: nat, at: nat)
    requires InOrder(s, marks, last) && last <= at <= |s| && forall k :: 0 <= k < |marks| ==> marks[k].to <= at
    ensures var g := Gaps(s, marks, last); |g| >= |s| - at && g[|g| - (|s| - at)..] == s[at..]
  {
    if marks == [] {
      assert s[last..][at - last..] == s[at..];
    } else {
      InOrderBound(s, marks[1..], marks[0].to);
      assert forall k :: 0 <= k < |marks[1..]| ==> marks[1..][k] == marks[k + 1];
      GapsEnd(s, marks[1..], marks[0].to, at);
      TailOfSum(s[last..marks[0].from], Gaps(s, marks[1..], marks[0].to), |s| - at);
    }
  }

  lemma {:induction false} TailOfSum(a: string, b: string, n: nat)
    requires n <= |b|
    ensures (a + b)[|a + b| - n..] == b[|b| - n..]
  {
    var x, y := (a + b)[|a + b| - n..], b[|b| - n..];
    assert |x| == |y| && forall k :: 0 <= k < n ==> x[k] == b[|b| - n + k] == y[k];
  }

  lemma {:induction false} ReplacingMoves(stmt: string, marks: seq<Marker>, line: string, at: nat)
    requires marks != [] && InOrder(stmt, marks, 0) && at <= |stmt| && forall k :: 0 <= k < |marks| ==> marks[k].to <= at
    ensures InOrder(stmt, marks[1..], marks[0].to) && marks[0].from <= |stmt|
    ensures
      var text := stmt[..marks[0].from] + line + Gaps(stmt, marks[1..], marks[0].to);
      |text| >= |stmt| - at && text[|text| - (|stmt| - at)..] == stmt[at..]
  {
    FirstInOrder(stmt, marks);
    assert forall k :: 0 <= k < |marks[1..]| ==> marks[1..][k] == marks[k + 1];
    hide Gaps, InOrder;
    GapsEnd(stmt, marks[1..], marks[0].to, at);
    TailOfSum(stmt[..marks[0].from] + line, Gaps(stmt, marks[1..], marks[0].to), |stmt| - at);
  }

  lemma {:induction false} InsertingMoves(stmt: string, line: string, i: nat, at: nat)
    requires i <= at <= |stmt|
    ensures
      var text := stmt[..i] + line + stmt[i..];
      |text| == |stmt| + |line| && text[at + |line|..] == stmt[at..]
  {
    TailOfSum(stmt[..i] + line, stmt[i..], |stmt| - at);
    var x, y := stmt[i..][at - i..], stmt[at..];
    assert |x| == |y| && forall k :: 0 <= k < |x| ==> x[k] == stmt[at + k] == y[k];
  }

  lemma {:induction false} UpsertReplaces(stmt: string, name: Option<string>)
    requires Markers(stmt, 0) != []
    ensures
      var marks, line := Markers(stmt, 0), if name.None? then "" else MarkerLine(name.value) + "\n";
      && InOrder(stmt, marks, 0) && InOrder(stmt, marks[1..], marks[0].to) && marks[0].from <= |stmt|
      && Upsert(stmt, name).text == stmt[..marks[0].from] + line + Gaps(stmt, marks[1..], marks[0].to)
      && Upsert(stmt, name).delta == |Upsert(stmt, name).text| - |stmt|
  {
    MarkersInOrder(stmt, 0);
    hide Markers, MarkerLine, Gaps;
    FirstInOrder(stmt, Markers(stmt, 0));
  }

  lemma {:induction false} UpsertInserts(stmt: string, name: string)
    requires Markers(stmt, 0) == []
    ensures
      var line, i := MarkerLine(name) + "\n", InsertAt(stmt);
      Upsert(stmt, Some(name)).text == stmt[..i] + line + stmt[i..] && Upsert(stmt, Some(name)).delta == |line|
    ensures Upsert(stmt, None).text == stmt && Upsert(stmt, None).delta == 0
  {
    hide Markers, MarkerLine, InsertAt;
  }

  /** The text behind a position that the edit leaves in peace moves by `delta`. */
  lemma {:induction false} TextMoves(stmt: string, name: Option<string>, at: nat)
    requires at <= |stmt| && TouchedBefore(stmt, name, at)
    ensures var e := Upsert(stmt, name); 0 <= at + e.delta <= |e.text| && e.text[at + e.delta..] == stmt[at..]
  {
    var line := if name.None? then "" else MarkerLine(name.value) + "\n";
    hide Markers, MarkerLine, InsertAt, Gaps, InOrder, Upsert;
    if Markers(stmt, 0) != [] {
      UpsertReplaces(stmt, name);
      ReplacingMoves(stmt, Markers(stmt, 0), line, at);
    } else if name.Some? {
      UpsertInserts(stmt, name.value);
      InsertingMoves(stmt, line, InsertAt(stmt), at);
    } else {
      UpsertInserts(stmt, "");
    }
  }

  lemma {:induction false} FirstInOrder(s: string, marks: seq<Marker>)
    requires marks != [] && InOrder(s, marks, 0)
    ensures marks[0].from <= marks[0].to && InOrder(s, marks[1..], marks[0].to) && marks[0].to <= |s|
  {
    InOrderBound(s, marks[1..], marks[0].to);
  }

  lemma {:induction false} EditSameIs(doc: string, from: nat, to: nat, name: Option<string>, allowSplit: bool, j: nat)
    requires InStatement(doc, from, to, j) && StaysInStatement(doc, from, to, j, name, allowSplit)
    ensures
      var e, edit := PlaceIn(doc, from, to, name, allowSplit), Upsert(StatementOf(doc, from, to, j), name);
      var r := Ranges(Without(doc, from, to))[j];
      && r.from <= from && e.insert == edit.text && e.from == r.from && e.to == r.to + (to - from)
      && (r.from <= from + edit.delta ==> e.anchor == from + edit.delta)
  {
    StatementBounds(doc, from, to, j);
    hide Ranges, Upsert, OpensNew, Choose;
  }

  lemma {:induction false} CursorText(a: string, v: string, b: string, k: nat)
    requires k <= |v|
    ensures (a + v + b)[|a| + k..] == v[k..] + b
  {
    var x, y := (a + v + b)[|a| + k..], v[k..] + b;
    assert |x| == |y|;
    forall i | 0 <= i < |x| ensures x[i] == y[i] {
      assert x[i] == (a + v + b)[|a| + k + i];
    }
  }

  lemma {:induction false} PieceTail(t: string, r: Range, from: nat)
    requires r.from <= from <= r.to <= |t|
    ensures Piece(t, r)[from - r.from..] + Drop(t, r.to) == t[from..]
  {
  }

  /** The document after the edit, from the cursor on. */
  lemma {:induction false} BehindCursor(p: string, v: string, b: string, t: string, r: Range, from: nat, delta: int)
    requires r.from <= from <= r.to <= |t| && |p| == r.from && b == Drop(t, r.to)
    requires 0 <= from - r.from + delta <= |v| && v[from - r.from + delta..] == Piece(t, r)[from - r.from..]
    ensures (p + v + b)[from + delta..] == t[from..]
  {
    hide *;
    CursorText(p, v, b, from - r.from + delta);
    PieceTail(t, r, from);
  }

  lemma {:induction false} TriggerGone(doc: string, from: nat, to: nat, j: nat)
    requires InStatement(doc, from, to, j)
    ensures
      var t := Without(doc, from, to);
      && j < |Ranges(t)|
      && var r := Ranges(t)[j];
      && r.from <= from <= r.to <= |t| && StatementOf(doc, from, to, j) == Piece(t, r) && Position(doc, from, to, j) == from - r.from
      && from <= to <= |doc| && t[from..] == doc[to..] && |StatementOf(doc, from, to, j)| == r.to - r.from
      && |Take(doc, r.from)| == r.from && Drop(doc, r.to + (to - from)) == Drop(t, r.to)
  {
    StatementBounds(doc, from, to, j);
    TakeSame(doc, from, to, Ranges(Without(doc, from, to))[j]);
    hide Ranges, Choose;
  }

  lemma {:induction false} ApplyIs(doc: string, e: Edit)
    ensures Apply(doc, e) == Take(doc, e.from) + e.insert + Drop(doc, e.to)
  {
  }

  /**
   * The cursor keeps its place: behind it stands what stood behind the trigger, when the markers of the statement, or the
   * place for the new one, lie before the trigger.
   */
  lemma {:induction false} CursorKeepsPlace(doc: string, from: nat, to: nat, name: Option<string>, allowSplit: bool, j: nat)
    requires InStatement(doc, from, to, j) && StaysInStatement(doc, from, to, j, name, allowSplit)
    requires TouchedBefore(StatementOf(doc, from, to, j), name, Position(doc, from, to, j))
    ensures
      var e := PlaceIn(doc, from, to, name, allowSplit);
      e.anchor <= |Apply(doc, e)| && Apply(doc, e)[e.anchor..] == doc[to..]
  {
    hide *;
    TriggerGone(doc, from, to, j);
    var t, stmt := Without(doc, from, to), StatementOf(doc, from, to, j);
    var r, e, edit := Ranges(t)[j], PlaceIn(doc, from, to, name, allowSplit), Upsert(stmt, name);
    TextMoves(stmt, name, from - r.from);
    EditSameIs(doc, from, to, name, allowSplit, j);
    ApplyIs(doc, e);
    BehindCursor(Take(doc, r.from), edit.text, Drop(t, r.to), t, r, from, edit.delta);
  }

  /** A new statement: the cursor stands on the line below its marker, in front of what is left of the line. */
  lemma {:induction false} CursorBelowMarker(doc: string, from: nat, to: nat, name: string, j: nat)
    requires AtStatement(doc, from, to, j) && OpensBelow(doc, from, to, name, j)
    ensures
      var e, stmt, at := PlaceIn(doc, from, to, Some(name), true), StatementOf(doc, from, to, j), Position(doc, from, to, j);
      && e.anchor <= |Apply(doc, e)|
      && Apply(doc, e)[..e.anchor] == Take(doc, e.from) + (BeforeMarker(stmt, at) + ("-- @conn \"" + EscapeName(name) + "\"\n"))
      && Apply(doc, e)[e.anchor..] == DropBlanks(Drop(stmt, at)) + Drop(doc, e.to)
  {
    hide *;
    NewBounds(doc, from, to, name, j);
    PlaceOpensNew(doc, from, to, name, j);
    var e, stmt, at := PlaceIn(doc, from, to, Some(name), true), StatementOf(doc, from, to, j), Position(doc, from, to, j);
    ApplyIs(doc, e);
    InsertSpelled(stmt, at, name);
    FourPieces(Take(doc, e.from), NewInsert(stmt, at, name), DropBlanks(Drop(stmt, at)), Drop(doc, e.to));
  }

  lemma {:induction false} NewBounds(doc: string, from: nat, to: nat, name: string, j: nat)
    requires AtStatement(doc, from, to, j)
    ensures
      var e, r := PlaceIn(doc, from, to, Some(name), true), Ranges(Without(doc, from, to))[j];
      from <= to <= |doc| && j < |Ranges(Without(doc, from, to))| && e.from == r.from && |Take(doc, e.from)| == e.from
  {
    StatementBounds(doc, from, to, j);
    PlaceEnds(doc, from, to, Some(name), true, j);
    hide Ranges, PlaceIn, Choose;
  }

  /** What a new statement leaves above its marker: the text above, the separator and an empty line. */
  function BeforeMarker(stmt: string, at: nat): string {
    Above(stmt, at) + WrittenSeparator(stmt, at) + "\n\n"
  }

  lemma {:induction false} InsertSpelled(stmt: string, at: nat, name: string)
    ensures NewInsert(stmt, at, name) == BeforeMarker(stmt, at) + ("-- @conn \"" + EscapeName(name) + "\"\n")
  {
    hide Above, WrittenSeparator, EscapeName;
    assert MarkerLine(name) + "\n" == "-- @conn \"" + EscapeName(name) + "\"\n";
  }

  lemma {:induction false} FourPieces(p: string, v: string, w: string, b: string)
    ensures
      var s := p + (v + w) + b;
      |p| + |v| <= |s| && s[..|p| + |v|] == p + v && s[|p| + |v|..] == w + b
  {
    var s := p + (v + w) + b;
    assert s == (p + v) + (w + b);
  }
}
