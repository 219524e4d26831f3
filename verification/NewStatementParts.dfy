/** A new statement below the one above, step by step: markers in whole lines, where reading stops, and the changed document. */
module NewStatementParts {
  import opened Text
  import opened Splitter
  import opened SplitterLaws
  import opened SplitterEdits
  import opened ConnMarker
  import opened ConnMarkerParts
  import opened ConnMarkerLaws
  import opened PlaceMarker
  import opened PlaceMarkerParts
  import opened PlaceMarkerLaws

  // ---------------------------------------------------------------- markers in whole lines

  /** The text that starts with a marker on one line, or with a line that is quiet. */
  predicate SettledHere(u: string) {
    QuietHere(u) || (MatchHere(u).Some? && forall k :: 0 <= k < MatchHere(u).value.len - 1 ==> u[k] != '\n')
  }

  /** Every line is settled: markers cover one line each and no quoted name dangles. */
  predicate Settled(s: string) {
    forall k :: 0 <= k <= |s| && LineStart(s, k) ==> SettledHere(s[k..])
  }

  lemma {:induction false} SettledLine(u: string, b: string)
    requires '\n' in u && SettledHere(u + b)
    ensures SettledHere(u)
    ensures MatchHere(u) == MatchHere(u + b)
  {
    FirstLineIs(u);
    var line, rest := FirstLine(u), u[|FirstLine(u)|..];
    assert u + b == line + (rest + b);
    assert u == line + rest;
    hide MatchHere, QuoteAttempt, FirstLine;
    QuietLocal(u, b);
    LineMatchLocal(line, rest);
    LineMatchLocal(line, rest + b);
    if MatchHere(u + b).Some? {
      var n := MatchHere(u + b).value.len;
      OneLineLength(line, rest + b, n);
    }
  }

  /** The whole lines `a` have the same matches whatever follows them. */
  lemma {:induction false} MatchesInHead(a: string, z: string, k: nat)
    requires WholeLines(a) && Settled(a + z) && k < |a|
    ensures MatchAt(a, k) == MatchAt(a + z, k)
    ensures LineStart(a, k) ==> SettledHere(a[k..])
  {
    hide MatchHere, SettledHere;
    if LineStart(a, k) {
      assert LineStart(a + z, k);
      assert (a + z)[k..] == a[k..] + z;
      assert a[k..][|a| - 1 - k] == '\n';
      SettledLine(a[k..], z);
    }
  }

  lemma {:induction false} SettledWithTail(u: string, z: string)
    requires '\n' in u && SettledHere(u)
    ensures MatchHere(u + z) == MatchHere(u)
  {
    FirstLineIs(u);
    var line, rest := FirstLine(u), u[|FirstLine(u)|..];
    assert u + z == line + (rest + z);
    hide MatchHere, QuoteAttempt, FirstLine, IsLine;
    QuietLocal(u, z);
    LineMatchLocal(line, rest);
    LineMatchLocal(line, rest + z);
    if MatchHere(u).Some? {
      OneLineLength(line, rest, MatchHere(u).value.len);
    }
  }

  lemma {:induction false} MatchesWithTail(a: string, z: string, k: nat)
    requires WholeLines(a) && k < |a| && (LineStart(a, k) ==> SettledHere(a[k..]))
    ensures MatchAt(a, k) == MatchAt(a + z, k)
  {
    hide MatchHere, SettledHere;
    var u := a[k..];
    assert (a + z)[k..] == u + z;
    assert u[|a| - 1 - k] == '\n';
    if LineStart(a, k) {
      SettledWithTail(u, z);
    }
  }

  /** Two texts with the same matches up to `n` and none behind have the same markers. */
  lemma {:induction false} SameMarkers(s: string, t: string, n: nat, i: nat)
    requires n <= |s| && n <= |t| && i <= n
    requires forall k :: 0 <= k < n ==> MatchAt(s, k) == MatchAt(t, k)
    requires forall k :: n <= k <= |s| ==> MatchAt(s, k).None?
    requires forall k :: n <= k <= |t| ==> MatchAt(t, k).None?
    requires forall k :: 0 <= k < n && MatchAt(s, k).Some? ==> MatchAt(s, k).value.to <= n
    ensures Markers(s, i) == Markers(t, i)
    decreases n - i
  {
    hide MatchAt;
    ExecFirst(s, i);
    ExecFirst(t, i);
    if Exec(t, i).Some? {
      var q := Exec(t, i).value;
      assert MatchAt(t, q.from) == Some(q) && q.from < n;
    }
    if Exec(s, i).Some? {
      var m := Exec(s, i).value;
      assert MatchAt(s, m.from) == Some(m) && m.from < n;
      assert MatchAt(t, m.from) == Some(m);
      SameMarkers(s, t, n, m.to);
    }
  }

  /** Quiet text behind whole settled lines adds no marker and takes none away. */
  lemma {:induction false} MarkersOfHead(a: string, z: string)
    requires WholeLines(a) && Quiet(z)
    requires forall k :: 0 <= k < |a| && LineStart(a, k) ==> SettledHere(a[k..])
    ensures Markers(a + z, 0) == Markers(a, 0)
  {
    hide MatchHere, Quiet, SettledHere;
    var s := a + z;
    forall k | 0 <= k < |a| ensures MatchAt(a, k) == MatchAt(s, k) {
      MatchesWithTail(a, z, k);
    }
    forall k | |a| <= k <= |s| ensures MatchAt(s, k).None? {
      QuietTail(a, z, k);
    }
    NoMatchAtEnd(a);
    SameMarkers(a, s, |a|, 0);
  }

  lemma {:induction false} QuietTail(a: string, z: string, k: nat)
    requires WholeLines(a) && Quiet(z) && |a| <= k <= |a + z|
    ensures MatchAt(a + z, k).None?
  {
    hide MatchHere, QuoteAttempt;
    if LineStart(a + z, k) {
      assert LineStart(z, k - |a|);
      assert (a + z)[k..] == z[k - |a|..];
    }
  }

  // ---------------------------------------------------------------- the text above the new statement

  /** Where reading the text from `i` on stops: at its end, or at the element that never closes. */
  function Stops(x: string, i: nat): nat
    decreases |x| - i
  {
    if i >= |x| then |x|
    else match Element(x, i) {
      case Open => i
      case Closed(e) => Stops(x, e)
    }
  }

  lemma {:induction false} StopsReached(x: string, i: nat)
    requires i <= |x|
    ensures i <= Stops(x, i) <= |x| && Reaches(x, i, Stops(x, i))
    ensures Stops(x, i) < |x| ==> Element(x, Stops(x, i)).Open?
    decreases |x| - i
  {
    hide Element;
    if i < |x| && Element(x, i).Closed? {
      StopsReached(x, Element(x, i).end);
    }
  }

  /** One element, read in a text and in the part of it before some space. */
  lemma {:induction false} ElementBeforeSpace(s: string, i: nat, k: nat, at: nat)
    requires i < k <= at <= |s| && Reaches(s, i, at) && forall j :: k <= j < at ==> IsSpace(s[j])
    requires k < |s| ==> IsSpace(s[k])
    ensures
      var x := s[..k];
      && KindAt(x, i) == KindAt(s, i)
      && (Element(x, i).Closed? ==> Element(s, i) == Element(x, i))
      && (Element(x, i).Open? ==> KindAt(x, i) == LineComment)
  {
    var x := s[..k];
    assert s[0..k] == x;
    assert Framed(s, 0, x);
    KindFramed(s, 0, x, i);
    ElementFramed(s, 0, x, i);
    ElementLastChar(s, i);
    ReachesBounds(s, Element(s, i).end, at);
  }

  /** Reading a text before some space stops at its end or at a line comment. */
  lemma {:induction false} StopsInComment(s: string, i: nat, k: nat, at: nat)
    requires i <= k <= at <= |s| && Reaches(s, i, at) && forall j :: k <= j < at ==> IsSpace(s[j])
    requires k < |s| ==> IsSpace(s[k])
    ensures var x := s[..k]; Stops(x, i) == k || (Stops(x, i) < k && KindAt(x, Stops(x, i)) == LineComment)
    decreases k - i
  {
    hide Element, KindAt;
    if i < k {
      ElementBeforeSpace(s, i, k, at);
      if Element(s[..k], i).Closed? {
        StopsInComment(s, Element(s[..k], i).end, k, at);
      }
    }
  }

  /** What the text above becomes when the separator lands at top level. */
  function Closing(x: string, separator: string): string {
    if separator == "\n;" then x + "\n" else x
  }

  /** The separator `sep` behind `x` is a semicolon at top level. */
  predicate Lands(x: string, separator: string) {
    separator == "\n;" || (separator == ";" && Stops(x, 0) == |x|)
  }

  lemma {:induction false} NoCutInHead(s: string, k: nat)
    requires k <= |s| && Cuts(s, 0, |s|) == [] && (k < |s| ==> IsSpace(s[k]))
    ensures Cuts(s[..k], 0, k) == []
  {
    var x := s[..k];
    assert s[0..k] == x;
    assert Framed(s, 0, x);
    hide Element, Reaches, Cuts, Framed;
    if Cuts(x, 0, k) != [] {
      var c := Cuts(x, 0, k)[0];
      CutsExact(x, 0, k, c);
      ReachesFramed(s, 0, x, 0, c);
      assert x[c] == s[c];
      CutsExact(s, 0, |s|, c);
    }
  }

  /** A text that stops in a line comment goes on at top level behind the next newline. */
  lemma {:induction false} CommentEndsAtNewline(x: string, w: string, n: nat)
    requires x <= w && |x| <= n < |w| && w[n] == '\n' && forall k :: |x| <= k < n ==> w[k] != '\n'
    requires Stops(x, 0) < |x| && KindAt(x, Stops(x, 0)) == LineComment
    requires Cuts(x, 0, |x|) == []
    ensures TopLevel(w, n + 1) && Cuts(w, 0, n + 1) == []
  {
    var c := Stops(x, 0);
    StopsReached(x, 0);
    LineCommentEnd(x, c);
    assert forall k :: 0 <= k < |x| ==> w[k] == x[k];
    assert KindAt(w, c) == LineComment;
    hide Element, Reaches, Cuts, Stops;
    CommentLineReads(w, c, n);
    CutsAppend(x, 0, c, |x|);
    ReadBefore(x, w, c);
    ReachesTrans(w, 0, c, n + 1);
    CutsAppend(w, 0, c, n + 1);
  }

  /** What is read before a `-` at top level is read the same way in a longer text. */
  lemma {:induction false} ReadBefore(x: string, w: string, c: nat)
    requires x <= w && c < |x| && x[c] == '-' && Reaches(x, 0, c)
    ensures Reaches(w, 0, c) && Cuts(w, 0, c) == Cuts(x, 0, c)
  {
    hide Reaches, Cuts;
    assert x[..|x|] == w[..|x|];
    PrefixCuts(x, w, |x|, 0, c);
  }

  /** The statement above, closed by a separator that lands, is one whole statement. */
  lemma {:induction false} ClosingIsWhole(x: string, separator: string)
    requires Lands(x, separator) && Cuts(x, 0, |x|) == []
    requires Stops(x, 0) == |x| || (Stops(x, 0) < |x| && KindAt(x, Stops(x, 0)) == LineComment)
    ensures Whole(Closing(x, separator), true)
  {
    hide Element, Cuts, Reaches, Stops, KindAt;
    StopsReached(x, 0);
    var w := x + "\n";
    if Stops(x, 0) == |x| {
      if separator == "\n;" {
        NewlineBehind(x);
      }
    } else {
      CommentEndsAtNewline(x, w, |x|);
    }
  }

  lemma {:induction false} NewlineBehind(x: string)
    requires Cuts(x, 0, |x|) == [] && TopLevel(x, |x|)
    ensures Whole(x + "\n", true)
  {
    SpaceBehind(x, "\n", |x| + 1);
  }

  lemma {:induction false} SpaceFrame(x: string, z: string)
    requires AllSpace(z)
    ensures Framed(x + z, 0, x) && forall i :: |x| <= i < |x + z| ==> IsSpace((x + z)[i])
  {
    var w := x + z;
    assert w[0..|x|] == x;
    assert forall i :: |x| <= i < |w| ==> w[i] == z[i - |x|];
  }

  lemma {:induction false} NoCutInSpace(x: string, z: string)
    requires Cuts(x, 0, |x|) == [] && TopLevel(x, |x|) && AllSpace(z)
    ensures Cuts(x + z, 0, |x + z|) == []
  {
    var w := x + z;
    hide Element, Cuts, Reaches, KindAt, Framed, AllSpace, IsSpace;
    assert forall i :: |x| <= i < |w| ==> w[i] != ';' by {
      SpaceFrame(x, z);
      SemicolonIsNoSpace();
    }
    if Cuts(w, 0, |w|) != [] {
      var c := Cuts(w, 0, |w|)[0];
      CutsExact(w, 0, |w|, c);
      CutReadInHead(x, w, c);
      CutsExact(x, 0, |x|, c);
    }
  }

  lemma {:induction false} SemicolonIsNoSpace()
    ensures !IsSpace(';')
  {
  }

  /** Space behind a whole statement leaves it whole, and is at top level. */
  lemma {:induction false} SpaceBehind(x: string, z: string, k: nat)
    requires Cuts(x, 0, |x|) == [] && TopLevel(x, |x|) && AllSpace(z) && |x| <= k <= |x + z|
    ensures Whole(x + z, true) && TopLevel(x + z, k)
  {
    var w := x + z;
    SpaceFrame(x, z);
    NoCutInSpace(x, z);
    hide Element, Cuts, Reaches, KindAt, Framed, AllSpace, IsSpace;
    ReachesFramed(w, 0, x, 0, |x|);
    SpaceReads(w, |x|, |w|);
    SpaceReads(w, |x|, k);
    ReachesTrans(w, 0, |x|, |w|);
    ReachesTrans(w, 0, |x|, k);
  }

  /** A semicolon at top level of a longer text is at top level of the part that contains it. */
  lemma {:induction false} CutReadInHead(x: string, w: string, c: nat)
    requires x <= w && c < |x| && w[c] == ';' && Reaches(w, 0, c)
    ensures Reaches(x, 0, c)
  {
    hide Reaches;
    assert x[..|x|] == w[..|x|];
    PrefixCuts(w, x, |x|, 0, c);
  }

  // ---------------------------------------------------------------- the new statement

  const BLANK_LINES := "\n\n"

  /** The text of the new statement: two line breaks, the marker, and what space follows the trigger. */
  function NewText(name: string, tail: string): string {
    Marked(BLANK_LINES, name, tail)
  }

  lemma {:induction false} SpaceIsWhole(s: string, closed: bool)
    requires AllSpace(s)
    ensures Whole(s, closed)
  {
    SpaceReads(s, 0, |s|);
  }

  lemma {:induction false} NewTextLaws(name: string, tail: string, more: bool, conns: seq<Conn>)
    requires AllSpace(tail) && '\n' !in name
    ensures Whole(NewText(name, tail), more)
    ensures Resolve(NewText(name, tail), conns) == ResolveName(name, conns)
    ensures Trim(Strip(NewText(name, tail))) == ""
  {
    var w := BLANK_LINES + tail;
    assert AllSpace(w);
    SpaceIsWhole(w, more);
    SpaceReads(w, 0, 2);
    SpaceIsQuiet(BLANK_LINES);
    SpaceIsQuiet(tail);
    QuietHasNoMarkers(tail);
    TrimOfSpace(w);
    hide Quiet, Markers, Whole, WrittenLine, Reaches;
    InsertLine(BLANK_LINES, name, tail, more);
    OneWrittenMarker(BLANK_LINES, name, tail);
  }

  lemma {:induction false} TrimOfSpace(w: string)
    requires AllSpace(w)
    ensures Trim(w) == ""
  {
  }

  /** The whole document once the separator has landed. */
  lemma {:induction false} SplitDocument(p: string, x: string, separator: string, name: string, tail: string, more: bool, b: string)
    requires separator == ";" || separator == "\n;"
    ensures
      Doc(p, x + separator + "\n\n" + WrittenLine(name) + tail, more, b)
      == Doc(p, Closing(x, separator), true, Onward(NewText(name, tail), more, b))
  {
    var u1, u2 := Closing(x, separator), NewText(name, tail);
    assert x + separator == u1 + ";";
    assert x + separator + "\n\n" + WrittenLine(name) + tail == u1 + ";" + u2;
    OnwardTwice(u1, u2, more, b);
  }

  lemma {:induction false} OnwardTwice(u: string, v: string, more: bool, b: string)
    ensures Onward(u + ";" + v, more, b) == Onward(u, true, Onward(v, more, b))
  {
    if more {
      assert u + ";" + v + ";" + b == u + ";" + (v + ";" + b);
    }
  }

  /** Two statements in the place of one. */
  lemma {:induction false} TwoStatements(p: string, u: string, v: string, more: bool, b: string)
    requires Opens(p) && Whole(u, true) && Whole(v, more) && v != ""
    ensures
      var t, j := Doc(p, u, true, Onward(v, more, b)), |Cuts(p, 0, |p|)|;
      && |Ranges(t)| == j + 2 + (if more then |Ranges(b)| else 0)
      && (forall i :: 0 <= i < j ==> Piece(t, Ranges(t)[i]) == Piece(p, Before(Cuts(p, 0, |p|), 0)[i]))
      && Piece(t, Ranges(t)[j]) == u && Piece(t, Ranges(t)[j + 1]) == v
      && (forall i :: j + 1 < i < |Ranges(t)| ==> Piece(t, Ranges(t)[i]) == Piece(b, Ranges(b)[i - j - 2]))
  {
    var c := Onward(v, more, b);
    var t, j := Doc(p, u, true, c), |Cuts(p, 0, |p|)|;
    hide *;
    FirstOnward(v, more, b);
    DocPieces(p, u, true, c);
    forall i | j + 1 < i < |Ranges(t)| ensures Piece(t, Ranges(t)[i]) == Piece(b, Ranges(b)[i - j - 2]) {
      assert Piece(t, Ranges(t)[i]) == Piece(c, Ranges(c)[i - j - 1]);
    }
  }

  /** The cursor picks the second of the two. */
  lemma {:induction false} SecondPicked(p: string, u: string, v: string, more: bool, b: string, pos: nat)
    requires Opens(p) && Whole(u, true) && Whole(v, more) && v != ""
    requires |p| + |u| + 1 <= pos <= |p| + |u| + 1 + |v|
    ensures
      var t, j := Doc(p, u, true, Onward(v, more, b)), |Cuts(p, 0, |p|)|;
      && Choose(Ranges(t), pos) == j + 1 < |Ranges(t)| && PickAt(t, pos) == Piece(t, Ranges(t)[j + 1])
  {
    hide *;
    var c := Onward(v, more, b);
    var t, j := Doc(p, u, true, c), |Cuts(p, 0, |p|)|;
    OnwardStarts(v, more, b);
    SecondRange(p, u, c);
    RangesTile(t);
    ChooseInside(Ranges(t), 0, |t|, pos, j + 1);
    PickChosen(t, pos, j + 1);
  }

  lemma {:induction false} OnwardStarts(v: string, more: bool, b: string)
    requires Whole(v, more) && v != ""
    ensures Ranges(Onward(v, more, b)) != [] && Ranges(Onward(v, more, b))[0] == Range(0, |v|)
  {
    hide *;
    FirstOnward(v, more, b);
  }

  /** The statements of `Onward(v, more, b)`. */
  lemma {:induction false} FirstOnward(v: string, more: bool, b: string)
    requires Whole(v, more) && v != ""
    ensures
      var c := Onward(v, more, b);
      && |Ranges(c)| == 1 + (if more then |Ranges(b)| else 0)
      && Ranges(c)[0] == Range(0, |v|) && Piece(c, Ranges(c)[0]) == v
      && (forall i :: 0 < i < |Ranges(c)| ==> Piece(c, Ranges(c)[i]) == Piece(b, Ranges(b)[i - 1]))
  {
    EmptyOpens();
    assert Doc("", v, more, b) == Onward(v, more, b);
    hide Opens, Whole, Cuts, Ranges, Doc, Onward, Piece;
    DocPieces("", v, more, b);
  }

  lemma {:induction false} EmptyOpens()
    ensures Opens("") && |Cuts("", 0, |""|)| == 0
  {
  }

  lemma {:induction false} SecondRange(p: string, u: string, c: string)
    requires Opens(p) && Whole(u, true) && Ranges(c) != []
    ensures
      var t, j, d := Doc(p, u, true, c), |Cuts(p, 0, |p|)|, |p| + |u| + 1;
      && j + 1 < |Ranges(t)|
      && Ranges(t)[j + 1] == Range(Ranges(c)[0].from + d, Ranges(c)[0].to + d)
  {
    hide Opens, Whole, Cuts, Ranges, Doc, Layout;
    DocRanges(p, u, true, c);
    LayoutSize(p, |u|, true, c);
    LayoutTail(p, |u|, true, c, |Cuts(p, 0, |p|)| + 1);
  }

  // ---------------------------------------------------------------- the statement above keeps its connection

  lemma {:induction false} SkipBlanksInside(c: string, w: string, k: nat)
    requires k <= |c| && c != "" && !IsSpace(c[|c| - 1])
    ensures SkipBlanks(c, k) < |c| || k == |c|
    ensures k < |c| ==> SkipBlanks(c + w, k) == SkipBlanks(c, k)
    decreases |c| - k
  {
    if k < |c| && IsBlank(c[k]) {
      SkipBlanksInside(c, w, k + 1);
    }
  }

  lemma {:induction false} SkipBlanksInSpace(u: string, k: nat, e: nat)
    requires e <= k <= |u| && forall j :: e <= j < |u| ==> IsSpace(u[j])
    ensures SkipBlanks(u, k) < |u| ==> IsSpace(u[SkipBlanks(u, k)])
    decreases |u| - k
  {
    if k < |u| && IsBlank(u[k]) {
      SkipBlanksInSpace(u, k + 1, e);
    }
  }

  lemma {:induction false} ConnWordInside(c: string, w: string, q: nat)
    requires c != "" && !IsSpace(c[|c| - 1]) && AllSpace(w) && q < |c|
    ensures ConnWordAt(c + w, q) <==> ConnWordAt(c, q)
  {
    SpaceFollows(c, w);
    assert forall j :: 0 <= j < |c| ==> (c + w)[j] == c[j];
  }

  lemma {:induction false} AttemptIs(u: string)
    ensures
      var p := SkipBlanks(u, 0);
      Attempt(u).Some? <==> p + 2 <= |u| && u[p] == '-' && u[p + 1] == '-' && ConnWordAt(u, SkipBlanks(u, p + 2))
  {
    hide SkipBlanks, ConnWordAt;
  }

  lemma {:induction false} SpaceStartsNoWord(u: string, q: nat)
    requires q < |u| ==> IsSpace(u[q])
    ensures !ConnWordAt(u, q)
  {
  }

  lemma {:induction false} SpaceFollows(c: string, w: string)
    requires AllSpace(w)
    ensures forall j :: |c| <= j < |c + w| ==> IsSpace((c + w)[j])
  {
    hide IsSpace;
    assert forall j :: |c| <= j < |c + w| ==> (c + w)[j] == w[j - |c|];
  }

  /** Space behind a line that does not try to be a marker does not make it one. */
  lemma {:induction false} NoAttemptExtends(c: string, w: string)
    requires c != "" && !IsSpace(c[|c| - 1]) && Attempt(c).None? && AllSpace(w)
    ensures Attempt(c + w).None?
  {
    var u := c + w;
    assert !IsSpace('-');
    hide SkipBlanks, ConnWordAt, Attempt, AllSpace, IsSpace;
    AttemptIs(c);
    AttemptIs(u);
    SkipBlanksInside(c, w, 0);
    SpaceFollows(c, w);
    var p := SkipBlanks(c, 0);
    if p + 2 <= |c| && c[p] == '-' && c[p + 1] == '-' {
      if p + 2 == |c| {
        SkipBlanksInSpace(u, p + 2, |c|);
        SpaceStartsNoWord(u, SkipBlanks(u, p + 2));
      } else {
        SkipBlanksInside(c, w, p + 2);
        ConnWordInside(c, w, SkipBlanks(c, p + 2));
      }
    }
  }

  lemma {:induction false} QuietLastLine(c: string, w: string)
    requires c != "" && !IsSpace(c[|c| - 1]) && Attempt(c).None? && AllSpace(w) && '\n' !in c
    ensures Quiet(c + w)
  {
    var z := c + w;
    NoAttemptExtends(c, w);
    SpaceIsQuiet(w);
    assert forall k :: 0 <= k < |c| ==> z[k] == c[k] && z[k] != '\n';
    forall i | 0 <= i <= |z| && LineStart(z, i) ensures QuietHere(z[i..]) {
      if i == 0 {
        assert z[0..] == z;
      } else {
        assert LineStart(w, i - |c|);
        assert z[i..] == w[i - |c|..];
      }
    }
  }

  /** The last line of a text. */
  function LastLineOf(x: string): string {
    x[LastLine(x, |x|)..]
  }

  lemma {:induction false} LastLineLaws(x: string, k: nat)
    requires k <= |x|
    ensures WholeLines(x[..LastLine(x, k)]) && forall j :: LastLine(x, k) <= j < k ==> x[j] != '\n'
  {
    if k != 0 && x[k - 1] != '\n' {
      LastLineLaws(x, k - 1);
    }
  }

  /** Space behind the last line of a text changes no marker, as long as that line does not try to be one. */
  lemma {:induction false} MarkersBeforeSpace(x: string, w: string, v: string)
    requires x != "" && !IsSpace(x[|x| - 1]) && Attempt(LastLineOf(x)).None? && AllSpace(w) && AllSpace(v)
    requires Settled(x + w)
    ensures Markers(x + v, 0) == Markers(x + w, 0)
  {
    LastLineLaws(x, |x|);
    var a, c := x[..LastLine(x, |x|)], LastLineOf(x);
    assert x == a + c;
    LastLineNotEmpty(x);
    assert '\n' !in c by {
      assert forall j :: 0 <= j < |c| ==> c[j] == x[LastLine(x, |x|) + j];
    }
    QuietLastLine(c, w);
    QuietLastLine(c, v);
    Assoc(a, c, w);
    Assoc(a, c, v);
    hide Settled, SettledHere, Quiet, Exec, LastLine, Attempt, LineStart, Markers, LastLineOf, WholeLines;
    forall k | 0 <= k < |a| && LineStart(a, k) ensures SettledHere(a[k..]) {
      MatchesInHead(a, c + w, k);
    }
    MarkersOfHead(a, c + w);
    MarkersOfHead(a, c + v);
  }

  lemma {:induction false} LastLineNotEmpty(x: string)
    requires x != "" && x[|x| - 1] != '\n'
    ensures LastLineOf(x) != "" && LastLineOf(x)[|LastLineOf(x)| - 1] == x[|x| - 1]
  {
  }

  // ---------------------------------------------------------------- the edit

  lemma {:induction false} TrimEmptyIsSpace(s: string)
    requires Trim(s) == ""
    ensures AllSpace(s)
  {
    var k := Lead(s);
    var r := s[k..];
    assert r[Trail(r)..] == r;
    assert s[..k] + r == s;
  }

  /** What stands above, and that nothing but space follows it. */
  lemma {:induction false} AboveLaws(stmt: string, at: nat, name: Option<string>, allowSplit: bool)
    requires at <= |stmt| && OpensNew(stmt, at, name, allowSplit)
    ensures
      var x := Above(stmt, at);
      && |x| <= at && stmt == x + stmt[|x|..] && AllSpace(stmt[|x|..])
      && x != "" && !IsSpace(x[|x| - 1]) && x == TrimEnd(stmt)
      && AllSpace(DropBlanks(Drop(stmt, at)))
  {
    var head, tail, x := Take(stmt, at), Drop(stmt, at), Above(stmt, at);
    hide Trim, Strip, OnOwnLine, SkipBlanks, TrimEnd, AllSpace;
    TrimEmptyIsSpace(tail);
    AboveNotEmpty(head);
    TrimEndLaws(head);
    var w := stmt[|x|..];
    assert w == head[|x|..] + tail;
    assert stmt == x + w;
    SpaceJoined(head[|x|..], tail);
    SpaceDropped(tail);
    TrimEndUnique(x, w);
  }

  lemma {:induction false} SpaceJoined(a: string, b: string)
    requires AllSpace(a) && AllSpace(b)
    ensures AllSpace(a + b)
  {
  }

  lemma {:induction false} SpaceDropped(a: string)
    requires AllSpace(a)
    ensures AllSpace(DropBlanks(a))
  {
  }

  lemma {:induction false} TrimEndLaws(s: string)
    ensures var x := TrimEnd(s);
      |x| <= |s| && x == s[..|x|] && AllSpace(s[|x|..]) && (x != "" ==> !IsSpace(x[|x| - 1]))
  {
  }

  lemma {:induction false} AboveNotEmpty(head: string)
    requires Trim(Strip(head)) != ""
    ensures TrimEnd(head) != ""
  {
    if TrimEnd(head) == "" {
      assert head[0..] == head;
      SpaceIsQuiet(head);
      QuietHasNoMarkers(head);
      StripOfMarkerFree(head);
      TrimOfSpace(head);
    }
  }

  /** The statement above reads up to its end or stops in a line comment, and it holds no cut. */
  lemma {:induction false} AboveReads(stmt: string, at: nat, x: string)
    requires |x| <= at <= |stmt| && stmt == x + stmt[|x|..] && AllSpace(stmt[|x|..])
    requires TopLevel(stmt, at) && Cuts(stmt, 0, |stmt|) == []
    ensures Cuts(x, 0, |x|) == []
    ensures Stops(x, 0) == |x| || (Stops(x, 0) < |x| && KindAt(x, Stops(x, 0)) == LineComment)
  {
    assert stmt[..|x|] == x;
    assert forall j :: |x| <= j < |stmt| ==> stmt[j] == stmt[|x|..][j - |x|];
    hide Cuts, Stops, KindAt;
    NoCutInHead(stmt, |x|);
    StopsInComment(stmt, 0, |x|, at);
  }

  predicate OpensBelow(doc: string, from: nat, to: nat, name: string, j: nat)
    requires from <= to <= |doc| && j < |Ranges(Without(doc, from, to))|
  {
    OpensNew(StatementOf(doc, from, to, j), Position(doc, from, to, j), Some(name), true)
  }

  lemma {:induction false} ClippedInsert(stmt: string, at: nat, name: string)
    requires |stmt| <= at
    ensures NewInsert(stmt, at, name) == NewInsert(stmt, |stmt|, name) && Drop(stmt, at) == Drop(stmt, |stmt|)
  {
    hide Trim, Strip, Separator, TrimEnd;
    assert stmt[..|stmt|] == stmt && stmt[|stmt|..] == "";
  }

  lemma {:induction false} PlaceIsNew(doc: string, from: nat, to: nat, name: string, j: nat, at: nat)
    requires AtStatement(doc, from, to, j) && Ranges(Without(doc, from, to))[j].from + at == from
    requires OpensNew(StatementOf(doc, from, to, j), at, Some(name), true)
    ensures
      var e, stmt := PlaceIn(doc, from, to, Some(name), true), StatementOf(doc, from, to, j);
      && e.insert == NewInsert(stmt, at, name) + DropBlanks(Drop(stmt, at))
      && e.anchor == Ranges(Without(doc, from, to))[j].from + |NewInsert(stmt, at, name)|
  {
    hide Ranges, OpensNew, Choose, Take, Drop, Piece, DropBlanks, NewInsert;
  }

  lemma {:induction false} PositionIs(doc: string, from: nat, to: nat, j: nat)
    requires AtStatement(doc, from, to, j)
    ensures from <= to <= |doc| && j < |Ranges(Without(doc, from, to))|
    ensures
      var r, stmt := Ranges(Without(doc, from, to))[j], StatementOf(doc, from, to, j);
      && r.from <= from
      && Position(doc, from, to, j) == (if from <= r.to then from - r.from else |stmt|)
      && (r.to < from ==> |stmt| <= from - r.from)
  {
    StatementBounds(doc, from, to, j);
    hide Ranges, Choose, Piece;
  }

  lemma {:induction false} OpensBelowIs(doc: string, from: nat, to: nat, name: string, j: nat)
    requires from <= to <= |doc| && j < |Ranges(Without(doc, from, to))| && OpensBelow(doc, from, to, name, j)
    ensures OpensNew(StatementOf(doc, from, to, j), Position(doc, from, to, j), Some(name), true)
  {
  }

  /** What the change writes when it opens a new statement, and where it puts the cursor. */
  lemma {:induction false} PlaceOpensNew(doc: string, from: nat, to: nat, name: string, j: nat)
    requires AtStatement(doc, from, to, j) && OpensBelow(doc, from, to, name, j)
    ensures
      var e, stmt, at := PlaceIn(doc, from, to, Some(name), true), StatementOf(doc, from, to, j), Position(doc, from, to, j);
      && e.insert == NewInsert(stmt, at, name) + DropBlanks(Drop(stmt, at))
      && e.anchor == Ranges(Without(doc, from, to))[j].from + |NewInsert(stmt, at, name)|
  {
    hide *;
    PositionIs(doc, from, to, j);
    OpensBelowIs(doc, from, to, name, j);
    var r, stmt := Ranges(Without(doc, from, to))[j], StatementOf(doc, from, to, j);
    if r.to < from {
      ClippedPosition(stmt, from - r.from, Some(name), true);
      ClippedInsert(stmt, from - r.from, name);
    }
    PlaceIsNew(doc, from, to, name, j, from - r.from);
  }

  /** What stands behind the statement before and after the change. */
  lemma {:induction false} LeftParts(doc: string, from: nat, to: nat, j: nat)
    requires AtStatement(doc, from, to, j)
    ensures from <= to <= |doc| && j < |Ranges(Without(doc, from, to))|
    ensures
      var t, left := Without(doc, from, to), Leftover(doc, from, to, j);
      var r := Ranges(t)[j];
      if from <= r.to then left == "" && |Ranges(left)| == 0 && NewBehind(doc, from, to, j) == Behind(t, r)
      else r.to < |t| && j == |Ranges(t)| - 1 && |Ranges(Behind(t, r))| == 0 && NewBehind(doc, from, to, j) == left
  {
    assert |Ranges("")| == 0;
    StatementBounds(doc, from, to, j);
    var r := Ranges(Without(doc, from, to))[j];
    hide Ranges, Choose;
    if from <= r.to {
      NothingStays(doc, from, to, j);
    } else {
      LeftBehind(doc, from, to, j);
      assert Behind(Without(doc, from, to), r) == "";
    }
  }
}
