/** Documents on which placing a marker does less than a user would expect of it. */
module PlaceMarkerExamples {
  import opened Text
  import opened Splitter
  import opened SplitterLaws
  import opened SplitterEdits
  import opened ConnMarker
  import opened ConnMarkerParts
  import opened ConnMarkerLaws
  import opened PlaceMarker
  import opened PlaceMarkerParts
  import opened PlaceMarkerLaws
  import opened NewStatementParts
  import opened NewStatement

  // ---------------------------------------------------------------- small documents

  lemma {:induction false} NothingToCut(b: string)
    requires b == ""
    ensures Opens(b) && Cuts(b, 0, |b|) == [] && Ranges(b) == []
  {
  }

  /** A statement alone, or with a semicolon behind it. */
  lemma {:induction false} OneStatement(u: string, more: bool)
    requires Whole(u, more) && u != ""
    ensures Ranges(if more then u + ";" else u) == [Range(0, |u|)]
  {
    NothingToCut("");
    assert Doc("", u, more, "") == if more then u + ";" else u;
    hide Whole, Opens, Cuts, Doc, Ranges;
    DocRanges("", u, more, "");
    assert Layout("", |u|, more, "") == [Range(0, |u|)];
  }

  lemma {:induction false} NoMarkers(s: string)
    requires '@' !in s
    ensures Markers(s, 0) == [] && Strip(s) == s && MarkersPlain(s)
  {
    hide Exec;
    NoMarkerWithoutAt(s, 0);
    StripOfMarkerFree(s);
  }

  lemma {:induction false} PieceOfAll(u: string, more: bool)
    ensures Piece(if more then u + ";" else u, Range(0, |u|)) == u
  {
  }

  lemma {:induction false} PlainReads(s: string, i: nat)
    requires i <= |s| && forall k :: 0 <= k < |s| ==> KindAt(s, k) == Plain
    ensures Reaches(s, i, |s|) && (';' !in s ==> Cuts(s, i, |s|) == [])
    decreases |s| - i
  {
    hide Element, KindAt;
    if i < |s| {
      PlainReads(s, i + 1);
      assert s[i] in s;
    }
  }

  /** The trigger text `/` is one statement. */
  lemma {:induction false} SlashRanges()
    ensures Ranges("/") == [Range(0, 1)] && Piece("/", Range(0, 1)) == "/"
  {
    PlainReads("/", 0);
    OneStatement("/", false);
    PieceOfAll("/", false);
  }

  lemma {:induction false} TrimOne(c: char, z: string)
    requires !IsSpace(c) && AllSpace(z)
    ensures TrimEnd([c] + z) == [c] && Trim([c] + z) == [c]
  {
    TrimEndUnique([c], z);
    var s := [c] + z;
    assert Lead(s) == 0 && s[0..] == s;
  }

  /** A trigger at the end of a document of one statement. */
  lemma {:induction false} TriggerAtEnd(doc: string, t: string, u: string, more: bool)
    requires |t| < |doc| && Take(doc, |t|) == t && t == (if more then u + ";" else u) && Ranges(t) == [Range(0, |u|)]
    ensures Without(doc, |t|, |doc|) == t && AtStatement(doc, |t|, |doc|, 0)
    ensures StatementOf(doc, |t|, |doc|, 0) == u && Position(doc, |t|, |doc|, 0) == |u|
    ensures if more then BehindLast(doc, |t|, |doc|, 0) else InStatement(doc, |t|, |doc|, 0)
    ensures Leftover(doc, |t|, |doc|, 0) == if more then doc[|t|..|doc|] else ""
  {
    assert doc[|doc|..] == "" && t + "" == t;
    assert Without(doc, |t|, |doc|) == t;
    PieceOfAll(u, more);
    hide Ranges, Piece;
  }

  // ---------------------------------------------------------------- a trigger behind the last semicolon

  lemma {:induction false} StaysWithA()
    ensures !OpensNew("a", 1, Some("x"), true) && Ranges("a;") == [Range(0, 1)] && MarkersPlain("a")
  {
    PlainReads("a", 0);
    assert "a" + ";" == "a;";
    OneStatement("a", true);
    NoMarkers("a");
    hide Ranges, Strip, Trim, MarkersPlain;
    assert BlankTail("a") == 1 && !OnOwnLine("a") && Take("a", 1) == "a";
  }

  lemma {:induction false} StaysIs(doc: string, from: nat, to: nat, name: Option<string>, u: string)
    requires AtStatement(doc, from, to, 0) && StatementOf(doc, from, to, 0) == u && Position(doc, from, to, 0) == |u|
    ensures StaysInStatement(doc, from, to, 0, name, true) <==> !OpensNew(u, |u|, name, true)
    ensures name.Some? ==> (OpensBelow(doc, from, to, name.value, 0) <==> OpensNew(u, |u|, name, true))
    ensures SeparatorLands(doc, from, to, 0) <==> Lands(Above(u, |u|), WrittenSeparator(u, |u|))
  {
    hide OpensNew, Ranges, Choose, Lands, Above, WrittenSeparator;
  }

  /** `a;/` with the trigger at the slash: the marker goes to the first statement, the slash stays and runs. */
  lemma {:induction false} TriggerRunsExample()
    ensures
      var e := PlaceIn("a;/", 2, 3, Some("x"), true);
      && BehindLast("a;/", 2, 3, 0) && StaysInStatement("a;/", 2, 3, 0, Some("x"), true)
      && PickAt(Apply("a;/", e), e.anchor) == "/"
  {
    var doc, t := "a;/", "a;";
    assert Take(doc, 2) == t && doc[2..3] == "/" && "a" + ";" == t && SingleLine(Some("x"));
    StaysWithA();
    SlashRanges();
    hide *;
    TriggerAtEnd(doc, t, "a", true);
    StaysIs(doc, 2, 3, Some("x"), "a");
    TriggerTextRuns(doc, 2, 3, Some("x"), true, 0);
  }

  lemma {:induction false} LineOfA()
    ensures Ranges("a\n;") == [Range(0, 2)] && TopLevel("a\n;", 3)
  {
    PlainReads("a\n", 0);
    PlainReads("a\n;", 0);
    assert "a\n" + ";" == "a\n;";
    hide Ranges, Cuts, Reaches;
    OneStatement("a\n", true);
  }

  lemma {:induction false} TextOfA()
    ensures Strip("a\n") == "a\n" && TrimEnd("a\n") == "a" && Trim("a\n") == "a"
  {
    NoMarkers("a\n");
    assert "a\n" == ['a'] + "\n" && "a" == ['a'];
    hide Strip, Trail, Trim, Lead;
    TrimOne('a', "\n");
  }

  lemma {:induction false} NoCommentInA()
    ensures !EndsInLineComment("a")
  {
    hide LiteralMatch;
    assert "a"[0] == 'a' && LastLine("a", 1) == LastLine("a", 0) == 0 && "a"[0..] == "a";
    assert DropLiterals("a", 1) == "" && DropLiterals("a", 0) == "a";
    assert IndexOf("a", "--", 0).None?;
  }

  /** A trigger on the line below a text without markers opens a new statement. */
  lemma {:induction false} OpensBelowLine(u: string, x: string, name: string)
    requires u == x + "\n" && x != "" && Strip(u) == u && Trim(u) == x && TrimEnd(u) == x
    ensures OpensNew(u, |u|, Some(name), true)
    ensures Above(u, |u|) == x && WrittenSeparator(u, |u|) == Separator(x) && DropBlanks(Drop(u, |u|)) == ""
  {
    assert Take(u, |u|) == u && Drop(u, |u|) == "" && Trim("") == "" && DropBlanks("") == "";
    OwnLine(x);
    hide Strip, Trim, TrimEnd, Separator, DropBlanks, BlankTail;
  }

  lemma {:induction false} OpensBelowA()
    ensures OpensNew("a\n", 2, Some("x"), true)
    ensures Above("a\n", 2) == "a" && WrittenSeparator("a\n", 2) == ";" && DropBlanks(Drop("a\n", 2)) == ""
    ensures Lands("a", ";")
  {
    hide *;
    TextOfA();
    OfA();
    OpensBelowLine("a\n", "a", "x");
  }

  lemma {:induction false} OfA()
    ensures "a\n" == "a" + "\n" && |"a\n"| == 2 && "a" != "" && Separator("a") == ";" && Lands("a", ";")
  {
    NoCommentInA();
    StopsOfA();
    hide EndsInLineComment, Stops;
  }

  lemma {:induction false} StopsOfA()
    ensures Stops("a", 0) == |"a"|
  {
    assert KindAt("a", 0) == Plain;
    hide Element;
    assert Stops("a", 1) == 1;
  }

  lemma {:induction false} OwnLine(x: string)
    ensures OnOwnLine(x + "\n")
  {
    assert BlankTail(x + "\n") == |x| + 1;
  }

  /** `a`, a line break, `;/`: the new statement is opened and runs, and the slash stays as a third statement. */
  lemma {:induction false} TriggerLeftExample()
    ensures
      var e := PlaceIn("a\n;/", 3, 4, Some("x"), true);
      var after := Apply("a\n;/", e);
      && BehindLast("a\n;/", 3, 4, 0) && !StaysInStatement("a\n;/", 3, 4, 0, Some("x"), true)
      && |Ranges(after)| == 3
      && PickAt(after, e.anchor) == Piece(after, Ranges(after)[1]) == NewText("x", "")
      && Piece(after, Ranges(after)[2]) == "/"
  {
    hide *;
    var doc, t, u := "a\n;/", "a\n;", "a\n";
    LeftTexts();
    LineOfA();
    OpensBelowA();
    SlashRanges();
    TriggerAtEnd(doc, t, u, true);
    StaysIs(doc, 3, 4, Some("x"), u);
    BelowIs(doc, 3, 4, "x", 0);
    LandedStatements(doc, 3, 4, "x", 0);
    var after := Apply(doc, PlaceIn(doc, 3, 4, Some("x"), true));
    assert Piece(after, Ranges(after)[|Ranges(t)| + 1 + 0]) == Piece("/", Ranges("/")[0]);
  }

  lemma {:induction false} LeftTexts()
    ensures
      var doc, t, u := "a\n;/", "a\n;", "a\n";
      && |doc| == 4 && |t| == 3 && |u| == 2 && Take(doc, 3) == t && doc[3..4] == "/" && u + ";" == t && '\n' !in "x"
  {
  }

  lemma {:induction false} BelowIs(doc: string, from: nat, to: nat, name: string, j: nat)
    requires AtStatement(doc, from, to, j) && from <= |Without(doc, from, to)| && TopLevel(Without(doc, from, to), from)
    requires OpensBelow(doc, from, to, name, j) && '\n' !in name
    ensures Below(doc, from, to, name, j)
  {
    hide Ranges, OpensNew, Choose, Reaches;
  }

  // ---------------------------------------------------------------- a statement that holds nothing but its marker

  lemma {:induction false} MarkerIsWhole()
    ensures
      var t := WrittenLine("x");
      && Whole(t, false) && t != "" && t + "" == t && OneLine(t, Marker("x", 0, |t|)) && Marked("", "x", "") == t
  {
    var t := WrittenLine("x");
    hide WrittenLine;
    assert t + "" == t && "" + t == t;
    WrittenShape("x", "");
    WrittenChars("x", "");
    WrittenLineReads("x", "");
  }

  lemma {:induction false} MarkerStatement()
    ensures
      var t := WrittenLine("x");
      && Ranges(t) == [Range(0, |t|)] && MarkersPlain(t) && Upsert(t, None).text == "" && t != ""
  {
    var t := WrittenLine("x");
    MarkerIsWhole();
    hide Whole, Ranges, WrittenLine, Quiet, Markers, Strip, Upsert, Exec, OneLine, Marked, Surround;
    OneStatement(t, false);
    EmptyIsQuiet();
    QuietHasNoMarkers("");
    QuietSurrounds("", t, "");
    OneWrittenMarker("", "x", "");
    UpsertNoneStrips(t);
    StartsAtTop(t);
    OnePlainMarker(t, Marker("x", 0, |t|));
  }

  lemma {:induction false} OnePlainMarker(s: string, m: Marker)
    requires Markers(s, 0) == [m] && OneLine(s, m) && TopLevel(s, m.from)
    ensures MarkersPlain(s)
  {
    hide Exec, TopLevel, OneLine;
  }

  lemma {:induction false} StartsAtTop(t: string)
    ensures TopLevel(t, 0)
  {
  }

  /** A document of one marker and the trigger: choosing the default connection leaves no statement. */
  lemma {:induction false} EmptiedExample()
    ensures
      var doc, n := WrittenLine("x") + "/", |WrittenLine("x")|;
      && !Kept(doc, n, n + 1, 0, None)
      && |Ranges(Without(doc, n, n + 1))| == 1
      && |Ranges(Apply(doc, PlaceIn(doc, n, n + 1, None, true)))| == 0
  {
    var t := WrittenLine("x");
    var doc, n := t + "/", |t|;
    assert Take(doc, n) == t;
    MarkerStatement();
    assert SingleLine(None) && !OpensNew(t, n, None, true);
    hide Ranges, Piece, Upsert, WrittenLine, MarkersPlain, Apply, PlaceIn, OpensNew, StaysInStatement, InStatement, SingleLine;
    TriggerAtEnd(doc, t, t, false);
    StaysIs(doc, n, n + 1, None, t);
    StatementCountKept(doc, n, n + 1, None, true, 0);
  }

  // ---------------------------------------------------------------- a separator that does not land

  lemma {:induction false} CommentedLine()
    ensures Whole("a--;\n", false) && TopLevel("a--;\n", 5) && Stops("a--;", 0) == 1
  {
    var t, x := "a--;\n", "a--;";
    assert KindAt(t, 0) == Plain && KindAt(t, 1) == LineComment && t[4] == '\n';
    assert KindAt(x, 0) == Plain && KindAt(x, 1) == LineComment;
    CommentLineReads(t, 1, 4);
    LineCommentEnd(x, 1);
    assert forall k :: 0 <= k < |x| ==> x[k] != '\n';
    assert Element(x, 1).Open?;
    hide Element;
    assert Reaches(t, 0, 5) && Cuts(t, 0, 5) == Cuts(t, 1, 5);
  }

  lemma {:induction false} TextOfComment()
    ensures Strip("a--;\n") == "a--;\n" && TrimEnd("a--;\n") == "a--;" && Trim("a--;\n") == "a--;"
  {
    NoMarkers("a--;\n");
    assert "a--;\n" == "a--;" + "\n";
    assert Lead("a--;\n") == 0 && "a--;\n"[0..] == "a--;\n";
    hide Strip, Trail, Lead;
    TrimEndUnique("a--;", "\n");
  }

  lemma {:induction false} OpensBelowComment()
    ensures OpensNew("a--;\n", 5, Some("x"), true)
    ensures Above("a--;\n", 5) == "a--;" && WrittenSeparator("a--;\n", 5) == "" && DropBlanks(Drop("a--;\n", 5)) == ""
  {
    hide *;
    TextOfComment();
    OfComment();
    OpensBelowLine("a--;\n", "a--;", "x");
  }

  lemma {:induction false} OfComment()
    ensures "a--;\n" == "a--;" + "\n" && |"a--;\n"| == 5 && "a--;" != "" && Separator("a--;") == ""
  {
  }

  /** The text above ends with a semicolon in a comment: no separator is written, and the marker joins the statement above. */
  lemma {:induction false} SwallowedExample()
    ensures
      var e := PlaceIn("a--;\n/", 5, 6, Some("x"), true);
      var after := Apply("a--;\n/", e);
      && Below("a--;\n/", 5, 6, "x", 0) && !SeparatorLands("a--;\n/", 5, 6, 0)
      && |Ranges(after)| == 1 && PickAt(after, e.anchor) == "a--;" + "\n\n" + WrittenLine("x")
  {
    hide *;
    var doc, t := "a--;\n/", "a--;\n";
    SwallowedTexts();
    CommentedLine();
    OpensBelowComment();
    OneStatement(t, false);
    NothingToCut("");
    TriggerAtEnd(doc, t, t, false);
    StaysIs(doc, 5, 6, Some("x"), t);
    BelowIs(doc, 5, 6, "x", 0);
    UnlandedStatements(doc, 5, 6, "x", 0);
    NewInsertIs(t, 5, "x", "");
    SwallowedText(WrittenLine("x"));
  }

  lemma {:induction false} SwallowedTexts()
    ensures
      var doc, t := "a--;\n/", "a--;\n";
      && |doc| == 6 && |t| == 5 && Take(doc, 5) == t && '\n' !in "x" && t != "" && !Lands("a--;", "")
  {
    hide Stops;
  }

  lemma {:induction false} SwallowedText(line: string)
    ensures "a--;" + "" + "\n\n" + line + "" == "a--;" + "\n\n" + line
  {
  }
}
