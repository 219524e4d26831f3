/** What a choice of connection, the cell view and its reverse keep. */
module ConnMarkerLaws {
  import opened Text
  import opened ConnMarker
  import opened ConnMarkerParts

  // ---------------------------------------------------------------- the laws

  /** Removing the marker by choosing the default connection is the same as stripping. */
  lemma {:induction false} UpsertNoneStrips(s: string)
    ensures Upsert(s, None).text == Strip(s)
  {
    MarkersInOrder(s, 0);
    var marks := Markers(s, 0);
    if marks == [] {
      assert s[0..] == s;
    } else {
      var m := marks[0];
      assert s[0..m.from] == s[..m.from];
      assert s[..m.from] + "" == s[..m.from];
    }
  }

  /** What is sent to the server shows a marker exactly when a line comes alive by the removal of the markers. */
  lemma {:induction false} StripIsMarkerFree(s: string)
    ensures Markers(Strip(s), 0) == [] <==> Calm(s, None)
  {
    hide Calm, Strip, Markers, UpsertHead, UpsertRest, Silent, WholeLines;
    UpsertForm(s, None);
    var g, r := UpsertHead(s), UpsertRest(s);
    assert "" + r == r;
    NoMarkersInParts(g, r);
  }

  /** A text on which the choice wakes a line: the written marker is not the only one, or not the first. */
  lemma {:induction false} WokenLine(s: string, name: string)
    requires !Calm(s, Some(name)) && '\n' !in name
    ensures var t := Upsert(s, Some(name)).text; |Markers(t, 0)| != 1 || Markers(t, 0)[0].name != name
  {
    var g, r, w := UpsertHead(s), UpsertRest(s), WrittenLine(name);
    var t := Upsert(s, Some(name)).text;
    assert Markers(s, 0) != [];
    UpsertForm(s, Some(name));
    HeadOfFirst(s);
    hide Calm, Upsert, UpsertHead, UpsertRest, MatchAt, WrittenLine, Exec;
    MarkedIs(g, name, r);
    if Silent(g, w + r) {
      MarkersBehindHead(g, name, r);
    } else {
      ExecFirst(t, 0);
      var k :| 0 <= k < |g| && MatchAt(g + (w + r), k).Some?;
      assert Exec(t, 0).Some?;
      var m := Exec(t, 0).value;
      WokenName(s, m.from, w + r);
    }
  }

  lemma {:induction false} HeadOfFirst(s: string)
    requires Markers(s, 0) != []
    ensures |UpsertHead(s)| <= |s| && UpsertHead(s) == s[..|UpsertHead(s)|]
    ensures forall k :: 0 <= k < |UpsertHead(s)| ==> MatchAt(s, k).None?
  {
    hide MatchAt;
    MarkersInOrder(s, 0);
    ExecFirst(s, 0);
  }

  lemma {:induction false} WholeLinesEnd(g: string)
    requires WholeLines(g) && g != ""
    ensures g[|g| - 1] == '\n'
  {
  }

  lemma {:induction false} SameLineStart(g: string, v: string, i: nat)
    requires i < |g|
    ensures LineStart(g + v, i) <==> LineStart(g, i)
  {
  }

  lemma {:induction false} MatchIsHere(s: string, i: nat)
    requires i <= |s|
    ensures MatchAt(s, i).Some? <==> LineStart(s, i) && MatchHere(s[i..]).Some?
    ensures MatchAt(s, i).Some? ==> MatchAt(s, i).value.name == MatchHere(s[i..]).value.name
  {
    hide MatchHere;
  }

  lemma {:induction false} WokenName(s: string, i: nat, v: string)
    requires Markers(s, 0) != [] && i < |UpsertHead(s)| && MatchAt(UpsertHead(s) + v, i).Some?
    ensures '\n' in MatchAt(UpsertHead(s) + v, i).value.name
  {
    hide *;
    HeadOfFirst(s);
    UpsertHeadLines(s);
    var g, y := UpsertHead(s), |UpsertHead(s)|;
    assert MatchAt(s, i).None?;
    WholeLinesEnd(g);
    assert g[y - 1] == s[y - 1];
    assert (g + v)[i..] == s[i..y] + v;
    SameLineStart(g, v, i);
    SameLineStart(g, s[y..], i);
    assert s == g + s[y..];
    MatchIsHere(g + v, i);
    MatchIsHere(s, i);
    RevivedName(s, i, y, v);
  }

  /**
   * After a choice there is one marker, whose name reads back unchanged, the stripped text is not altered, and a later
   * choice replaces the marker, exactly when no line comes alive.
   */
  lemma {:induction false} UpsertLaws(s: string, name: string, other: string)
    ensures
      var t := Upsert(s, Some(name)).text;
      Calm(s, Some(name)) ==>
        && |Markers(t, 0)| == 1 && Markers(t, 0)[0].name == name
        && Strip(t) == Strip(s)
        && Upsert(t, Some(other)).text == Upsert(s, Some(other)).text
        && Upsert(t, None).text == Strip(s)
    ensures
      var t := Upsert(s, Some(name)).text;
      '\n' !in name ==> (Calm(s, Some(name)) <==> |Markers(t, 0)| == 1 && Markers(t, 0)[0].name == name)
  {
    hide Calm, Surround, Upsert, Strip, Markers, UpsertHead, UpsertRest;
    UpsertForm(s, Some(name));
    UpsertForm(s, Some(other));
    if Calm(s, Some(name)) {
      OneWrittenMarker(UpsertHead(s), name, UpsertRest(s));
      UpsertMarkedAgain(UpsertHead(s), name, UpsertRest(s), other);
    } else if '\n' !in name {
      WokenLine(s, name);
    }
  }

  lemma {:induction false} LastLineIsLine(s: string, k: nat)
    requires k <= |s|
    ensures LineStart(s, LastLine(s, k)) && forall j :: LastLine(s, k) <= j < k ==> s[j] != '\n'
  {
    if k != 0 && s[k - 1] != '\n' {
      LastLineIsLine(s, k - 1);
    }
  }

  /** The start of the first line with content; of the last line when there is none. */
  predicate FirstContentLine(s: string, at: nat) {
    && at <= |s| && AllSpace(s[..at]) && (at == 0 || s[at - 1] == '\n')
    && exists c: nat :: at <= c <= |s| && (c < |s| ==> !IsSpace(s[c]))
                        && forall k :: at <= k < c ==> IsSpace(s[k]) && s[k] != '\n'
  }

  /** Into a statement without a marker the new line goes in front of the first line with content. */
  lemma {:induction false} UnmarkedInsert(s: string, name: string) returns (at: nat)
    requires Markers(s, 0) == []
    ensures FirstContentLine(s, at)
    ensures Upsert(s, Some(name)) == MarkerEdit(s[..at] + WrittenLine(name) + s[at..], |WrittenLine(name)|, at)
  {
    hide Exec, MarkerLine;
    var c := Lead(s);
    at := LastLine(s, c);
    LastLineIsLine(s, c);
    assert forall k :: 0 <= k < c ==> IsSpace(s[..c][k]) && s[..c][k] == s[k];
    assert forall k :: 0 <= k < at ==> s[..at][k] == s[k];
  }

  /** What is put into a source is what the view then shows. */
  lemma {:induction false} PutGet(prev: string, body: string)
    requires Markers(body, 0) == []
    ensures Strip(MergeBody(prev, body)) == body
  {
    hide Exec;
    MarkersInOrder(body, 0);
    assert body[0..] == body;
    assert Strip(body) == body;
    if Markers(prev, 0) != [] {
      UpsertLaws(body, Markers(prev, 0)[0].name, "");
    }
  }

  /** Only the last put counts. */
  lemma {:induction false} PutPut(prev: string, body: string, other: string)
    requires Markers(body, 0) == [] && Markers(other, 0) == []
    ensures MergeBody(MergeBody(prev, body), other) == MergeBody(prev, other)
  {
    hide Exec;
    if Markers(prev, 0) != [] {
      UpsertLaws(body, Markers(prev, 0)[0].name, "");
    }
  }

  /** Putting back what the view shows changes nothing in a source that `upsertMarker` built from a body. */
  lemma {:induction false} GetPut(body: string, name: string)
    requires Markers(body, 0) == []
    ensures var src := Upsert(body, Some(name)).text; MergeBody(src, Strip(src)) == src
  {
    hide Exec, Upsert;
    MarkersInOrder(body, 0);
    assert body[0..] == body;
    UpsertLaws(body, name, name);
  }

  /** A marker typed into the body wins over the one of the previous source, exactly when no line comes alive. */
  lemma {:induction false} TypedMarkerWins(prev: string, body: string)
    requires Markers(body, 0) != []
    ensures
      var t, name := MergeBody(prev, body), Markers(body, 0)[0].name;
      && (Calm(body, Some(name)) ==>
            |Markers(t, 0)| == 1 && Markers(t, 0)[0].name == name && Strip(t) == Strip(body))
      && ('\n' !in name ==> (Calm(body, Some(name)) <==> |Markers(t, 0)| == 1 && Markers(t, 0)[0].name == name))
  {
    hide Markers, Strip, Calm;
    UpsertLaws(body, Markers(body, 0)[0].name, "");
  }

  // ---------------------------------------------------------------- a quoted name that never closes

  const DANGLING: string := "-- @conn \"a\n"

  lemma {:induction false} QuoteCloseSkips(u: string, k: nat, j: nat)
    requires k <= j <= |u| && forall i :: k <= i < j ==> u[i] != '"'
    ensures QuoteClose(u, k) == QuoteClose(u, j)
    decreases j - k
  {
    if k < j {
      QuoteCloseSkips(u, k + 1, j);
    }
  }

  const LEFT_OPEN: string := "-- @conn \"a\n-- @conn \"x\""

  lemma {:induction false} WrittenX()
    ensures DANGLING + WrittenLine("x") == LEFT_OPEN + "\n" && |WrittenLine("x")| == 13
    ensures WrittenLine("a\n") == DANGLING + "\"\n"
  {
  }

  lemma {:induction false} DanglingDoesNotMatch(u: string)
    requires LEFT_OPEN <= u && |u| > 24
    ensures MatchHere(u).None?
  {
    assert forall i :: 0 <= i < 24 ==> u[i] == LEFT_OPEN[i];
    assert PREFIX <= u;
    hide Attempt;
    PrefixAttempt(u);
    QuoteCloseSkips(u, 10, 21);
    assert u[21] == '"' && u[22] == 'x';
    assert QuoteClose(u, 21) == Some(22);
    assert SkipBlanks(u, 22) == 22 && BreakEnd(u, 22).None?;
  }

  function Alive(): string {
    DANGLING + (WrittenLine("x") + "\"\n")
  }

  lemma {:induction false} AliveShape()
    ensures
      var s, d, w, r := Alive(), |DANGLING|, WrittenLine("x"), "\"\n";
      && |s| == d + |w| + 2 && LEFT_OPEN <= s && d == 12 && |w| == 13
      && s[0..] == s && s[d..] == w + r && s[d + |w|..] == r && s[..d] == DANGLING
      && LineStart(s, d) && LineStart(s, d + |w|) && forall k :: 0 < k < d ==> !LineStart(s, k)
  {
    WrittenX();
    hide WrittenLine;
    var s := Alive();
    assert s == LEFT_OPEN + "\n" + "\"\n";
    assert forall i :: 0 <= i < 25 ==> s[i] == (LEFT_OPEN + "\n")[i];
  }

  lemma {:induction false} AliveMarkers()
    ensures Markers(Alive(), 0) == [Marker("x", 12, 25)]
  {
    var s, r := Alive(), "\"\n";
    AliveShape();
    DanglingDoesNotMatch(s);
    WrittenMatches("x", r);
    assert MatchAt(s, 12) == Some(Marker("x", 12, 25));
    assert '@' !in r;
    hide MatchHere, Exec, WrittenLine, Alive;
    ExecSkips(s, 0, 12);
    assert Exec(s, 12) == MatchAt(s, 12) by {
      ExecHere(s, 12);
    }
    NoMarkerWithoutAt(r, 0);
    SuffixExec(s, 25, r);
    assert Markers(s, 25) == [];
  }

  lemma {:induction false} ExecHere(s: string, i: nat)
    requires i <= |s| && MatchAt(s, i).Some?
    ensures Exec(s, i) == MatchAt(s, i)
  {
  }

  /**
   * A line that opens a quoted name and leaves it open comes alive when the marker behind it is removed: the stripped
   * text shows a marker that the original did not show.
   */
  lemma {:induction false} DanglingQuoteComesAlive()
    ensures Markers(Alive(), 0) == [Marker("x", 12, 25)]
    ensures Strip(Alive()) == WrittenLine("a\n") && Markers(Strip(Alive()), 0) == [Marker("a\n", 0, 14)]
  {
    AliveShape();
    AliveMarkers();
    WrittenX();
    var s, m := Alive(), Marker("x", 12, 25);
    hide Markers, WrittenLine, Alive, Quiet;
    MarkersInOrder(s, 0);
    assert Gaps(s, [m], 0) == s[0..12] + s[25..];
    assert s[0..12] == DANGLING;
    assert "" + WrittenLine("a\n") + "" == WrittenLine("a\n");
    EmptySurround();
    OneWrittenMarker("", "a\n", "");
  }

  lemma {:induction false} AliveIsNotCalm()
    ensures !Calm(Alive(), None)
  {
    hide *;
    DanglingQuoteComesAlive();
    StripIsMarkerFree(Alive());
  }

  lemma {:induction false} EmptySurround()
    ensures Surround("", WrittenLine("a\n"), "")
  {
    EmptyIsQuiet();
    QuietHasNoMarkers("");
    QuietSurrounds("", WrittenLine("a\n"), "");
  }
}
