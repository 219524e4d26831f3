/** When a new statement below the one above is really opened. */
module NewStatement {
  import opened Text
  import opened Splitter
  import opened SplitterLaws
  import opened SplitterEdits
  import opened ConnMarker
  import opened ConnMarkerParts
  import opened ConnMarkerLaws
  import opened PlaceMarker
  import opened PlaceMarkerParts
  import opened PlaceMarkerLaws
  import opened NewStatementParts

  // ---------------------------------------------------------------- main results

  lemma {:induction false} TopLevelInStatement(t: string, j: nat, pos: nat)
    requires j < |Ranges(t)| && Ranges(t)[j].from <= pos <= Ranges(t)[j].to <= |t| && TopLevel(t, pos)
    ensures TopLevel(Piece(t, Ranges(t)[j]), pos - Ranges(t)[j].from)
  {
    hide Ranges, Element, Cuts, Reaches;
    RangeFramed(t, j);
    RangeStartsAtTopLevel(t, j);
    var r := Ranges(t)[j];
    var u, i := Piece(t, r), pos - r.from;
    assert u == t[r.from..r.to];
    hide Framed, Piece;
    ReachesLinear(t, 0, r.from, pos);
    ReachesFramed(t, r.from, u, 0, i);
  }

  /** The setting in which the edit opens a new statement below the text above the trigger. */
  predicate Below(doc: string, from: nat, to: nat, name: string, j: nat) {
    && AtStatement(doc, from, to, j) && from <= |Without(doc, from, to)| && TopLevel(Without(doc, from, to), from)
    && OpensBelow(doc, from, to, name, j) && '\n' !in name
  }

  /** The separator that the edit writes stands at top level. */
  predicate SeparatorLands(doc: string, from: nat, to: nat, j: nat)
    requires from <= to <= |doc| && j < |Ranges(Without(doc, from, to))|
  {
    var stmt, at := StatementOf(doc, from, to, j), Position(doc, from, to, j);
    Lands(Above(stmt, at), WrittenSeparator(stmt, at))
  }

  /** The trigger, or the end of its statement, is at top level of the statement. */
  lemma {:induction false} PositionAtTopLevel(doc: string, from: nat, to: nat, j: nat)
    requires AtStatement(doc, from, to, j) && from <= |Without(doc, from, to)| && TopLevel(Without(doc, from, to), from)
    ensures from <= to <= |doc| && j < |Ranges(Without(doc, from, to))|
    ensures
      var stmt, at := StatementOf(doc, from, to, j), Position(doc, from, to, j);
      at <= |stmt| && TopLevel(stmt, at) && Cuts(stmt, 0, |stmt|) == []
  {
    StatementBounds(doc, from, to, j);
    var t := Without(doc, from, to);
    StatementIsWhole(t, j);
    if from <= Ranges(t)[j].to {
      TopLevelInStatement(t, j, from);
    }
    hide Ranges, Cuts, Reaches, Choose;
  }

  /** Everything that is known about the statement above, gathered. */
  lemma {:induction false} BelowFacts(doc: string, from: nat, to: nat, name: string, j: nat)
    requires Below(doc, from, to, name, j)
    ensures from <= to <= |doc| && j < |Ranges(Without(doc, from, to))| && OpensBelow(doc, from, to, name, j)
    ensures AtStatement(doc, from, to, j) && '\n' !in name
    ensures
      var t, stmt, at := Without(doc, from, to), StatementOf(doc, from, to, j), Position(doc, from, to, j);
      var r, x := Ranges(t)[j], Above(stmt, at);
      && at <= |stmt| && stmt == Piece(t, r)
      && |x| <= at && stmt == x + stmt[|x|..] && AllSpace(stmt[|x|..]) && AllSpace(DropBlanks(Drop(stmt, at)))
      && x != "" && !IsSpace(x[|x| - 1]) && x == TrimEnd(stmt)
      && Cuts(x, 0, |x|) == []
      && (Stops(x, 0) == |x| || (Stops(x, 0) < |x| && KindAt(x, Stops(x, 0)) == LineComment))
  {
    hide Ranges, Cuts, Reaches, OpensNew, Above, Stops, KindAt, Choose, TrimEnd, AllSpace, DropBlanks;
    PositionAtTopLevel(doc, from, to, j);
    var stmt, at := StatementOf(doc, from, to, j), Position(doc, from, to, j);
    AboveLaws(stmt, at, Some(name), true);
    AboveReads(stmt, at, Above(stmt, at));
  }

  /** The document before the change, around the statement. */
  lemma {:induction false} BeforeParts(t: string, j: nat)
    requires j < |Ranges(t)|
    ensures
      var r := Ranges(t)[j];
      var p, more, b := Take(t, r.from), r.to < |t|, Behind(t, r);
      && |Cuts(p, 0, |p|)| == j && |p| == r.from && Opens(p)
      && |Ranges(t)| == j + 1 + (if more then |Ranges(b)| else 0)
      && (forall i :: 0 <= i < j ==> Piece(t, Ranges(t)[i]) == Piece(p, Before(Cuts(p, 0, |p|), 0)[i]))
      && (forall i :: j < i < |Ranges(t)| ==> Piece(t, Ranges(t)[i]) == Piece(b, Ranges(b)[i - j - 1]))
  {
    hide *;
    StatementParts(t, j);
    var r := Ranges(t)[j];
    ReplacedParts(t, r, Piece(t, r));
    DocPieces(Take(t, r.from), Piece(t, r), r.to < |t|, Behind(t, r));
  }

  /** When the separator lands: the changed document as the text above, the new statement, and what follows. */
  lemma {:induction false} LandedDocument(doc: string, from: nat, to: nat, name: string, j: nat)
    requires Below(doc, from, to, name, j) && SeparatorLands(doc, from, to, j)
    ensures from <= to <= |doc| && j < |Ranges(Without(doc, from, to))|
    ensures
      var t, e, stmt, at := Without(doc, from, to), PlaceIn(doc, from, to, Some(name), true), StatementOf(doc, from, to, j), Position(doc, from, to, j);
      var after, b, r := Apply(doc, e), NewBehind(doc, from, to, j), Ranges(t)[j];
      var p := Take(t, r.from);
      && |Cuts(p, 0, |p|)| == j && |Ranges(after)| == j + 2 + (if r.to < |t| then |Ranges(b)| else 0)
      && (forall i :: 0 <= i < j ==> Piece(after, Ranges(after)[i]) == Piece(p, Before(Cuts(p, 0, |p|), 0)[i]))
      && Piece(after, Ranges(after)[j]) == Closing(Above(stmt, at), WrittenSeparator(stmt, at))
      && Piece(after, Ranges(after)[j + 1]) == NewText(name, DropBlanks(Drop(stmt, at)))
      && (forall i :: j + 1 < i < |Ranges(after)| ==> Piece(after, Ranges(after)[i]) == Piece(b, Ranges(b)[i - j - 2]))
      && Choose(Ranges(after), e.anchor) == j + 1
      && PickAt(after, e.anchor) == Piece(after, Ranges(after)[j + 1])
  {
    hide *;
    BelowFacts(doc, from, to, name, j);
    LandsIs(doc, from, to, j);
    var t, stmt, at := Without(doc, from, to), StatementOf(doc, from, to, j), Position(doc, from, to, j);
    var r, x, sep, tail := Ranges(t)[j], Above(stmt, at), WrittenSeparator(stmt, at), DropBlanks(Drop(stmt, at));
    var p, more, b := Take(t, r.from), r.to < |t|, NewBehind(doc, from, to, j);
    PlacedDocument(doc, from, to, Some(name), true, j);
    PlaceOpensNew(doc, from, to, name, j);
    BeforeParts(t, j);
    ClosingIsWhole(x, sep);
    NewTextLaws(name, tail, more, []);
    LandsSeparator(x, sep);
    NewInsertSplits(p, stmt, at, name, tail, more, b);
    TwoStatements(p, Closing(x, sep), NewText(name, tail), more, b);
    SecondPicked(p, Closing(x, sep), NewText(name, tail), more, b, r.from + |NewInsert(stmt, at, name)|);
  }

  /**
   * When the separator lands: the statements of the changed document. The text above is closed, the marker is the next
   * statement, which the cursor picks, and behind all others come the statements of a trigger text that stays.
   */
  lemma {:induction false} LandedStatements(doc: string, from: nat, to: nat, name: string, j: nat)
    requires Below(doc, from, to, name, j) && SeparatorLands(doc, from, to, j)
    ensures
      var e, left := PlaceIn(doc, from, to, Some(name), true), Leftover(doc, from, to, j);
      var before, after, stmt, at := Without(doc, from, to), Apply(doc, e), StatementOf(doc, from, to, j), Position(doc, from, to, j);
      && |Ranges(after)| == |Ranges(before)| + 1 + |Ranges(left)|
      && (forall i :: 0 <= i < j ==> Piece(after, Ranges(after)[i]) == Piece(before, Ranges(before)[i]))
      && (forall i :: j < i < |Ranges(before)| ==> Piece(after, Ranges(after)[i + 1]) == Piece(before, Ranges(before)[i]))
      && (forall k :: 0 <= k < |Ranges(left)| ==>
            Piece(after, Ranges(after)[|Ranges(before)| + 1 + k]) == Piece(left, Ranges(left)[k]))
      && Piece(after, Ranges(after)[j]) == Closing(Above(stmt, at), WrittenSeparator(stmt, at))
      && Choose(Ranges(after), e.anchor) == j + 1
      && PickAt(after, e.anchor) == Piece(after, Ranges(after)[j + 1]) == NewText(name, DropBlanks(Drop(stmt, at)))
  {
    hide *;
    LandedDocument(doc, from, to, name, j);
    BelowFacts(doc, from, to, name, j);
    LeftParts(doc, from, to, j);
    var t, left, b := Without(doc, from, to), Leftover(doc, from, to, j), NewBehind(doc, from, to, j);
    BeforeParts(t, j);
    var after := Apply(doc, PlaceIn(doc, from, to, Some(name), true));
    forall i | j < i < |Ranges(t)| ensures Piece(after, Ranges(after)[i + 1]) == Piece(t, Ranges(t)[i]) {
      assert Piece(t, Ranges(t)[i]) == Piece(b, Ranges(b)[i - j - 1]);
      assert Piece(after, Ranges(after)[i + 1]) == Piece(b, Ranges(b)[i + 1 - j - 2]);
    }
    forall k | 0 <= k < |Ranges(left)|
      ensures Piece(after, Ranges(after)[|Ranges(t)| + 1 + k]) == Piece(left, Ranges(left)[k])
    {
      assert Piece(after, Ranges(after)[j + 2 + k]) == Piece(b, Ranges(b)[j + 2 + k - j - 2]);
    }
  }

  /**
   * The last line above does not start like a marker, or it is closed by a line break as it was before: then it reads
   * the same once the new statement follows.
   */
  predicate LastLineKeeps(stmt: string, above: string, separator: string) {
    || Attempt(LastLineOf(above)).None?
    || (separator == "\n;" && |above| < |stmt| && stmt[|above|] == '\n')
  }

  /**
   * When the separator lands, the text above keeps its statement, its connection and its text up to trailing space;
   * the new statement is the one that runs at the new cursor and goes to the chosen connection; nothing else changes.
   */
  lemma {:induction false} NewStatementOpened(doc: string, from: nat, to: nat, name: string, j: nat, conns: seq<Conn>)
    requires Below(doc, from, to, name, j) && SeparatorLands(doc, from, to, j)
    requires Settled(StatementOf(doc, from, to, j))
    requires
      var stmt, at := StatementOf(doc, from, to, j), Position(doc, from, to, j);
      LastLineKeeps(stmt, Above(stmt, at), WrittenSeparator(stmt, at))
    ensures
      var e := PlaceIn(doc, from, to, Some(name), true);
      var before, after, stmt := Without(doc, from, to), Apply(doc, e), StatementOf(doc, from, to, j);
      && |Ranges(after)| == |Ranges(before)| + 1 + |Ranges(Leftover(doc, from, to, j))|
      && (forall i :: 0 <= i < j ==> Piece(after, Ranges(after)[i]) == Piece(before, Ranges(before)[i]))
      && (forall i :: j < i < |Ranges(before)| ==> Piece(after, Ranges(after)[i + 1]) == Piece(before, Ranges(before)[i]))
      && TrimEnd(Piece(after, Ranges(after)[j])) == TrimEnd(stmt)
      && Resolve(Piece(after, Ranges(after)[j]), conns) == Resolve(stmt, conns)
      && Choose(Ranges(after), e.anchor) == j + 1
      && PickAt(after, e.anchor) == Piece(after, Ranges(after)[j + 1])
      && Resolve(PickAt(after, e.anchor), conns) == ResolveName(name, conns)
      && Trim(Strip(PickAt(after, e.anchor))) == ""
  {
    hide *;
    BelowFacts(doc, from, to, name, j);
    LandsIs(doc, from, to, j);
    LandedStatements(doc, from, to, name, j);
    var stmt, at := StatementOf(doc, from, to, j), Position(doc, from, to, j);
    ClosingKeeps(stmt, Above(stmt, at), WrittenSeparator(stmt, at), conns);
    NewTextLaws(name, DropBlanks(Drop(stmt, at)), true, conns);
  }

  /** Space behind the newline that ends a comment. */
  lemma {:induction false} BehindComment(w: string, n: nat, k: nat)
    requires n < k <= |w| && TopLevel(w, n + 1) && Cuts(w, 0, n + 1) == []
    requires forall i :: n <= i < |w| ==> IsSpace(w[i])
    ensures Whole(w, true) && TopLevel(w, k)
  {
    hide Element, Reaches, Cuts;
    SpaceReads(w, n + 1, |w|);
    SpaceReads(w, n + 1, k);
    ReachesTrans(w, 0, n + 1, |w|);
    ReachesTrans(w, 0, n + 1, k);
    CutsAppend(w, 0, n + 1, |w|);
  }

  lemma {:induction false} AfterSeparator(x: string, separator: string, z: string)
    ensures var w, n := x + separator + z, |x + separator|;
      && x <= w && (forall k :: 0 <= k < |z| ==> w[n + k] == z[k])
      && (|separator| == 1 ==> w[|x|] == separator[0])
  {
  }

  /** A separator that does not land leaves one statement, which ends at top level. */
  lemma {:induction false} UnlandedReads(x: string, separator: string, z: string)
    requires !Lands(x, separator) && (separator == "" || separator == ";" || separator == "\n;")
    requires Cuts(x, 0, |x|) == [] && AllSpace(z) && "\n\n" <= z
    requires Stops(x, 0) == |x| || (Stops(x, 0) < |x| && KindAt(x, Stops(x, 0)) == LineComment)
    ensures Whole(x + separator + z, true) && TopLevel(x + separator + z, |x + separator| + 2)
  {
    var w, n := x + separator + z, |x + separator|;
    hide Element, Reaches, Cuts, Stops, KindAt;
    StopsReached(x, 0);
    if Stops(x, 0) == |x| {
      assert separator == "" && w == x + z;
      SpaceBehind(x, z, n + 2);
    } else {
      AfterSeparator(x, separator, z);
      assert w[n] == z[0];
      forall k | n <= k < |w| ensures IsSpace(w[k]) {
        assert w[n + (k - n)] == z[k - n];
      }
      CommentEndsAtNewline(x, w, n);
      BehindComment(w, n, n + 2);
    }
  }

  /** The text above, a separator that does not land, and the marker: still one statement. */
  lemma {:induction false} UnlandedIsWhole(x: string, separator: string, name: string, tail: string, more: bool)
    requires !Lands(x, separator) && (separator == "" || separator == ";" || separator == "\n;")
    requires Cuts(x, 0, |x|) == [] && AllSpace(tail) && '\n' !in name
    requires Stops(x, 0) == |x| || (Stops(x, 0) < |x| && KindAt(x, Stops(x, 0)) == LineComment)
    ensures Whole(x + separator + "\n\n" + WrittenLine(name) + tail, more)
  {
    var g := x + separator + "\n\n";
    var z := "\n\n" + tail;
    assert g + tail == x + separator + z;
    hide Reaches, Cuts, Stops, KindAt, WrittenLine, Lands;
    UnlandedReads(x, separator, z);
    InsertLine(g, name, tail, more);
  }

  lemma {:induction false} SeparatorIs(stmt: string, at: nat)
    ensures WrittenSeparator(stmt, at) == "" || WrittenSeparator(stmt, at) == ";" || WrittenSeparator(stmt, at) == "\n;"
  {
    hide Trim, Strip, Take, EndsInLineComment;
  }

  lemma {:induction false} NewInsertIs(stmt: string, at: nat, name: string, tail: string)
    ensures NewInsert(stmt, at, name) + tail
            == Above(stmt, at) + WrittenSeparator(stmt, at) + "\n\n" + WrittenLine(name) + tail
  {
    hide Above, WrittenSeparator, MarkerLine;
  }

  /** A separator that does not land: the statement above takes the marker in, and the cursor picks it. */
  lemma {:induction false} UnlandedStatements(doc: string, from: nat, to: nat, name: string, j: nat)
    requires Below(doc, from, to, name, j) && !SeparatorLands(doc, from, to, j)
    ensures
      var e, left := PlaceIn(doc, from, to, Some(name), true), Leftover(doc, from, to, j);
      var before, after, stmt, at := Without(doc, from, to), Apply(doc, e), StatementOf(doc, from, to, j), Position(doc, from, to, j);
      && |Ranges(after)| == |Ranges(before)| + |Ranges(left)|
      && (forall i :: 0 <= i < |Ranges(before)| && i != j ==> Piece(after, Ranges(after)[i]) == Piece(before, Ranges(before)[i]))
      && (forall k :: 0 <= k < |Ranges(left)| ==>
            Piece(after, Ranges(after)[|Ranges(before)| + k]) == Piece(left, Ranges(left)[k]))
      && Choose(Ranges(after), e.anchor) == j
      && PickAt(after, e.anchor) == Piece(after, Ranges(after)[j]) == NewInsert(stmt, at, name) + DropBlanks(Drop(stmt, at))
  {
    hide *;
    BelowFacts(doc, from, to, name, j);
    LandsIs(doc, from, to, j);
    var t, stmt, at := Without(doc, from, to), StatementOf(doc, from, to, j), Position(doc, from, to, j);
    var r, x, sep, tail := Ranges(t)[j], Above(stmt, at), WrittenSeparator(stmt, at), DropBlanks(Drop(stmt, at));
    var p, more, b, left := Take(t, r.from), r.to < |t|, NewBehind(doc, from, to, j), Leftover(doc, from, to, j);
    var v := NewInsert(stmt, at, name) + tail;
    PlacedDocument(doc, from, to, Some(name), true, j);
    PlaceOpensNew(doc, from, to, name, j);
    StatementParts(t, j);
    SeparatorIs(stmt, at);
    NewInsertIs(stmt, at, name, tail);
    UnlandedIsWhole(x, sep, name, tail, more);
    ReplacedParts(t, r, stmt);
    DocPieces(p, stmt, more, Behind(t, r));
    DocPieces(p, v, more, b);
    LeftParts(doc, from, to, j);
    var after := Doc(p, v, more, b);
    RangesTile(after);
    ChooseInside(Ranges(after), 0, |after|, r.from + |NewInsert(stmt, at, name)|, j);
    PickChosen(after, r.from + |NewInsert(stmt, at, name)|, j);
    forall k | 0 <= k < |Ranges(left)|
      ensures Piece(after, Ranges(after)[|Ranges(t)| + k]) == Piece(left, Ranges(left)[k])
    {
      assert Piece(after, Ranges(after)[j + 1 + k]) == Piece(b, Ranges(b)[j + 1 + k - j - 1]);
    }
  }

  /**
   * The change opens a new statement exactly when the separator lands; otherwise the marker ends up in the statement
   * above, which then is all the text that the change writes.
   */
  lemma {:induction false} OpensExactlyWhenSeparatorLands(doc: string, from: nat, to: nat, name: string, j: nat)
    requires Below(doc, from, to, name, j)
    ensures
      var e, left := PlaceIn(doc, from, to, Some(name), true), Leftover(doc, from, to, j);
      var before, after := Without(doc, from, to), Apply(doc, e);
      && (|Ranges(after)| == |Ranges(before)| + 1 + |Ranges(left)| <==> SeparatorLands(doc, from, to, j))
      && (SeparatorLands(doc, from, to, j) ==>
            && Choose(Ranges(after), e.anchor) == j + 1
            && forall conns :: Resolve(PickAt(after, e.anchor), conns) == ResolveName(name, conns))
      && (!SeparatorLands(doc, from, to, j) ==>
            && |Ranges(after)| == |Ranges(before)| + |Ranges(left)|
            && (forall i :: 0 <= i < |Ranges(before)| && i != j ==> Piece(after, Ranges(after)[i]) == Piece(before, Ranges(before)[i]))
            && Choose(Ranges(after), e.anchor) == j
            && PickAt(after, e.anchor) == Piece(after, Ranges(after)[j]) == e.insert)
  {
    hide *;
    BelowFacts(doc, from, to, name, j);
    if SeparatorLands(doc, from, to, j) {
      LandedStatements(doc, from, to, name, j);
      var stmt, at := StatementOf(doc, from, to, j), Position(doc, from, to, j);
      var e := PlaceIn(doc, from, to, Some(name), true);
      forall conns ensures Resolve(PickAt(Apply(doc, e), e.anchor), conns) == ResolveName(name, conns) {
        NewTextLaws(name, DropBlanks(Drop(stmt, at)), true, conns);
      }
    } else {
      UnlandedStatements(doc, from, to, name, j);
      PlaceOpensNew(doc, from, to, name, j);
    }
  }

  lemma {:induction false} ReplacedParts(t: string, r: Range, v: string)
    ensures Replaced(t, r, v) == Doc(Take(t, r.from), v, r.to < |t|, Behind(t, r))
  {
  }

  lemma {:induction false} LandsIs(doc: string, from: nat, to: nat, j: nat)
    requires from <= to <= |doc| && j < |Ranges(Without(doc, from, to))|
    ensures
      SeparatorLands(doc, from, to, j)
      <==> Lands(Above(StatementOf(doc, from, to, j), Position(doc, from, to, j)),
                 WrittenSeparator(StatementOf(doc, from, to, j), Position(doc, from, to, j)))
  {
  }

  lemma {:induction false} LandsSeparator(x: string, separator: string)
    requires Lands(x, separator)
    ensures separator == ";" || separator == "\n;"
  {
  }

  /** The lines up to and including the last one stay what they are when only a line break remains behind them. */
  lemma {:induction false} MarkersBeforeBreak(x: string, w: string)
    requires AllSpace(w) && Settled(x + "\n" + w)
    ensures Markers(x + "\n", 0) == Markers(x + "\n" + w, 0)
  {
    var a := x + "\n";
    SpaceIsQuiet(w);
    assert WholeLines(a);
    hide Settled, SettledHere, Quiet, Exec, LineStart, Markers, WholeLines;
    forall k | 0 <= k < |a| && LineStart(a, k) ensures SettledHere(a[k..]) {
      MatchesInHead(a, w, k);
    }
    MarkersOfHead(a, w);
  }

  /** The statement above, closed, keeps its markers and its text. */
  lemma {:induction false} ClosingKeeps(stmt: string, x: string, separator: string, conns: seq<Conn>)
    requires |x| <= |stmt| && stmt == x + stmt[|x|..] && AllSpace(stmt[|x|..]) && x == TrimEnd(stmt)
    requires x != "" && !IsSpace(x[|x| - 1]) && LastLineKeeps(stmt, x, separator) && Settled(stmt)
    ensures Resolve(Closing(x, separator), conns) == Resolve(stmt, conns)
    ensures TrimEnd(Closing(x, separator)) == TrimEnd(stmt)
  {
    var w, v := stmt[|x|..], if separator == "\n;" then "\n" else "";
    assert x + "" == x;
    hide Settled, Attempt, LastLineOf, Markers, TrimEnd;
    if Attempt(LastLineOf(x)).None? {
      MarkersBeforeSpace(x, w, v);
    } else {
      var rest := stmt[|x| + 1..];
      assert stmt == x + "\n" + rest;
      assert forall k :: 0 <= k < |rest| ==> rest[k] == w[k + 1];
      MarkersBeforeBreak(x, rest);
    }
    TrimEndUnique(x, v);
  }

  /** The document with the new text, seen as two statements. */
  lemma {:induction false} NewInsertSplits(p: string, stmt: string, at: nat, name: string, tail: string, more: bool, b: string)
    requires WrittenSeparator(stmt, at) == ";" || WrittenSeparator(stmt, at) == "\n;"
    ensures
      var u := Closing(Above(stmt, at), WrittenSeparator(stmt, at));
      && Doc(p, NewInsert(stmt, at, name) + tail, more, b) == Doc(p, u, true, Onward(NewText(name, tail), more, b))
      && |u| + 1 <= |NewInsert(stmt, at, name)| <= |u| + 1 + |NewText(name, tail)|
      && NewText(name, tail) != ""
  {
    hide Above, WrittenSeparator, Doc, Onward, MarkerLine;
    SplitDocument(p, Above(stmt, at), WrittenSeparator(stmt, at), name, tail, more, b);
  }

  /**
   * Which text runs after the change, in every case: the edited statement, the trigger text when that stays behind the
   * last semicolon, the new statement, or, when the separator does not land, all the text that the change writes.
   */
  lemma {:induction false} WhatRuns(doc: string, from: nat, to: nat, name: Option<string>, allowSplit: bool, j: nat)
    requires AtStatement(doc, from, to, j) && from < to && SingleLine(name)
    requires MarkersPlain(StatementOf(doc, from, to, j)) && Kept(doc, from, to, j, name)
    requires
      !StaysInStatement(doc, from, to, j, name, allowSplit) ==>
        from <= |Without(doc, from, to)| && TopLevel(Without(doc, from, to), from)
    ensures
      var e, trigger := PlaceIn(doc, from, to, name, allowSplit), doc[from..to];
      var stmt, at, runs := StatementOf(doc, from, to, j), Position(doc, from, to, j), PickAt(Apply(doc, e), e.anchor);
      && Ranges(trigger) != []
      && if StaysInStatement(doc, from, to, j, name, allowSplit) then
           (from <= Ranges(Without(doc, from, to))[j].to ==> runs == Upsert(stmt, name).text)
           && (Ranges(Without(doc, from, to))[j].to < from ==> runs == Piece(trigger, Ranges(trigger)[0]))
         else
           && name.Some?
           && (SeparatorLands(doc, from, to, j) ==> runs == NewText(name.value, DropBlanks(Drop(stmt, at))))
           && (!SeparatorLands(doc, from, to, j) ==> runs == e.insert)
  {
    RangesTile(doc[from..to]);
    assert from <= Ranges(Without(doc, from, to))[j].to ==> InStatement(doc, from, to, j);
    assert Ranges(Without(doc, from, to))[j].to < from ==> BehindLast(doc, from, to, j);
    hide *;
    if StaysInStatement(doc, from, to, j, name, allowSplit) {
      if InStatement(doc, from, to, j) {
        MarkerReachesItsStatement(doc, from, to, name, allowSplit, [], j);
      } else {
        TriggerTextRuns(doc, from, to, name, allowSplit, j);
      }
    } else {
      OpensOnlyByName(doc, from, to, name, allowSplit, j);
      if SeparatorLands(doc, from, to, j) {
        LandedStatements(doc, from, to, name.value, j);
      } else {
        OpensExactlyWhenSeparatorLands(doc, from, to, name.value, j);
      }
    }
  }

  lemma {:induction false} OpensOnlyByName(doc: string, from: nat, to: nat, name: Option<string>, allowSplit: bool, j: nat)
    requires AtStatement(doc, from, to, j) && SingleLine(name) && !StaysInStatement(doc, from, to, j, name, allowSplit)
    requires from <= |Without(doc, from, to)| && TopLevel(Without(doc, from, to), from)
    ensures name.Some? && allowSplit && Below(doc, from, to, name.value, j)
  {
    hide Ranges, Choose, Trim, Strip, OnOwnLine, TopLevel;
  }
}
