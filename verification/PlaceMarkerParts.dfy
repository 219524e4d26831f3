/** Marker lines as the splitter reads them, and a document in which one statement is replaced by another. */
module PlaceMarkerParts {
  import opened Text
  import opened Splitter
  import opened SplitterLaws
  import opened SplitterEdits
  import opened ConnMarker
  import opened ConnMarkerParts
  import opened ConnMarkerLaws
  import opened PlaceMarker

  // ---------------------------------------------------------------- marker lines for the splitter

  /** Reading a suffix that starts at top level. */
  lemma {:induction false} WholeSuffix(s: string, d: nat, r: string, closed: bool)
    requires d <= |s| && s[d..] == r && TopLevel(s, d)
    ensures Whole(s, closed) <==> Cuts(s, 0, d) == [] && Whole(r, closed)
  {
    hide Element, Reaches, Cuts, Shift;
    assert Framed(s, d, r);
    CutsAppend(s, 0, d, |s|);
    CutsFramed(s, d, r, 0, |r|);
    ShiftLength(Cuts(r, 0, |r|), d);
    ReachesFramed(s, d, r, 0, |r|);
    if TopLevel(s, |s|) {
      ReachesLinear(s, 0, d, |s|);
    }
    if TopLevel(r, |r|) {
      ReachesTrans(s, 0, d, |s|);
    }
  }

  lemma {:induction false} ShiftLength(cuts: seq<nat>, d: nat)
    ensures |Shift(cuts, d)| == |cuts|
  {
  }

  lemma {:induction false} EscapeKeepsLine(name: string)
    requires '\n' !in name
    ensures '\n' !in EscapeName(name)
  {
    if name != "" {
      EscapeKeepsLine(name[1..]);
    }
  }

  /** From a `--` at top level the comment is read up to the next newline. */
  lemma {:induction false} CommentLineReads(u: string, i: nat, e: nat)
    requires i < e < |u| && KindAt(u, i) == LineComment && u[e] == '\n' && forall k :: i < k < e ==> u[k] != '\n'
    ensures Element(u, i) == Closed(e) && Reaches(u, i, e + 1) && Cuts(u, i, e + 1) == []
  {
    AtOne(u, '\n');
    assert At(u, "\n", e) && forall k :: i < k < e ==> !At(u, "\n", k);
    IndexOfIs(u, "\n", i + 1, e);
    assert Element(u, i) == Closed(e);
    hide Element;
    assert u[i] == '-';
    PlainStep(u, e);
    assert Reaches(u, i, e + 1) && Cuts(u, i, e + 1) == Cuts(u, e, e + 1);
  }

  lemma {:induction false} WrittenLineReads(name: string, r: string)
    requires '\n' !in name
    ensures
      var u, e := WrittenLine(name) + r, |WrittenLine(name)|;
      TopLevel(u, e) && Cuts(u, 0, e) == [] && u[e..] == r
  {
    var u, e := WrittenLine(name) + r, |WrittenLine(name)|;
    EscapeKeepsLine(name);
    WrittenShape(name, r);
    WrittenChars(name, r);
    assert KindAt(u, 0) == LineComment;
    hide *;
    CommentLineReads(u, 0, e - 1);
    TopLevelIs(u, e);
  }

  lemma {:induction false} WrittenChars(name: string, r: string)
    requires '\n' !in EscapeName(name)
    ensures
      var u, e := WrittenLine(name) + r, |WrittenLine(name)|;
      && 2 < e <= |u| && u[0] == '-' && u[1] == '-' && u[e - 1] == '\n' && u[e..] == r
      && forall k :: 0 < k < e - 1 ==> u[k] != '\n'
  {
    var x := EscapeName(name);
    hide EscapeName;
    var u, e := WrittenLine(name) + r, |WrittenLine(name)|;
    assert u == PREFIX + (x + ("\"\n" + r));
    forall k | 0 < k < e - 1 ensures u[k] != '\n' {
      if 10 <= k < 10 + |x| {
        assert u[k] == x[k - 10];
      } else if k < 10 {
        assert u[k] == PREFIX[k];
      }
    }
  }

  /** A marker line put in at the start of a line that is at top level leaves a statement whole. */
  lemma {:induction false} InsertLine(g: string, name: string, r: string, closed: bool)
    requires WholeLines(g) && TopLevel(g + r, |g|) && Whole(g + r, closed) && '\n' !in name
    ensures Whole(Marked(g, name, r), closed)
  {
    hide Whole, TopLevel, Reaches, Cuts, WrittenLine, Element;
    var z := WrittenLine(name) + r;
    assert (g + r)[|g|..] == r;
    assert Marked(g, name, r) == g + z && (g + z)[|g|..] == z;
    LinesReadAlike(g, r, z);
    WholeSuffix(g + r, |g|, r, closed);
    WrittenLineReads(name, r);
    WholeSuffix(z, |WrittenLine(name)|, r, closed);
    WholeSuffix(g + z, |g|, z, closed);
  }

  /** The marker covers one line. */
  predicate OneLine(s: string, m: Marker) {
    m.from < m.to <= |s| && forall k :: m.from <= k < m.to - 1 ==> s[k] != '\n'
  }

  /** The markers that the statement text shows are line comments for the splitter, too. */
  predicate MarkersPlain(s: string) {
    forall k :: 0 <= k < |Markers(s, 0)| ==> OneLine(s, Markers(s, 0)[k]) && TopLevel(s, Markers(s, 0)[k].from)
  }

  lemma {:induction false} BlanksSkipped(u: string, k: nat)
    requires k <= |u|
    ensures forall j :: k <= j < SkipBlanks(u, k) ==> IsBlank(u[j])
    decreases |u| - k
  {
    if k < |u| && IsBlank(u[k]) {
      BlanksSkipped(u, k + 1);
    }
  }

  lemma {:induction false} MatchHasComment(u: string)
    requires MatchHere(u).Some?
    ensures
      var p := SkipBlanks(u, 0);
      && p + 2 < MatchHere(u).value.len && u[p] == '-' && u[p + 1] == '-'
      && forall j :: 0 <= j < p ==> IsBlank(u[j])
  {
    BlanksSkipped(u, 0);
    var p := SkipBlanks(u, 0);
    hide SkipBlanks, LineEnd, QuoteClose, Unquote, Trim;
    assert p + 7 <= Attempt(u).value;
    AttemptBeforeEnd(u);
  }

  lemma {:induction false} AttemptBeforeEnd(u: string)
    requires MatchHere(u).Some?
    ensures Attempt(u).value <= MatchHere(u).value.len
  {
    hide Attempt, LineEnd, QuoteClose, Unquote, Trim;
  }

  /** A one-line marker at top level is read up to its end. */
  lemma {:induction false} MarkerReads(u: string)
    requires MatchHere(u).Some? && OneLine(u, Marker("", 0, MatchHere(u).value.len))
    ensures
      var e := MatchHere(u).value.len;
      if u[e - 1] == '\n' then TopLevel(u, e) && Cuts(u, 0, e) == [] else e == |u|
  {
    var e := MatchHere(u).value.len;
    MatchHasComment(u);
    MatchEndsLine(u);
    var p := SkipBlanks(u, 0);
    hide MatchHere, SkipBlanks, Reaches, Cuts, Element;
    if u[e - 1] == '\n' {
      SpaceReads(u, 0, p);
      CommentLineReads(u, p, e - 1);
      ReachesTrans(u, 0, p, e);
      CutsAppend(u, 0, p, e);
    }
  }

  /** Without its markers, what stands from top-level line start `x` on is whole if it was so before. */
  lemma {:induction false} GapsWhole(s: string, x: nat, closed: bool)
    requires x <= |s| && (x == |s| || LineStart(s, x)) && TopLevel(s, x) && Whole(s[x..], closed)
    requires forall k :: 0 <= k < |Markers(s, x)| ==> OneLine(s, Markers(s, x)[k]) && TopLevel(s, Markers(s, x)[k].from)
    ensures InOrder(s, Markers(s, x), x) && Whole(Gaps(s, Markers(s, x), x), closed)
    decreases |s| - x
  {
    hide TopLevel, Whole, MatchAt, Exec;
    MarkersInOrder(s, x);
    if Exec(s, x).Some? {
      var m := Exec(s, x).value;
      var marks := Markers(s, x);
      assert marks[0] == m && marks[1..] == Markers(s, m.to);
      assert OneLine(s, marks[0]) && TopLevel(s, marks[0].from);
      ExecFirst(s, x);
      MarkerEndsLine(s, m.from);
      MatchStartsLine(s, m.from);
      MarkerBetween(s, x, m, closed);
      if TopLevel(s, m.to) {
        forall k | 0 <= k < |Markers(s, m.to)|
          ensures OneLine(s, Markers(s, m.to)[k]) && TopLevel(s, Markers(s, m.to)[k].from)
        {
          assert Markers(s, m.to)[k] == marks[k + 1];
        }
        GapsWhole(s, m.to, closed);
        GapThenRest(s, x, m, Gaps(s, Markers(s, m.to), m.to), closed);
      } else {
        NoMatchAtEnd(s);
        assert Gaps(s, Markers(s, m.to), m.to) == "";
        EmptyIsWhole(closed);
        GapThenRest(s, x, m, "", closed);
      }
    }
  }

  lemma {:induction false} EmptyIsWhole(closed: bool)
    ensures Whole("", closed)
  {
  }

  /** The text before a marker is whole lines read without a cut; behind the marker the reading goes on at top level. */
  lemma {:induction false} MarkerBetween(s: string, x: nat, m: Marker, closed: bool)
    requires x <= m.from <= |s| && TopLevel(s, x) && Whole(s[x..], closed)
    requires MatchAt(s, m.from) == Some(m) && OneLine(s, m) && TopLevel(s, m.from)
    ensures TopLevel(s[x..], m.from - x) && Cuts(s[x..], 0, m.from - x) == []
    ensures m.to == |s| || TopLevel(s, m.to)
    ensures TopLevel(s, m.to) ==> Whole(s[m.to..], closed)
  {
    hide Reaches, Cuts, Element, MatchHere, Whole;
    var v, w, d := s[x..], s[m.from..], m.from - x;
    ReachesLinear(s, 0, x, m.from);
    assert Framed(s, x, v);
    ReachesFramed(s, x, v, 0, d);
    assert v[d..] == w;
    WholeSuffix(v, d, w, closed);
    var e := m.to - m.from;
    assert w[e..] == s[m.to..];
    MarkerReads(w);
    assert Framed(s, m.from, w);
    if w[e - 1] == '\n' {
      ReachesFramed(s, m.from, w, 0, e);
      ReachesTrans(s, 0, m.from, m.to);
      WholeSuffix(w, e, s[m.to..], closed);
    } else if TopLevel(s, m.to) {
      assert s[m.to..] == "";
      EmptyIsWhole(closed);
    }
  }

  lemma {:induction false} GapThenRest(s: string, x: nat, m: Marker, rest: string, closed: bool)
    requires x <= m.from < |s| && (x == |s| || LineStart(s, x)) && LineStart(s, m.from)
    requires TopLevel(s[x..], m.from - x) && Cuts(s[x..], 0, m.from - x) == []
    requires Whole(rest, closed)
    ensures Whole(s[x..m.from] + rest, closed)
  {
    hide Reaches, Cuts, Element, Whole;
    var g, z := s[x..m.from], s[m.from..];
    assert g + z == s[x..];
    assert g != "" ==> g[|g| - 1] == s[m.from - 1];
    LinesReadAlike(g, z, rest);
    assert (g + rest)[|g|..] == rest;
    WholeSuffix(g + rest, |g|, rest, closed);
  }

  /** Removing the markers leaves a statement whole. */
  lemma {:induction false} StripWhole(s: string, closed: bool)
    requires Whole(s, closed) && MarkersPlain(s)
    ensures Whole(Strip(s), closed)
  {
    hide Cuts, Exec;
    assert s[0..] == s;
    GapsWhole(s, 0, closed);
  }

  lemma {:induction false} HeadOfMarkerFree(s: string)
    requires Markers(s, 0) == []
    ensures UpsertHead(s) + UpsertRest(s) == s && AllSpace(UpsertHead(s))
  {
    hide Exec;
    assert forall k :: 0 <= k < InsertAt(s) ==> s[k] == s[..Lead(s)][k];
  }

  lemma {:induction false} HeadOfMarked(s: string)
    requires Markers(s, 0) != [] && MarkersPlain(s)
    ensures
      var m := Markers(s, 0)[0];
      && m.from <= |s| && TopLevel(s, m.from) && UpsertHead(s) == s[..m.from]
  {
    hide Exec, Reaches;
    MarkersInOrder(s, 0);
    assert OneLine(s, Markers(s, 0)[0]);
  }

  /** The place where a marker is written is at top level of the stripped statement. */
  lemma {:induction false} HeadAtTopLevel(s: string)
    requires MarkersPlain(s)
    ensures TopLevel(UpsertHead(s) + UpsertRest(s), |UpsertHead(s)|) && WholeLines(UpsertHead(s))
  {
    var g, r := UpsertHead(s), UpsertRest(s);
    hide *;
    UpsertHeadLines(s);
    if Markers(s, 0) == [] {
      HeadOfMarkerFree(s);
      SpaceAtTopLevel(g, r);
    } else {
      HeadOfMarked(s);
      var from := Markers(s, 0)[0].from;
      assert g + s[from..] == s;
      LinesReadOn(g, s[from..], r);
    }
  }

  lemma {:induction false} SpaceAtTopLevel(g: string, r: string)
    requires AllSpace(g)
    ensures TopLevel(g + r, |g|)
  {
    hide Reaches;
    assert forall k :: 0 <= k < |g| ==> (g + r)[k] == g[k];
    SpaceReads(g + r, 0, |g|);
  }

  lemma {:induction false} LinesReadOn(g: string, x: string, y: string)
    requires WholeLines(g) && TopLevel(g + x, |g|)
    ensures TopLevel(g + y, |g|)
  {
    hide Reaches, Cuts;
    LinesReadAlike(g, x, y);
  }

  lemma {:induction false} TopLevelIs(s: string, k: nat)
    requires k <= |s| && Reaches(s, 0, k)
    ensures TopLevel(s, k)
  {
  }

  predicate SingleLine(name: Option<string>) {
    name.Some? ==> '\n' !in name.value
  }

  /** Choosing a connection leaves a statement whole. */
  lemma {:induction false} UpsertWhole(s: string, name: Option<string>, closed: bool)
    requires Whole(s, closed) && MarkersPlain(s) && SingleLine(name)
    ensures Whole(Upsert(s, name).text, closed)
  {
    hide Whole, MarkersPlain, Upsert, Strip, UpsertHead, UpsertRest, WholeLines, Calm, Surround;
    StripWhole(s, closed);
    if name.None? {
      UpsertNoneStrips(s);
    } else {
      UpsertForm(s, name);
      HeadAtTopLevel(s);
      InsertLine(UpsertHead(s), name.value, UpsertRest(s), closed);
    }
  }

  // ---------------------------------------------------------------- one statement of a document is replaced

  // The ranges of a layout, one by one.

  lemma {:induction false} LayoutSize(p: string, len: nat, more: bool, b: string)
    ensures |Layout(p, len, more, b)| == |Cuts(p, 0, |p|)| + 1 + (if more then |Ranges(b)| else 0)
    ensures Layout(p, len, more, b)[|Cuts(p, 0, |p|)|] == Range(|p|, |p| + len)
  {
    hide Cuts, Ranges;
  }

  lemma {:induction false} LayoutHead(p: string, len: nat, more: bool, b: string, i: nat)
    requires i < |Cuts(p, 0, |p|)|
    ensures i < |Layout(p, len, more, b)| && Layout(p, len, more, b)[i] == Before(Cuts(p, 0, |p|), 0)[i]
  {
    hide Cuts, Ranges;
  }

  lemma {:induction false} LayoutTail(p: string, len: nat, more: bool, b: string, i: nat)
    requires |Cuts(p, 0, |p|)| < i < |Layout(p, len, more, b)|
    ensures
      var k, d := i - |Cuts(p, 0, |p|)| - 1, |p| + len + 1;
      more && k < |Ranges(b)| && Layout(p, len, more, b)[i] == Range(Ranges(b)[k].from + d, Ranges(b)[k].to + d)
  {
    hide Cuts, Ranges;
  }

  lemma {:induction false} HeadPiece(p: string, u: string, more: bool, b: string, i: nat)
    requires i < |Cuts(p, 0, |p|)|
    ensures var r := Before(Cuts(p, 0, |p|), 0)[i]; Piece(Doc(p, u, more, b), r) == Piece(p, r)
  {
    CutsOrdered(p, 0, |p|);
    assert Increasing(Cuts(p, 0, |p|), 0, |p|);
    hide Cuts, Piece, Increasing, Onward;
    BeforeFits(Cuts(p, 0, |p|), 0, |p|, i);
    PieceOfHead(p, Onward(u, more, b), Before(Cuts(p, 0, |p|), 0)[i]);
  }

  lemma {:induction false} TailPiece(p: string, u: string, b: string, k: nat)
    requires k < |Ranges(b)|
    ensures
      var r, d := Ranges(b)[k], |p| + |u| + 1;
      Piece(Doc(p, u, true, b), Range(r.from + d, r.to + d)) == Piece(b, r)
  {
    RangesTile(b);
    hide Ranges, Piece;
    var c := p + u + ";";
    assert Doc(p, u, true, b) == c + b;
    PieceOfTail(c, b, Ranges(b)[k]);
  }

  lemma {:induction false} OwnPiece(p: string, u: string, more: bool, b: string)
    ensures Piece(Doc(p, u, more, b), Range(|p|, |p| + |u|)) == u
  {
    assert Doc(p, u, more, b)[|p|..|p| + |u|] == u;
  }

  /** The statements of `Doc(p, u, more, b)`: those of `p`, the statement itself, those of `b`. */
  lemma {:induction false} DocPieces(p: string, u: string, more: bool, b: string)
    requires Opens(p) && Whole(u, more) && (u != "" || more)
    ensures
      var t, j := Doc(p, u, more, b), |Cuts(p, 0, |p|)|;
      && |Ranges(t)| == j + 1 + (if more then |Ranges(b)| else 0)
      && (forall i :: 0 <= i < j ==> Piece(t, Ranges(t)[i]) == Piece(p, Before(Cuts(p, 0, |p|), 0)[i]))
      && Ranges(t)[j] == Range(|p|, |p| + |u|) && Piece(t, Ranges(t)[j]) == u
      && (forall i :: j < i < |Ranges(t)| ==> Piece(t, Ranges(t)[i]) == Piece(b, Ranges(b)[i - j - 1]))
  {
    hide *;
    var t, j := Doc(p, u, more, b), |Cuts(p, 0, |p|)|;
    DocRanges(p, u, more, b);
    LayoutSize(p, |u|, more, b);
    OwnPiece(p, u, more, b);
    forall i | 0 <= i < j ensures Piece(t, Ranges(t)[i]) == Piece(p, Before(Cuts(p, 0, |p|), 0)[i]) {
      LayoutHead(p, |u|, more, b, i);
      HeadPiece(p, u, more, b, i);
    }
    forall i | j < i < |Ranges(t)| ensures Piece(t, Ranges(t)[i]) == Piece(b, Ranges(b)[i - j - 1]) {
      LayoutTail(p, |u|, more, b, i);
      TailPiece(p, u, b, i - j - 1);
    }
  }

  /** A position inside a range picks that range. */
  lemma {:induction false} ChooseInside(rs: seq<Range>, start: nat, n: nat, pos: nat, j: nat)
    requires Tiles(rs, start, n) && j < |rs| && rs[j].from <= pos <= rs[j].to
    ensures Choose(rs, pos) == j
  {
    if j > 0 {
      TilesOrdered(rs, start, n, 0, j);
      var rest := rs[1..];
      LaterRanges(rs, start, n);
      ChooseInside(rest, rs[1].from, n, pos, j - 1);
    }
  }

  lemma {:induction false} LaterRanges(rs: seq<Range>, start: nat, n: nat)
    requires Tiles(rs, start, n) && |rs| > 1
    ensures Tiles(rs[1..], rs[1].from, n)
  {
    var rest := rs[1..];
    forall k | 0 <= k < |rest| ensures rs[1].from <= rest[k].from <= rest[k].to <= n {
      assert rest[k] == rs[k + 1];
      if k > 0 {
        TilesOrdered(rs, start, n, 1, k + 1);
      }
    }
    forall k | 0 <= k < |rest| - 1 ensures rest[k].to + 1 == rest[k + 1].from {
      assert rs[k + 1].to + 1 == rs[k + 1 + 1].from;
    }
  }

  /** The range chosen for a position not behind its end contains the position. */
  lemma {:induction false} ChooseBounds(rs: seq<Range>, start: nat, n: nat, pos: nat)
    requires Tiles(rs, start, n) && rs != [] && start <= pos
    ensures var j := Choose(rs, pos); pos <= rs[j].to ==> rs[j].from <= pos
    ensures var j := Choose(rs, pos); rs[j].to < pos ==> j == |rs| - 1
  {
    if pos > rs[0].to && |rs| > 1 {
      assert rs[0].to + 1 == rs[0 + 1].from;
      LaterRanges(rs, start, n);
      ChooseBounds(rs[1..], rs[1].from, n, pos);
    }
  }

  /** Replacing one statement: as many statements as before, the others with the same text, and a cursor inside picks it. */
  lemma {:induction false} StatementReplaced(p: string, u: string, v: string, more: bool, b: string, pos: nat)
    requires Opens(p) && Whole(u, more) && Whole(v, more) && (u != "" || more) && (v != "" || more)
    requires |p| <= pos <= |p| + |v|
    ensures
      var s, t, j := Doc(p, u, more, b), Doc(p, v, more, b), |Cuts(p, 0, |p|)|;
      && |Ranges(s)| == |Ranges(t)| && j < |Ranges(t)|
      && (forall i :: 0 <= i < |Ranges(t)| && i != j ==> Piece(t, Ranges(t)[i]) == Piece(s, Ranges(s)[i]))
      && Choose(Ranges(t), pos) == j && PickAt(t, pos) == v
  {
    hide Cuts, Opens, Whole, Doc, Piece, Ranges;
    var t := Doc(p, v, more, b);
    DocPieces(p, u, more, b);
    DocPieces(p, v, more, b);
    RangesTile(t);
    ChooseInside(Ranges(t), 0, |t|, pos, |Cuts(p, 0, |p|)|);
  }
}
