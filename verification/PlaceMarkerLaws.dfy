/** The statement that gets the marker is the one that runs. */
module PlaceMarkerLaws {
  import opened Text
  import opened Splitter
  import opened SplitterLaws
  import opened SplitterEdits
  import opened ConnMarker
  import opened ConnMarkerParts
  import opened ConnMarkerLaws
  import opened PlaceMarker
  import opened PlaceMarkerParts

  // ---------------------------------------------------------------- setting the connection of a statement

  /** Where a statement goes once its connection is chosen, and that its SQL text stays the same. */
  lemma {:induction false} ChosenTarget(s: string, name: Option<string>, conns: seq<Conn>)
    requires Calm(s, name)
    ensures
      var u := Upsert(s, name).text;
      && Resolve(u, conns) == (if name.None? then Inherit else ResolveName(name.value, conns))
      && Strip(u) == Strip(s)
  {
    hide Calm, Upsert, Markers, Gaps;
    if name.None? {
      UpsertNoneStrips(s);
      StripIsMarkerFree(s);
      MarkersInOrder(Strip(s), 0);
      StripOfMarkerFree(Strip(s));
    } else {
      UpsertLaws(s, name.value, "");
    }
  }

  lemma {:induction false} StripOfMarkerFree(s: string)
    requires Markers(s, 0) == []
    ensures Strip(s) == s
  {
    hide Exec;
    MarkersInOrder(s, 0);
    assert s[0..] == s;
  }

  /** A chosen connection resolves to itself when no other one has its name up to case and space. */
  lemma {:induction false} ChosenConnResolves(conns: seq<Conn>, k: nat)
    requires k < |conns| && conns[k].name != ""
    requires forall i :: 0 <= i < |conns| && i != k ==> Norm(conns[i].name) != Norm(conns[k].name)
    ensures ResolveName(conns[k].name, conns) == Connection(conns[k].id, conns[k].name, conns[k].kind)
  {
    FindsOnly(conns, k);
  }

  lemma {:induction false} FindsOnly(conns: seq<Conn>, k: nat)
    requires k < |conns|
    requires forall i :: 0 <= i < |conns| && i != k ==> Norm(conns[i].name) != Norm(conns[k].name)
    ensures FindConn(conns, conns[k].name) == Some(conns[k])
  {
    hide Norm;
    if k > 0 {
      assert Norm(conns[0].name) != Norm(conns[k].name);
      FindsOnly(conns[1..], k - 1);
    }
  }

  lemma {:induction false} UpsertDelta(s: string, name: Option<string>)
    ensures Upsert(s, name).delta == |Upsert(s, name).text| - |s|
  {
    hide Exec, MarkerLine;
  }

  /** The statement that the change is about: the one that would run with the cursor at the trigger. */
  predicate AtStatement(doc: string, from: nat, to: nat, j: nat) {
    && from <= to <= |doc|
    && var rs := Ranges(Without(doc, from, to));
    && rs != [] && j == Choose(rs, from)
  }

  /** The trigger does not stand behind that statement. */
  predicate InStatement(doc: string, from: nat, to: nat, j: nat) {
    AtStatement(doc, from, to, j) && from <= Ranges(Without(doc, from, to))[j].to
  }

  /** The trigger stands behind the semicolon that ends the text: the guard `hit.to >= triggerFrom` fails. */
  predicate BehindLast(doc: string, from: nat, to: nat, j: nat) {
    AtStatement(doc, from, to, j) && from < to && Ranges(Without(doc, from, to))[j].to < from
  }

  function StatementOf(doc: string, from: nat, to: nat, j: nat): string
    requires from <= to <= |doc| && j < |Ranges(Without(doc, from, to))|
  {
    Piece(Without(doc, from, to), Ranges(Without(doc, from, to))[j])
  }

  /** The text behind a range and its semicolon. */
  function Behind(t: string, r: Range): string {
    if r.to < |t| then t[r.to + 1..] else ""
  }

  /** The document with the text of range `r` replaced by `v`. */
  function Replaced(t: string, r: Range, v: string): string {
    Doc(Take(t, r.from), v, r.to < |t|, Behind(t, r))
  }

  lemma {:induction false} ReplacedIs(t: string, r: Range, v: string)
    requires r.from <= r.to <= |t| && (r.to < |t| ==> t[r.to] == ';')
    ensures Replaced(t, r, v) == Take(t, r.from) + v + Drop(t, r.to)
  {
    var p := Take(t, r.from);
    if r.to < |t| {
      assert t[r.to..] == ";" + t[r.to + 1..];
      Assoc(v, ";", t[r.to + 1..]);
      Assoc(p, v, t[r.to..]);
    } else {
      assert p + v + "" == p + v;
    }
  }

  lemma {:induction false} StatementBounds(doc: string, from: nat, to: nat, j: nat)
    requires AtStatement(doc, from, to, j)
    ensures from <= to <= |doc| && from <= |Without(doc, from, to)|
    ensures
      var t := Without(doc, from, to);
      && j < |Ranges(t)|
      && var r := Ranges(t)[j];
      && r.from <= r.to <= |t| && r.from <= from
      && |StatementOf(doc, from, to, j)| == r.to - r.from
      && (r.to < |t| ==> t[r.to] == ';')
      && (r.to < from ==> j == |Ranges(t)| - 1 && r.to + 1 == |t| == from && t[r.to] == doc[r.to] == ';')
  {
    var t := Without(doc, from, to);
    RangesTile(t);
    ChooseBounds(Ranges(t), 0, |t|, from);
    StatementIsWhole(t, j);
  }

  /** What stays of the trigger: all of it when it stands behind the last statement. */
  function Leftover(doc: string, from: nat, to: nat, j: nat): string
    requires from <= to <= |doc| && j < |Ranges(Without(doc, from, to))|
  {
    if from <= Ranges(Without(doc, from, to))[j].to then "" else doc[from..to]
  }

  /** The text behind the statement in the changed document. */
  function NewBehind(doc: string, from: nat, to: nat, j: nat): string
    requires from <= to <= |doc| && j < |Ranges(Without(doc, from, to))|
  {
    Behind(Without(doc, from, to), Ranges(Without(doc, from, to))[j]) + Leftover(doc, from, to, j)
  }

  lemma {:induction false} TakeSame(doc: string, from: nat, to: nat, r: Range)
    requires from <= to <= |doc| && r.from <= from <= r.to <= |Without(doc, from, to)|
    ensures
      var t := Without(doc, from, to);
      && r.to + (to - from) <= |doc|
      && Take(doc, r.from) == Take(t, r.from) && Drop(doc, r.to + (to - from)) == Drop(t, r.to)
  {
    var t := Without(doc, from, to);
    assert t[r.to..] == doc[to..][r.to - from..];
  }

  lemma {:induction false} BehindText(doc: string, from: nat, to: nat, r: Range, v: string)
    requires from <= to <= |doc| && |Without(doc, from, to)| == from == r.to + 1 && r.from <= r.to && doc[r.to] == ';'
    ensures
      && Behind(Without(doc, from, to), r) == ""
      && Take(doc, r.from) + v + Drop(doc, r.to) == Doc(Take(Without(doc, from, to), r.from), v, true, doc[from..to])
  {
    var trigger, p := doc[from..to], Take(doc, r.from);
    assert doc[to..] == "";
    assert doc[r.to..] == ";" + trigger;
    Assoc(v, ";", trigger);
    Assoc(p, v, ";" + trigger);
  }

  /** The range that the change replaces. */
  lemma {:induction false} PlaceEnds(doc: string, from: nat, to: nat, name: Option<string>, allowSplit: bool, j: nat)
    requires AtStatement(doc, from, to, j)
    ensures
      var e, r := PlaceIn(doc, from, to, name, allowSplit), Ranges(Without(doc, from, to))[j];
      && e.from == r.from && e.to == (if from <= r.to then r.to + (to - from) else r.to)
      && Apply(doc, e) == Take(doc, r.from) + e.insert + Drop(doc, e.to)
  {
    hide Ranges, Upsert, OpensNew, Choose, Take, Drop, Piece, NewInsert, DropBlanks;
  }

  lemma {:induction false} NothingBehind(x: string)
    ensures x + "" == x && "" + x == x
  {
  }

  lemma {:induction false} LeftBehind(doc: string, from: nat, to: nat, j: nat)
    requires AtStatement(doc, from, to, j) && Ranges(Without(doc, from, to))[j].to < from
    ensures NewBehind(doc, from, to, j) == doc[from..to]
  {
    StatementBounds(doc, from, to, j);
    hide Ranges, Choose;
    NothingBehind(doc[from..to]);
  }

  lemma {:induction false} NothingStays(doc: string, from: nat, to: nat, j: nat)
    requires AtStatement(doc, from, to, j) && from <= Ranges(Without(doc, from, to))[j].to
    ensures
      var t := Without(doc, from, to);
      NewBehind(doc, from, to, j) == Behind(t, Ranges(t)[j])
  {
    hide Ranges, Choose;
    NothingBehind(Behind(Without(doc, from, to), Ranges(Without(doc, from, to))[j]));
  }

  lemma {:induction false} ReplacedMiddle(t: string, r: Range, v: string)
    ensures Replaced(t, r, v) == Doc(Take(t, r.from), v, r.to < |t|, Behind(t, r))
  {
  }

  /** The changed document, whichever branch the change takes. */
  lemma {:induction false} PlacedDocument(doc: string, from: nat, to: nat, name: Option<string>, allowSplit: bool, j: nat)
    requires AtStatement(doc, from, to, j)
    ensures
      var t, e := Without(doc, from, to), PlaceIn(doc, from, to, name, allowSplit);
      var r := Ranges(t)[j];
      Apply(doc, e) == Doc(Take(t, r.from), e.insert, r.to < |t|, NewBehind(doc, from, to, j))
  {
    hide *;
    StatementBounds(doc, from, to, j);
    PlaceEnds(doc, from, to, name, allowSplit, j);
    var t, e := Without(doc, from, to), PlaceIn(doc, from, to, name, allowSplit);
    var r := Ranges(t)[j];
    if from <= r.to {
      NothingStays(doc, from, to, j);
      TakeSame(doc, from, to, r);
      ReplacedIs(t, r, e.insert);
      ReplacedMiddle(t, r, e.insert);
    } else {
      LeftBehind(doc, from, to, j);
      BehindText(doc, from, to, r, e.insert);
    }
  }

  /** The trigger is gone from the document exactly when it does not stand behind the last statement. */
  lemma {:induction false} TriggerRemoved(doc: string, from: nat, to: nat, name: Option<string>, allowSplit: bool, j: nat)
    requires AtStatement(doc, from, to, j) && from < to
    ensures
      var t, e := Without(doc, from, to), PlaceIn(doc, from, to, name, allowSplit);
      var r := Ranges(t)[j];
      && (Apply(doc, e) == Replaced(t, r, e.insert) <==> from <= r.to)
      && (r.to < from ==> Apply(doc, e) == Replaced(t, r, e.insert) + doc[from..to])
  {
    var t, e := Without(doc, from, to), PlaceIn(doc, from, to, name, allowSplit);
    var r := Ranges(t)[j];
    assert r.to < from ==> doc[from..to] != "";
    assert AtStatement(doc, from, to, j);
    hide *;
    StatementBounds(doc, from, to, j);
    PlacedDocument(doc, from, to, name, allowSplit, j);
    if r.to < from {
      LeftBehind(doc, from, to, j);
      ReplacedLast(t, r, e.insert, doc[from..to]);
    } else {
      NothingStays(doc, from, to, j);
      ReplacedMiddle(t, r, e.insert);
    }
  }

  lemma {:induction false} ReplacedLast(t: string, r: Range, v: string, trigger: string)
    requires r.to + 1 == |t|
    ensures Doc(Take(t, r.from), v, true, trigger) == Replaced(t, r, v) + trigger
    ensures trigger != "" ==> Doc(Take(t, r.from), v, true, trigger) != Replaced(t, r, v)
  {
    var p := Take(t, r.from);
    assert Behind(t, r) == "";
    assert p + (v + ";" + trigger) == p + (v + ";" + "") + trigger;
  }

  /** The chosen statement has text left, or a semicolon behind it keeps its place. */
  predicate Kept(doc: string, from: nat, to: nat, j: nat, name: Option<string>)
    requires from <= to <= |doc| && j < |Ranges(Without(doc, from, to))|
  {
    var t := Without(doc, from, to);
    Upsert(StatementOf(doc, from, to, j), name).text != "" || Ranges(t)[j].to < |t|
  }

  /** The place of the trigger in its statement, at most its end. */
  function Position(doc: string, from: nat, to: nat, j: nat): nat
    requires from <= to <= |doc| && j < |Ranges(Without(doc, from, to))|
  {
    var r := Ranges(Without(doc, from, to))[j];
    if r.from <= from <= r.to then from - r.from else |StatementOf(doc, from, to, j)|
  }

  /** The edit does not open a new statement. */
  predicate StaysInStatement(doc: string, from: nat, to: nat, j: nat, name: Option<string>, allowSplit: bool)
    requires from <= to <= |doc| && j < |Ranges(Without(doc, from, to))|
  {
    !OpensNew(StatementOf(doc, from, to, j), Position(doc, from, to, j), name, allowSplit)
  }

  /** Positions behind the statement count as its end. */
  lemma {:induction false} ClippedPosition(stmt: string, at: nat, name: Option<string>, allowSplit: bool)
    requires |stmt| <= at
    ensures Take(stmt, at) == Take(stmt, |stmt|) && Drop(stmt, at) == Drop(stmt, |stmt|)
    ensures OpensNew(stmt, at, name, allowSplit) == OpensNew(stmt, |stmt|, name, allowSplit)
  {
    hide Trim, Strip, OnOwnLine;
    assert stmt[..|stmt|] == stmt && stmt[|stmt|..] == "";
  }

  lemma {:induction false} StatementParts(t: string, j: nat)
    requires j < |Ranges(t)|
    ensures
      var r := Ranges(t)[j];
      var p := Take(t, r.from);
      && r.from <= r.to <= |t| && |Piece(t, r)| == r.to - r.from && |p| == r.from
      && Opens(p) && |Cuts(p, 0, |p|)| == j && Whole(Piece(t, r), r.to < |t|)
      && t == Replaced(t, r, Piece(t, r))
      && (Piece(t, r) != "" || r.to < |t|)
  {
    hide Ranges, Opens, Whole, Doc, Cuts;
    DocOfRange(t, j);
    var r := Ranges(t)[j];
    assert Take(t, r.from) == t[..r.from];
  }

  /** What the change writes when it stays in its statement, and where it puts the cursor. */
  lemma {:induction false} PlacedInside(doc: string, from: nat, to: nat, name: Option<string>, allowSplit: bool, j: nat)
    requires AtStatement(doc, from, to, j) && StaysInStatement(doc, from, to, j, name, allowSplit)
    ensures
      var e, r := PlaceIn(doc, from, to, name, allowSplit), Ranges(Without(doc, from, to))[j];
      var v := Upsert(StatementOf(doc, from, to, j), name).text;
      && e.insert == v
      && (from <= r.to ==> r.from <= e.anchor <= r.from + |v|)
      && (r.to < from ==> e.anchor == r.from + |v| + 1)
  {
    hide *;
    StatementBounds(doc, from, to, j);
    UpsertDelta(StatementOf(doc, from, to, j), name);
    PlaceIsUpsert(doc, from, to, name, allowSplit, j);
  }

  lemma {:induction false} PlaceIsUpsert(doc: string, from: nat, to: nat, name: Option<string>, allowSplit: bool, j: nat)
    requires AtStatement(doc, from, to, j) && StaysInStatement(doc, from, to, j, name, allowSplit)
    ensures
      var e, r := PlaceIn(doc, from, to, name, allowSplit), Ranges(Without(doc, from, to))[j];
      var edit := Upsert(StatementOf(doc, from, to, j), name);
      var moved := from + edit.delta;
      e.insert == edit.text && e.anchor == if moved < r.from then r.from else moved
  {
    StatementBounds(doc, from, to, j);
    hide Ranges, Upsert, OpensNew, Choose, Take, Drop, Piece;
    var r := Ranges(Without(doc, from, to))[j];
    if r.to < from {
      ClippedPosition(StatementOf(doc, from, to, j), from - r.from, name, allowSplit);
    }
  }

  lemma {:induction false} PlacedWithin(doc: string, from: nat, to: nat, name: Option<string>, allowSplit: bool, j: nat)
    requires InStatement(doc, from, to, j)
    ensures
      var e, t := PlaceIn(doc, from, to, name, allowSplit), Without(doc, from, to);
      Apply(doc, e) == Replaced(t, Ranges(t)[j], e.insert)
  {
    PlacedDocument(doc, from, to, name, allowSplit, j);
    NothingStays(doc, from, to, j);
    hide Ranges, PlaceIn, Take;
  }

  /**
   * Setting the connection of a statement: the statement that runs at the new cursor is the edited one; it goes to the
   * chosen connection with its SQL unchanged, and every other statement keeps its text.
   */
  lemma {:induction false} MarkerReachesItsStatement(
    doc: string, from: nat, to: nat, name: Option<string>, allowSplit: bool, conns: seq<Conn>, j: nat)
    requires InStatement(doc, from, to, j) && StaysInStatement(doc, from, to, j, name, allowSplit)
    requires MarkersPlain(StatementOf(doc, from, to, j)) && SingleLine(name) && Kept(doc, from, to, j, name)
    ensures
      var e := PlaceIn(doc, from, to, name, allowSplit);
      var before, after, stmt := Without(doc, from, to), Apply(doc, e), StatementOf(doc, from, to, j);
      && |Ranges(after)| == |Ranges(before)|
      && (forall i :: 0 <= i < |Ranges(after)| && i != j ==> Piece(after, Ranges(after)[i]) == Piece(before, Ranges(before)[i]))
      && Ranges(after) != [] && Choose(Ranges(after), e.anchor) == j
      && PickAt(after, e.anchor) == Upsert(stmt, name).text
      && (Calm(stmt, name) ==>
            && Resolve(PickAt(after, e.anchor), conns) == (if name.None? then Inherit else ResolveName(name.value, conns))
            && Strip(PickAt(after, e.anchor)) == Strip(stmt))
  {
    var t, stmt := Without(doc, from, to), StatementOf(doc, from, to, j);
    var r, v, e := Ranges(t)[j], Upsert(stmt, name).text, PlaceIn(doc, from, to, name, allowSplit);
    assert (v != "" || r.to < |t|) && stmt == Piece(t, r) && AtStatement(doc, from, to, j) && from <= r.to;
    hide *;
    PlacedInside(doc, from, to, name, allowSplit, j);
    PlacedWithin(doc, from, to, name, allowSplit, j);
    StatementParts(t, j);
    UpsertWhole(stmt, name, r.to < |t|);
    if Calm(stmt, name) {
      ChosenTarget(stmt, name, conns);
    }
    ReplacedStatements(t, r, stmt, v, e.anchor);
  }

  /** A document that holds nothing but the trigger becomes the marker alone, and that is what runs. */
  lemma {:induction false} EmptyDocumentMarked(doc: string, from: nat, to: nat, name: Option<string>, allowSplit: bool, conns: seq<Conn>)
    requires from <= to <= |doc| && Without(doc, from, to) == "" && SingleLine(name)
    ensures
      var e := PlaceIn(doc, from, to, name, allowSplit);
      && PickAt(Apply(doc, e), e.anchor) == Apply(doc, e) == (if name.None? then "" else MarkerLine(name.value) + "\n")
      && Resolve(PickAt(Apply(doc, e), e.anchor), conns) == (if name.None? then Inherit else ResolveName(name.value, conns))
  {
    var e, v := PlaceIn(doc, from, to, name, allowSplit), Upsert("", name).text;
    assert Markers("", 0) == [];
    EmptyIsPlaced(doc, from, to, name, allowSplit);
    assert Whole("", false);
    assert Calm("", name) && MarkersPlain("");
    hide *;
    UpsertWhole("", name, false);
    ChosenTarget("", name, conns);
    WholeIsPicked(v, e.anchor);
  }

  lemma {:induction false} EmptyIsPlaced(doc: string, from: nat, to: nat, name: Option<string>, allowSplit: bool)
    requires from <= to <= |doc| && Without(doc, from, to) == ""
    ensures
      var e := PlaceIn(doc, from, to, name, allowSplit);
      Apply(doc, e) == Upsert("", name).text == (if name.None? then "" else MarkerLine(name.value) + "\n")
  {
    assert |Without(doc, from, to)| == from + (|doc| - to);
    assert Cuts("", 0, 0) == [] && Ranges("") == [];
    assert Markers("", 0) == [] && Strip("") == "" && Trim("") == "";
    hide Ranges, Markers, Cuts, MarkerLine;
    assert InsertAt("") == 0;
  }

  /** A document that is one statement runs as a whole. */
  lemma {:induction false} WholeIsPicked(v: string, pos: nat)
    requires Whole(v, false)
    ensures PickAt(v, pos) == v
  {
    if v == "" {
      assert Cuts("", 0, 0) == [];
    } else {
      assert Opens("") && Cuts("", 0, 0) == [] && Doc("", v, false, "") == v;
      hide Whole, Opens, Cuts, Ranges, Doc, Piece;
      DocPieces("", v, false, "");
    }
  }

  /** `StatementReplaced` for a range of a document. */
  lemma {:induction false} ReplacedStatements(t: string, r: Range, u: string, v: string, pos: nat)
    requires Opens(Take(t, r.from)) && Whole(u, r.to < |t|) && Whole(v, r.to < |t|)
    requires (u != "" || r.to < |t|) && (v != "" || r.to < |t|)
    requires |Take(t, r.from)| == r.from <= pos <= r.from + |v|
    ensures
      var p := Take(t, r.from);
      var s, w, j := Replaced(t, r, u), Replaced(t, r, v), |Cuts(p, 0, |p|)|;
      && |Ranges(s)| == |Ranges(w)| && j < |Ranges(w)|
      && (forall i :: 0 <= i < |Ranges(w)| && i != j ==> Piece(w, Ranges(w)[i]) == Piece(s, Ranges(s)[i]))
      && Choose(Ranges(w), pos) == j && PickAt(w, pos) == v
  {
    hide Ranges, Cuts, Opens, Whole, Doc, Piece, PickAt;
    StatementReplaced(Take(t, r.from), u, v, r.to < |t|, Behind(t, r), pos);
  }

  // ---------------------------------------------------------------- where the edit misses its statement

  lemma {:induction false} BehindFacts(doc: string, from: nat, to: nat, j: nat)
    requires BehindLast(doc, from, to, j)
    ensures AtStatement(doc, from, to, j) && from < to <= |doc| && doc[from..to] != ""
    ensures
      var t := Without(doc, from, to);
      j < |Ranges(t)| && Ranges(t)[j].to < from && StatementOf(doc, from, to, j) == Piece(t, Ranges(t)[j])
  {
    hide Ranges, Choose, Piece;
  }

  /** The cursor then stands in the trigger text, so the first statement of that text runs instead. */
  lemma {:induction false} TriggerTextRuns(doc: string, from: nat, to: nat, name: Option<string>, allowSplit: bool, j: nat)
    requires BehindLast(doc, from, to, j) && StaysInStatement(doc, from, to, j, name, allowSplit)
    requires MarkersPlain(StatementOf(doc, from, to, j)) && SingleLine(name)
    ensures
      var e, trigger := PlaceIn(doc, from, to, name, allowSplit), doc[from..to];
      var after := Apply(doc, e);
      && Ranges(trigger) != [] && Ranges(after) != []
      && Choose(Ranges(after), e.anchor) == j + 1
      && PickAt(after, e.anchor) == Piece(trigger, Ranges(trigger)[0])
  {
    hide *;
    BehindFacts(doc, from, to, j);
    StatementBounds(doc, from, to, j);
    var t, stmt := Without(doc, from, to), StatementOf(doc, from, to, j);
    var r, v, trigger := Ranges(t)[j], Upsert(stmt, name).text, doc[from..to];
    PlacedDocument(doc, from, to, name, allowSplit, j);
    PlacedInside(doc, from, to, name, allowSplit, j);
    StatementParts(t, j);
    UpsertWhole(stmt, name, true);
    LeftBehind(doc, from, to, j);
    NextStatementPicked(Take(t, r.from), v, trigger);
  }

  lemma {:induction false} NextRange(p: string, v: string, b: string)
    requires Opens(p) && Whole(v, true) && b != ""
    ensures
      var w, j := Doc(p, v, true, b), |Cuts(p, 0, |p|)|;
      && Ranges(b) != [] && j + 1 < |Ranges(w)|
      && Ranges(w)[j + 1].from == |p| + |v| + 1 <= Ranges(w)[j + 1].to
  {
    RangesTile(b);
    assert Ranges(b) != [] && Ranges(b)[0].from == 0;
    hide Cuts, Opens, Whole, Doc, Ranges, Layout;
    DocRanges(p, v, true, b);
    LayoutSize(p, |v|, true, b);
    LayoutTail(p, |v|, true, b, |Cuts(p, 0, |p|)| + 1);
  }

  /** A cursor right behind the semicolon of a statement picks the next statement. */
  lemma {:induction false} NextStatementPicked(p: string, v: string, b: string)
    requires Opens(p) && Whole(v, true) && b != ""
    ensures
      var w, j := Doc(p, v, true, b), |Cuts(p, 0, |p|)|;
      && Ranges(b) != [] && Ranges(w) != []
      && Choose(Ranges(w), |p| + |v| + 1) == j + 1
      && PickAt(w, |p| + |v| + 1) == Piece(b, Ranges(b)[0])
  {
    hide *;
    var w, j := Doc(p, v, true, b), |Cuts(p, 0, |p|)|;
    NextRange(p, v, b);
    RangesTile(w);
    ChooseInside(Ranges(w), 0, |w|, |p| + |v| + 1, j + 1);
    DocPieces(p, v, true, b);
    PickChosen(w, |p| + |v| + 1, j + 1);
  }

  lemma {:induction false} PickChosen(t: string, pos: nat, k: nat)
    requires Ranges(t) != [] && Choose(Ranges(t), pos) == k
    ensures PickAt(t, pos) == Piece(t, Ranges(t)[k])
  {
    hide Ranges;
  }

  /** The statement whose connection is set is the one that runs exactly when the trigger does not stand behind the last semicolon. */
  lemma {:induction false} EditedStatementRuns(doc: string, from: nat, to: nat, name: Option<string>, allowSplit: bool, j: nat)
    requires AtStatement(doc, from, to, j) && from < to
    requires StaysInStatement(doc, from, to, j, name, allowSplit)
    requires MarkersPlain(StatementOf(doc, from, to, j)) && SingleLine(name) && Kept(doc, from, to, j, name)
    ensures
      var e := PlaceIn(doc, from, to, name, allowSplit);
      && Ranges(Apply(doc, e)) != []
      && (Choose(Ranges(Apply(doc, e)), e.anchor) == j <==> from <= Ranges(Without(doc, from, to))[j].to)
  {
    if from <= Ranges(Without(doc, from, to))[j].to {
      assert InStatement(doc, from, to, j);
      hide *;
      MarkerReachesItsStatement(doc, from, to, name, allowSplit, [], j);
    } else {
      assert BehindLast(doc, from, to, j);
      hide *;
      TriggerTextRuns(doc, from, to, name, allowSplit, j);
    }
  }

  /** Removing the only content of the last statement removes the statement: one range less, unless something is kept. */
  lemma {:induction false} StatementCountKept(doc: string, from: nat, to: nat, name: Option<string>, allowSplit: bool, j: nat)
    requires InStatement(doc, from, to, j) && StaysInStatement(doc, from, to, j, name, allowSplit)
    requires MarkersPlain(StatementOf(doc, from, to, j)) && SingleLine(name)
    ensures
      var n, m := |Ranges(Without(doc, from, to))|, |Ranges(Apply(doc, PlaceIn(doc, from, to, name, allowSplit)))|;
      m == if Kept(doc, from, to, j, name) then n else n - 1
  {
    if Kept(doc, from, to, j, name) {
      hide *;
      MarkerReachesItsStatement(doc, from, to, name, allowSplit, [], j);
    } else {
      var t := Without(doc, from, to);
      var r := Ranges(t)[j];
      assert Upsert(StatementOf(doc, from, to, j), name).text == "" && r.to >= |t|;
      assert StatementOf(doc, from, to, j) == Piece(t, r);
      assert AtStatement(doc, from, to, j);
      hide *;
      PlacedInside(doc, from, to, name, allowSplit, j);
      PlacedWithin(doc, from, to, name, allowSplit, j);
      StatementParts(t, j);
      EmptiedDocument(t, r, j);
    }
  }

  lemma {:induction false} EmptiedDocument(t: string, r: Range, j: nat)
    requires r.from <= r.to == |t| && Opens(Take(t, r.from)) && |Cuts(Take(t, r.from), 0, |Take(t, r.from)|)| == j
    requires Whole(Piece(t, r), r.to < |t|) && Piece(t, r) != "" && t == Replaced(t, r, Piece(t, r))
    ensures |Ranges(Replaced(t, r, ""))| == j && |Ranges(t)| == j + 1
  {
    var p := Take(t, r.from);
    assert Replaced(t, r, "") == p;
    HeadRanges(p);
    hide Ranges, Cuts, Opens, Whole;
    DocPieces(p, Piece(t, r), false, "");
    assert Behind(t, r) == "";
  }

  lemma {:induction false} HeadRanges(p: string)
    requires Opens(p)
    ensures |Ranges(p)| == |Cuts(p, 0, |p|)|
  {
    CutsOfHead(p, "");
    assert p + "" == p;
    var cuts := Cuts(p, 0, |p|);
    hide Cuts, Opens;
    BetweenAppend(cuts, [], 0, |p|);
    assert cuts + [] == cuts;
  }
}
