/** Statement ranges: exact cuts, no lost text, composition. */
module SplitterLaws {
  import opened Text
  import opened Splitter

  // ---------------------------------------------------------------- reading from one position to another

  lemma {:induction false} ReachesTrans(s: string, i: nat, k: nat, m: nat)
    requires k <= |s| && m <= |s| && Reaches(s, i, k) && Reaches(s, k, m)
    ensures Reaches(s, i, m)
    decreases k - i
  {
    if i < k {
      ReachesTrans(s, Element(s, i).end, k, m);
    }
  }

  /** Two positions reached from the same place lie on one path. */
  lemma {:induction false} ReachesLinear(s: string, i: nat, k: nat, m: nat)
    requires k <= m <= |s| && Reaches(s, i, k) && Reaches(s, i, m)
    ensures Reaches(s, k, m)
    decreases k - i
  {
    if i < k {
      ReachesLinear(s, Element(s, i).end, k, m);
    }
  }

  lemma {:induction false} CutsAppend(s: string, i: nat, k: nat, m: nat)
    requires k <= m <= |s| && Reaches(s, i, k)
    ensures Cuts(s, i, m) == Cuts(s, i, k) + Cuts(s, k, m)
    decreases k - i
  {
    hide Element;
    if i < k {
      CutsAppend(s, Element(s, i).end, k, m);
    }
  }

  /** `Cuts` lists exactly the semicolons that the element-by-element reading stops at. */
  lemma {:induction false} CutsExact(s: string, i: nat, k: nat, c: nat)
    requires k <= |s|
    ensures c in Cuts(s, i, k) <==> i <= c < k && s[c] == ';' && Reaches(s, i, c)
    decreases k - i
  {
    hide Element;
    if i < k && Element(s, i).Closed? {
      var e := Element(s, i).end;
      CutsExact(s, e, k, c);
      assert c in Cuts(s, i, k) <==> (s[i] == ';' && c == i) || c in Cuts(s, e, k);
    }
  }

  lemma {:induction false} CutsOrdered(s: string, i: nat, k: nat)
    requires k <= |s|
    ensures forall a :: 0 <= a < |Cuts(s, i, k)| ==> i <= Cuts(s, i, k)[a] < k
    ensures forall a, b :: 0 <= a < b < |Cuts(s, i, k)| ==> Cuts(s, i, k)[a] < Cuts(s, i, k)[b]
    decreases k - i
  {
    hide Element;
    if i < k && Element(s, i).Closed? {
      CutsOrdered(s, Element(s, i).end, k);
    }
  }

  // ---------------------------------------------------------------- a text inside a longer one

  /** A character that cannot lengthen an element that stands before it. */
  predicate Neutral(c: char) {
    c != '\'' && c != '-' && c != '*' && c != '$' && !IsWord(c)
  }

  /** `s` occurs in `t` at `d`, up to the end or up to a neutral character. */
  predicate Framed(t: string, d: nat, s: string) {
    Window(t, d, s) && (d + |s| == |t| || Neutral(t[d + |s|]))
  }

  lemma {:induction false} WindowChars(t: string, d: nat, s: string)
    requires Window(t, d, s)
    ensures forall k :: 0 <= k < |s| ==> s[k] == t[k + d]
  {
    assert forall k :: 0 <= k < |s| ==> s[k] == t[d..d + |s|][k];
  }

  /** The scan `a` inside a text agrees with the scan `b` of a longer text in which it stands at `d`. */
  predicate Agree(a: Scan, b: Scan, d: nat, limit: nat) {
    && (a.Closed? ==> b == Closed(a.end + d))
    && (b.Closed? && b.end <= d + limit ==> d <= b.end && a == Closed(b.end - d))
  }

  lemma {:induction false} FramedStringClose(t: string, d: nat, s: string, i: nat)
    requires Framed(t, d, s) && i <= |s|
    ensures Agree(StringClose(s, i), StringClose(t, i + d), d, |s|)
    decreases |s| - i
  {
    WindowChars(t, d, s);
    if i < |s| {
      if s[i] != '\'' {
        FramedStringClose(t, d, s, i + 1);
      } else if i + 1 < |s| && s[i + 1] == '\'' {
        FramedStringClose(t, d, s, i + 2);
      }
    }
  }

  lemma {:induction false} FramedWordEnd(t: string, d: nat, s: string, i: nat)
    requires Framed(t, d, s) && i <= |s|
    ensures WordEnd(t, i + d) == WordEnd(s, i) + d
    decreases |s| - i
  {
    WindowChars(t, d, s);
    if i < |s| && IsWord(s[i]) {
      FramedWordEnd(t, d, s, i + 1);
    }
  }

  lemma {:induction false} KindFramed(t: string, d: nat, s: string, i: nat)
    requires Framed(t, d, s) && i < |s|
    ensures KindAt(t, i + d) == KindAt(s, i)
  {
    WindowChars(t, d, s);
    FramedWordEnd(t, d, s, i + 1);
  }

  lemma {:induction false} FoundFramed(t: string, d: nat, s: string, pat: string, i: nat)
    requires Framed(t, d, s)
    ensures Agree(After(IndexOf(s, pat, i), |pat|), After(IndexOf(t, pat, i + d), |pat|), d, |s|)
  {
    hide IndexOf;
    WindowIndexOf(t, d, s, pat, i);
  }

  lemma {:induction false} DollarFramed(t: string, d: nat, s: string, i: nat)
    requires Framed(t, d, s) && i < |s| && KindAt(s, i) == DollarQuote && KindAt(t, i + d) == DollarQuote
    ensures Agree(DollarClose(s, i), DollarClose(t, i + d), d, |s|)
  {
    hide IndexOf, WordEnd;
    FramedWordEnd(t, d, s, i + 1);
    var j := WordEnd(s, i + 1) + 1;
    var delim := s[i..j];
    assert delim == t[i + d..j + d] by {
      WindowChars(t, d, s);
    }
    FoundFramed(t, d, s, delim, j);
  }

  /** `Agree`, but for a scan that runs up to a newline just behind the window. */
  predicate AgreeUpToNewline(a: Scan, b: Scan, t: string, d: nat, limit: nat)
    requires d + limit <= |t|
  {
    && (a.Closed? ==> b == Closed(a.end + d))
    && (b.Closed? && b.end < d + limit ==> a.Closed?)
    && (d + limit == |t| || t[d + limit] != '\n' ==> Agree(a, b, d, limit))
  }

  lemma {:induction false} LineFramed(t: string, d: nat, s: string, i: nat)
    requires Framed(t, d, s) && i < |s|
    ensures AgreeUpToNewline(After(IndexOf(s, "\n", i + 1), 0), After(IndexOf(t, "\n", i + 1 + d), 0), t, d, |s|)
  {
    hide IndexOf, Window, Neutral;
    WindowIndexOf(t, d, s, "\n", i + 1);
    IndexOfFirst(t, "\n", i + 1 + d);
    AtOne(t, '\n');
  }

  /** An element closes inside a framed text exactly when it closes there in the whole text. */
  lemma {:induction false} ElementFramed(t: string, d: nat, s: string, i: nat)
    requires Framed(t, d, s) && i < |s|
    ensures AgreeUpToNewline(Element(s, i), Element(t, i + d), t, d, |s|)
    ensures KindAt(s, i) != LineComment ==> Agree(Element(s, i), Element(t, i + d), d, |s|)
  {
    KindFramed(t, d, s, i);
    hide KindAt, DollarClose, StringClose, IndexOf, Framed, After, WordEnd;
    match KindAt(s, i)
    case Literal => FramedStringClose(t, d, s, i + 1);
    case Identifier => FoundFramed(t, d, s, "\"", i + 1);
    case LineComment => LineFramed(t, d, s, i);
    case BlockComment => FoundFramed(t, d, s, "*/", i + 2);
    case DollarQuote => DollarFramed(t, d, s, i);
    case Plain =>
  }

  lemma {:induction false} ReachesFramed(t: string, d: nat, s: string, i: nat, k: nat)
    requires Framed(t, d, s) && k <= |s|
    ensures Reaches(s, i, k) ==> Reaches(t, i + d, k + d)
    ensures Reaches(t, i + d, k + d) && (d + |s| == |t| || t[d + |s|] != '\n') ==> Reaches(s, i, k)
    decreases k - i
  {
    hide Element;
    if i < k {
      ElementFramed(t, d, s, i);
      if Element(s, i).Closed? {
        ReachesFramed(t, d, s, Element(s, i).end, k);
      } else if Element(t, i + d).Closed? {
        assert d + |s| == |t| || t[d + |s|] != '\n' ==> !Reaches(t, Element(t, i + d).end, k + d);
      }
    }
  }

  function Shift(cuts: seq<nat>, d: nat): seq<nat> {
    seq(|cuts|, j requires 0 <= j < |cuts| => cuts[j] + d)
  }

  function ShiftRanges(rs: seq<Range>, d: nat): seq<Range> {
    seq(|rs|, j requires 0 <= j < |rs| => Range(rs[j].from + d, rs[j].to + d))
  }

  lemma {:induction false} CutsFramed(t: string, d: nat, s: string, i: nat, k: nat)
    requires Framed(t, d, s) && k <= |s| && (d + |s| == |t| || t[d + |s|] != '\n')
    ensures Cuts(t, i + d, k + d) == Shift(Cuts(s, i, k), d)
    decreases k - i
  {
    hide Element;
    WindowChars(t, d, s);
    if i < k {
      ElementFramed(t, d, s, i);
      if Element(s, i).Closed? {
        CutsFramed(t, d, s, Element(s, i).end, k);
      }
    }
  }

  lemma {:induction false} BetweenShift(cuts: seq<nat>, start: nat, n: nat, d: nat)
    ensures Between(Shift(cuts, d), start + d, n + d) == ShiftRanges(Between(cuts, start, n), d)
  {
    if cuts != [] {
      BetweenShift(cuts[1..], cuts[0] + 1, n, d);
      assert Shift(cuts, d)[1..] == Shift(cuts[1..], d);
    }
  }

  /** The ranges that the cuts `x` end. */
  function Before(x: seq<nat>, start: nat): (rs: seq<Range>)
    ensures |rs| == |x|
  {
    if x == [] then [] else [Range(start, x[0])] + Before(x[1..], x[0] + 1)
  }

  /** Where the statement after the cuts `x` starts. */
  function NextStart(x: seq<nat>, start: nat): nat {
    if x == [] then start else x[|x| - 1] + 1
  }

  lemma {:induction false} BetweenAppend(x: seq<nat>, y: seq<nat>, start: nat, n: nat)
    ensures Between(x + y, start, n) == Before(x, start) + Between(y, NextStart(x, start), n)
  {
    if x == [] {
      assert x + y == y;
      assert [] + Between(y, start, n) == Between(y, start, n);
    } else {
      var rest := x[1..];
      assert NextStart(rest, x[0] + 1) == NextStart(x, start);
      assert Before(x, start) == [Range(start, x[0])] + Before(rest, x[0] + 1);
      BetweenCons(x[0], rest + y, start, n);
      assert x + y == [x[0]] + (rest + y);
      hide Between, Before, NextStart;
      BetweenAppend(rest, y, x[0] + 1, n);
      Assoc([Range(start, x[0])], Before(rest, x[0] + 1), Between(y, NextStart(x, start), n));
    }
  }

  lemma {:induction false} BetweenCons(c: nat, cuts: seq<nat>, start: nat, n: nat)
    ensures Between([c] + cuts, start, n) == [Range(start, c)] + Between(cuts, c + 1, n)
  {
    assert ([c] + cuts)[1..] == cuts;
  }

  /** Positions `start <= cuts[0] < cuts[1] < ... < n`. */
  predicate Increasing(cuts: seq<nat>, start: nat, n: nat) {
    && start <= n
    && (forall j :: 0 <= j < |cuts| ==> start <= cuts[j] < n)
    && (forall a, b :: 0 <= a < b < |cuts| ==> cuts[a] < cuts[b])
  }

  /** Ranges in order inside `start..n`, one character apart, that leave at most one character uncovered at the end. */
  predicate Tiles(rs: seq<Range>, start: nat, n: nat) {
    && (forall j :: 0 <= j < |rs| ==> start <= rs[j].from <= rs[j].to <= n)
    && (forall j :: 0 <= j < |rs| - 1 ==> rs[j].to + 1 == rs[j + 1].from)
    && (rs != [] ==> rs[0].from == start && n <= rs[|rs| - 1].to + 1)
    && (rs == [] ==> n == start)
  }

  lemma {:induction false} BetweenTiles(cuts: seq<nat>, start: nat, n: nat)
    requires Increasing(cuts, start, n)
    ensures Tiles(Between(cuts, start, n), start, n)
  {
    if cuts != [] {
      BetweenTiles(cuts[1..], cuts[0] + 1, n);
    }
  }

  lemma {:induction false} TilesOrdered(rs: seq<Range>, start: nat, n: nat, a: nat, b: nat)
    requires Tiles(rs, start, n) && a < b < |rs|
    ensures rs[a].to < rs[b].from
    decreases b
  {
    assert rs[b - 1].to + 1 == rs[b - 1 + 1].from;
    if a < b - 1 {
      TilesOrdered(rs, start, n, a, b - 1);
    }
  }

  lemma {:induction false} BetweenEnds(cuts: seq<nat>, start: nat, n: nat, c: nat)
    requires c < n && forall j :: 0 <= j < |cuts| ==> cuts[j] < n
    ensures c in cuts <==> exists r :: r in Between(cuts, start, n) && r.to == c
  {
    var rs := Between(cuts, start, n);
    if cuts != [] {
      BetweenEnds(cuts[1..], cuts[0] + 1, n, c);
      var tail := Between(cuts[1..], cuts[0] + 1, n);
      assert rs == [Range(start, cuts[0])] + tail;
      assert forall r :: r in rs <==> r == Range(start, cuts[0]) || r in tail;
      if c == cuts[0] {
        assert Range(start, cuts[0]) in rs;
      }
      assert c in cuts <==> c == cuts[0] || c in cuts[1..];
    } 
  }

  // ---------------------------------------------------------------- main results

  /** The ranges lie in order, one character apart, and from the first position to the last. */
  lemma {:induction false} RangesTile(s: string)
    ensures Tiles(Ranges(s), 0, |s|)
    ensures forall j :: 0 <= j < |Ranges(s)| ==> Ranges(s)[j].from < |s|
  {
    hide Cuts, Between, Tiles;
    CutsOrdered(s, 0, |s|);
    BetweenTiles(Cuts(s, 0, |s|), 0, |s|);
    BetweenStarts(Cuts(s, 0, |s|), 0, |s|);
  }

  /** No range starts at the end of the text. */
  lemma {:induction false} BetweenStarts(cuts: seq<nat>, start: nat, n: nat)
    requires Increasing(cuts, start, n)
    ensures forall j :: 0 <= j < |Between(cuts, start, n)| ==> Between(cuts, start, n)[j].from < n
  {
    if cuts != [] {
      BetweenStarts(cuts[1..], cuts[0] + 1, n);
    }
  }

  /** A statement ends inside the text exactly at the semicolons that are at top level. */
  lemma {:induction false} CutsAreTopLevelSemicolons(s: string, c: nat)
    ensures IsCut(s, c) <==> exists r :: r in Ranges(s) && r.to == c && c < |s|
  {
    CutsExact(s, 0, |s|, c);
    CutsOrdered(s, 0, |s|);
    if c < |s| {
      BetweenEnds(Cuts(s, 0, |s|), 0, |s|, c);
    }
  }

  /** The text of a range, empty when the range does not fit. */
  function Piece(s: string, r: Range): string {
    if r.from <= r.to <= |s| then s[r.from..r.to] else ""
  }

  /** Statements start at top level. */
  lemma {:induction false} RangeStartsAtTopLevel(s: string, j: nat)
    requires j < |Ranges(s)|
    ensures Ranges(s)[j].from <= Ranges(s)[j].to <= |s| && TopLevel(s, Ranges(s)[j].from)
  {
    hide Element;
    RangesTile(s);
    if 0 < j {
      var c := Ranges(s)[j - 1].to;
      assert Ranges(s)[j - 1] in Ranges(s);
      CutsAreTopLevelSemicolons(s, c);
      ReachesTrans(s, 0, c, c + 1);
    }
  }

  lemma {:induction false} NoCutInside(s: string, j: nat, c: nat)
    requires j < |Ranges(s)| && Ranges(s)[j].from <= c < Ranges(s)[j].to
    ensures !IsCut(s, c)
  {
    hide IsCut, Ranges;
    RangesTile(s);
    CutsAreTopLevelSemicolons(s, c);
    var rs := Ranges(s);
    if IsCut(s, c) {
      var m :| 0 <= m < |rs| && rs[m].to == c;
      if m < j {
        TilesOrdered(rs, 0, |s|, m, j);
      } else if j < m {
        TilesOrdered(rs, 0, |s|, j, m);
      }
    }
  }

  /** A statement contains no cut, and a cut ends it unless the text does. */
  lemma {:induction false} RangeFramed(s: string, j: nat)
    requires j < |Ranges(s)|
    ensures
      var r := Ranges(s)[j];
      && r.from <= r.to <= |s|
      && (r.to < |s| ==> IsCut(s, r.to))
      && Framed(s, r.from, Piece(s, r))
      && Cuts(s, r.from, r.to) == []
  {
    hide Element, Reaches, Ranges;
    RangesTile(s);
    var r := Ranges(s)[j];
    assert r in Ranges(s);
    CutsAreTopLevelSemicolons(s, r.to);
    if Cuts(s, r.from, r.to) != [] {
      var c := Cuts(s, r.from, r.to)[0];
      CutsExact(s, r.from, r.to, c);
      RangeStartsAtTopLevel(s, j);
      ReachesTrans(s, 0, r.from, c);
      NoCutInside(s, j, c);
    }
  }

  /** Cutting one statement again leaves it whole. */
  lemma {:induction false} PieceIsOneStatement(s: string, j: nat)
    requires j < |Ranges(s)|
    ensures Ranges(s)[j].from <= Ranges(s)[j].to <= |s|
    ensures
      var p := Piece(s, Ranges(s)[j]);
      Ranges(p) == if p == "" then [] else [Range(0, |p|)]
  {
    hide Element;
    RangeFramed(s, j);
    var r := Ranges(s)[j];
    var p := Piece(s, r);
    CutsFramed(s, r.from, p, 0, |p|);
    assert |Shift(Cuts(p, 0, |p|), r.from)| == |Cuts(p, 0, |p|)|;
  }

  function Pieces(s: string, rs: seq<Range>): seq<string> {
    if rs == [] then [] else [Piece(s, rs[0])] + Pieces(s, rs[1..])
  }

  lemma {:induction false} JoinCons(p: string, parts: seq<string>, e: string)
    ensures
      Join([p] + parts, ";") + e == if parts == [] then p + e else p + ";" + (Join(parts, ";") + e)
  {
    assert ([p] + parts)[1..] == parts;
    Assoc(p, ";", Join(parts, ";"));
    Assoc(p + ";", Join(parts, ";"), e);
  }

  predicate Semicolons(s: string, cuts: seq<nat>) {
    forall j :: 0 <= j < |cuts| ==> cuts[j] < |s| && s[cuts[j]] == ';'
  }

  predicate EndsWithCut(s: string, cuts: seq<nat>) {
    cuts != [] && cuts[|cuts| - 1] == |s| - 1
  }

  lemma {:induction false} PiecesCons(s: string, start: nat, c: nat, tail: seq<Range>)
    requires start <= c <= |s|
    ensures Pieces(s, [Range(start, c)] + tail) == [s[start..c]] + Pieces(s, tail)
    ensures Pieces(s, tail) == [] <==> tail == []
  {
    assert ([Range(start, c)] + tail)[1..] == tail;
  }

  lemma {:induction false} BetweenRebuilds(s: string, cuts: seq<nat>, start: nat)
    requires Increasing(cuts, start, |s|) && Semicolons(s, cuts)
    ensures s[start..] == Join(Pieces(s, Between(cuts, start, |s|)), ";") + if EndsWithCut(s, cuts) then ";" else ""
  {
    hide *;
    if cuts == [] {
      StartInside(s, cuts, start);
      LastPiece(s, start);
      NoCutEnds(s);
      assert s[start..] + "" == s[start..];
    } else {
      var c, tail := cuts[0], Between(cuts[1..], cuts[0] + 1, |s|);
      FirstCut(s, cuts, start);
      BetweenRebuilds(s, cuts[1..], c + 1);
      PiecesCons(s, start, c, tail);
      JoinCons(s[start..c], Pieces(s, tail), if EndsWithCut(s, cuts) then ";" else "");
      SliceAt(s, start, c);
    }
  }

  lemma {:induction false} StartInside(s: string, cuts: seq<nat>, start: nat)
    requires Increasing(cuts, start, |s|)
    ensures start <= |s|
  {
  }

  lemma {:induction false} NoCutEnds(s: string)
    ensures !EndsWithCut(s, [])
  {
  }

  lemma {:induction false} SliceAt(s: string, start: nat, c: nat)
    requires start <= c < |s| && s[c] == ';'
    ensures s[start..] == s[start..c] + ";" + s[c + 1..]
    ensures c + 1 == |s| ==> s[start..] == s[start..c] + ";"
  {
  }

  lemma {:induction false} LastPiece(s: string, start: nat)
    requires start <= |s|
    ensures s[start..] == Join(Pieces(s, Between([], start, |s|)), ";")
  {
    PiecesCons(s, start, |s|, []);
    assert s[start..|s|] == s[start..];
    assert Pieces(s, [Range(start, |s|)] + []) == [s[start..]];
    assert start < |s| ==> Between([], start, |s|) == [Range(start, |s|)] + [];
  }

  lemma {:induction false} FirstCut(s: string, cuts: seq<nat>, start: nat)
    requires Increasing(cuts, start, |s|) && Semicolons(s, cuts) && cuts != []
    ensures
      var c := cuts[0];
      && start <= c < |s| && s[c] == ';'
      && Increasing(cuts[1..], c + 1, |s|) && Semicolons(s, cuts[1..])
      && Between(cuts, start, |s|) == [Range(start, c)] + Between(cuts[1..], c + 1, |s|)
      && (Between(cuts[1..], c + 1, |s|) == [] <==> c + 1 == |s|)
      && (c + 1 == |s| ==> EndsWithCut(s, cuts))
      && (c + 1 < |s| ==> (EndsWithCut(s, cuts) <==> EndsWithCut(s, cuts[1..])))
  {
  }

  lemma {:induction false} CutsOfText(s: string)
    ensures Increasing(Cuts(s, 0, |s|), 0, |s|) && Semicolons(s, Cuts(s, 0, |s|))
    ensures EndsWithCut(s, Cuts(s, 0, |s|)) <==> s != "" && IsCut(s, |s| - 1)
  {
    hide Element, Reaches, Cuts;
    var cuts := Cuts(s, 0, |s|);
    CutsOrdered(s, 0, |s|);
    forall j | 0 <= j < |cuts| ensures s[cuts[j]] == ';' {
      CutsExact(s, 0, |s|, cuts[j]);
    }
    if s != "" {
      CutsExact(s, 0, |s|, |s| - 1);
    }
  }

  /** The statements, joined by semicolons, are the text, but for a semicolon that ends it. */
  lemma {:induction false} StatementsRebuildText(s: string)
    ensures s == Join(Pieces(s, Ranges(s)), ";") + if s != "" && IsCut(s, |s| - 1) then ";" else ""
  {
    hide Element, Reaches, Cuts, Join, Between, Pieces;
    CutsOfText(s);
    BetweenRebuilds(s, Cuts(s, 0, |s|), 0);
    assert s[0..] == s;
  }

  /** The statements of `a` when a semicolon follows it: the last one counts even when it is empty. */
  function ClosedRanges(a: string): seq<Range> {
    Before(Cuts(a, 0, |a|) + [|a|], 0)
  }

  lemma {:induction false} ClosedBetween(cuts: seq<nat>, start: nat, n: nat)
    requires Increasing(cuts, start, n)
    ensures
      var open, closed := Between(cuts, start, n), Before(cuts + [n], start);
      closed == if open != [] && open[|open| - 1].to == n then open else open + [Range(n, n)]
  {
    if cuts != [] {
      ClosedBetween(cuts[1..], cuts[0] + 1, n);
      assert (cuts + [n])[1..] == cuts[1..] + [n];
    }
  }

  lemma {:induction false} SemicolonStep(t: string, c: nat, k: nat)
    requires c < k <= |t| && t[c] == ';'
    ensures Cuts(t, c, k) == [c] + Cuts(t, c + 1, k)
    ensures Reaches(t, c, c + 1)
    ensures Reaches(t, c + 1, k) ==> Reaches(t, c, k)
  {
    hide Element;
    assert KindAt(t, c) == Plain;
  }

  lemma {:induction false} CutsSemicolonThen(t: string, a: string, m: nat, b: string)
    requires Reaches(a, 0, |a|) && m == |a| + 1 && |t| == m + |b|
    requires Framed(t, 0, a) && Framed(t, m, b) && t[|a|] == ';'
    ensures Cuts(t, 0, |t|) == Cuts(a, 0, |a|) + ([|a|] + Shift(Cuts(b, 0, |b|), m))
    ensures Reaches(b, 0, |b|) ==> Reaches(t, 0, |t|)
  {
    hide *;
    ReachesFramed(t, 0, a, 0, |a|);
    CutsFramed(t, 0, a, 0, |a|);
    ShiftByZero(Cuts(a, 0, |a|));
    CutsFramed(t, m, b, 0, |b|);
    ReachesFramed(t, m, b, 0, |b|);
    SemicolonStep(t, |a|, |t|);
    CutsAppend(t, 0, |a|, |t|);
    var left, right := Cuts(t, 0, |a|), Cuts(t, |a|, |t|);
    assert left == Cuts(a, 0, |a|);
    assert right == [|a|] + Shift(Cuts(b, 0, |b|), m);
    assert Cuts(t, 0, |t|) == left + right;
    if Reaches(b, 0, |b|) {
      ReachesTrans(t, 0, |a|, |t|);
    }
  }

  lemma {:induction false} ShiftByZero(cuts: seq<nat>)
    ensures Shift(cuts, 0) == cuts
  {
    assert forall j :: 0 <= j < |cuts| ==> Shift(cuts, 0)[j] == cuts[j];
  }

  /** The cuts of a text that ends at top level, a semicolon and any other text. */
  lemma {:induction false} CutsOfComposition(a: string, b: string)
    requires TopLevel(a, |a|)
    ensures
      var t := a + ";" + b;
      && Cuts(t, 0, |t|) == Cuts(a, 0, |a|) + ([|a|] + Shift(Cuts(b, 0, |b|), |a| + 1))
      && (TopLevel(b, |b|) ==> TopLevel(t, |t|))
  {
    hide Element, Reaches, Cuts, Shift;
    var t := a + ";" + b;
    var m := |a| + 1;
    assert |t| == m + |b|;
    assert t[0..|a|] == a && t[m..m + |b|] == b;
    CutsSemicolonThen(t, a, m, b);
  }

  /** Splitting composes: a text that ends at top level, a semicolon, and any other text. */
  lemma {:induction false} SplitComposes(a: string, b: string)
    requires TopLevel(a, |a|)
    ensures Ranges(a + ";" + b) == ClosedRanges(a) + ShiftRanges(Ranges(b), |a| + 1)
    ensures
      ClosedRanges(a)
      == if Ranges(a) != [] && Ranges(a)[|Ranges(a)| - 1].to == |a| then Ranges(a) else Ranges(a) + [Range(|a|, |a|)]
  {
    hide Element;
    CutsOfComposition(a, b);
    var m := |a| + 1;
    Assoc(Cuts(a, 0, |a|), [|a|], Shift(Cuts(b, 0, |b|), m));
    BetweenAppend(Cuts(a, 0, |a|) + [|a|], Shift(Cuts(b, 0, |b|), m), 0, m + |b|);
    BetweenShift(Cuts(b, 0, |b|), 0, |b|, m);
    CutsOrdered(a, 0, |a|);
    ClosedBetween(Cuts(a, 0, |a|), 0, |a|);
  }
}
