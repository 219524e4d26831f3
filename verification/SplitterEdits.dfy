/** Editing a document: what an edit in one place leaves unchanged in the split into statements. */
module SplitterEdits {
  import opened Text
  import opened Splitter
  import opened SplitterLaws

  // ---------------------------------------------------------------- a common prefix

  predicate SamePrefix(s: string, t: string, m: nat) {
    m <= |s| && m <= |t| && s[..m] == t[..m]
  }

  lemma {:induction false} PrefixChars(s: string, t: string, m: nat)
    requires SamePrefix(s, t, m)
    ensures forall k :: 0 <= k < m ==> s[k] == t[k]
  {
    assert forall k :: 0 <= k < m ==> s[k] == s[..m][k] == t[..m][k];
  }

  lemma {:induction false} PrefixStringClose(s: string, t: string, m: nat, k: nat)
    requires SamePrefix(s, t, m) && StringClose(s, k).Closed? && StringClose(s, k).end < m
    ensures StringClose(t, k) == StringClose(s, k)
    decreases |s| - k
  {
    PrefixChars(s, t, m);
    if s[k] != '\'' {
      PrefixStringClose(s, t, m, k + 1);
    } else if k + 1 < |s| && s[k + 1] == '\'' {
      PrefixStringClose(s, t, m, k + 2);
    }
  }

  /** A run of word characters ends at the same place in both texts when something else follows in the prefix. */
  lemma {:induction false} PrefixWordEnd(s: string, t: string, m: nat, k: nat, i: nat)
    requires SamePrefix(s, t, m) && k <= i < m && !IsWord(s[i])
    ensures WordEnd(t, k) == WordEnd(s, k) <= i
    decreases i - k
  {
    PrefixChars(s, t, m);
    if k < i && IsWord(s[k]) {
      PrefixWordEnd(s, t, m, k + 1, i);
    }
  }

  lemma {:induction false} PrefixIndexOf(s: string, t: string, m: nat, pat: string, k: nat)
    requires SamePrefix(s, t, m) && IndexOf(s, pat, k).Some? && IndexOf(s, pat, k).value + |pat| <= m
    ensures IndexOf(t, pat, k) == IndexOf(s, pat, k)
  {
    hide IndexOf;
    assert s[0..m] == s[..m] && t[0..m] == t[..m];
    WindowIndexOf(s, 0, s[..m], pat, k);
    WindowIndexOf(t, 0, s[..m], pat, k);
  }

  lemma {:induction false} PrefixKind(s: string, t: string, m: nat, k: nat, i: nat)
    requires SamePrefix(s, t, m) && k < i < m && !IsWord(s[i])
    ensures KindAt(t, k) == KindAt(s, k)
    ensures KindAt(s, k) == DollarQuote ==> WordEnd(t, k + 1) == WordEnd(s, k + 1) <= i
  {
    PrefixChars(s, t, m);
    PrefixWordEnd(s, t, m, k + 1, i);
  }

  lemma {:induction false} PrefixSlice(s: string, t: string, m: nat, k: nat, j: nat)
    requires SamePrefix(s, t, m) && k <= j <= m
    ensures s[k..j] == t[k..j]
  {
    PrefixChars(s, t, m);
  }

  lemma {:induction false} PrefixElement(s: string, t: string, m: nat, k: nat, i: nat)
    requires SamePrefix(s, t, m) && k < i < m && !IsWord(s[i])
    requires Element(s, k).Closed? && Element(s, k).end <= i
    ensures Element(t, k) == Element(s, k)
  {
    PrefixKind(s, t, m, k, i);
    assert k + 1 <= |t|;
    hide IndexOf, WordEnd, KindAt, SamePrefix, StringClose;
    match KindAt(s, k)
    case Literal => PrefixStringClose(s, t, m, k + 1);
    case Identifier => PrefixIndexOf(s, t, m, "\"", k + 1);
    case LineComment => PrefixIndexOf(s, t, m, "\n", k + 1);
    case BlockComment => PrefixIndexOf(s, t, m, "*/", k + 2);
    case DollarQuote =>
      var j := WordEnd(s, k + 1) + 1;
      PrefixSlice(s, t, m, k, j);
      PrefixIndexOf(s, t, m, s[k..j], j);
    case Plain =>
  }

  lemma {:induction false} PrefixCuts(s: string, t: string, m: nat, k: nat, i: nat)
    requires SamePrefix(s, t, m) && k <= i < m && !IsWord(s[i]) && Reaches(s, k, i)
    ensures Reaches(t, k, i) && Cuts(t, k, i) == Cuts(s, k, i)
    decreases i - k
  {
    hide Element;
    if k < i {
      PrefixElement(s, t, m, k, i);
      assert s[k] == s[..m][k] == t[..m][k] == t[k];
      ReachesBounds(s, Element(s, k).end, i);
      PrefixCuts(s, t, m, Element(s, k).end, i);
    }
  }

  lemma {:induction false} ReachesBounds(s: string, i: nat, k: nat)
    requires k <= |s| && Reaches(s, i, k)
    ensures i <= k
  {
  }

  // ---------------------------------------------------------------- how elements end

  lemma {:induction false} StringCloseLast(s: string, i: nat)
    requires StringClose(s, i).Closed?
    ensures i < StringClose(s, i).end <= |s| && s[StringClose(s, i).end - 1] == '\''
    decreases |s| - i
  {
    if s[i] != '\'' {
      StringCloseLast(s, i + 1);
    } else if i + 1 < |s| && s[i + 1] == '\'' {
      StringCloseLast(s, i + 2);
    }
  }

  lemma {:induction false} FoundLast(s: string, pat: string, i: nat)
    requires IndexOf(s, pat, i).Some? && pat != ""
    ensures var e := IndexOf(s, pat, i).value + |pat|; e <= |s| && s[e - 1] == pat[|pat| - 1]
  {
    IndexOfFirst(s, pat, i);
    var p := IndexOf(s, pat, i).value;
    assert s[p..p + |pat|][|pat| - 1] == pat[|pat| - 1];
  }

  /** Only a line comment and a single character can end in a space character. */
  lemma {:induction false} ElementLastChar(s: string, i: nat)
    requires i < |s| && Element(s, i).Closed?
    ensures
      var e := Element(s, i).end;
      e == i + 1 || KindAt(s, i) == LineComment || !IsSpace(s[e - 1])
  {
    hide IndexOf, WordEnd;
    match KindAt(s, i)
    case Literal => StringCloseLast(s, i + 1);
    case Identifier => FoundLast(s, "\"", i + 1);
    case LineComment =>
    case BlockComment => FoundLast(s, "*/", i + 2);
    case DollarQuote =>
      var j := WordEnd(s, i + 1) + 1;
      FoundLast(s, s[i..j], j);
    case Plain =>
  }

  /** A line comment ends right before the first newline. */
  lemma {:induction false} LineCommentEnd(s: string, i: nat)
    requires i < |s| && KindAt(s, i) == LineComment
    ensures Element(s, i).Closed? ==> Element(s, i).end < |s| && s[Element(s, i).end] == '\n'
    ensures forall k :: i < k < |s| && (Element(s, i).Closed? ==> k < Element(s, i).end) ==> s[k] != '\n'
  {
    hide StringClose, DollarClose;
    IndexOfFirst(s, "\n", i + 1);
    AtOne(s, '\n');
  }

  /** A newline before a top-level position is itself at top level. */
  lemma {:induction false} NewlineAtTopLevel(s: string, i: nat, k: nat)
    requires i < k <= |s| && Reaches(s, i, k) && s[k - 1] == '\n'
    ensures Reaches(s, i, k - 1)
    decreases k - i
  {
    var e := Element(s, i).end;
    ElementLastChar(s, i);
    ReachesBounds(s, e, k);
    if e == k {
      if KindAt(s, i) == LineComment {
        LineCommentEnd(s, i);
        assert s[k - 1] != '\n' || i == k - 1;
      }
    } else {
      hide Element;
      NewlineAtTopLevel(s, e, k);
    }
  }

  /** The whole lines `g` at the start of a text are read the same way whatever follows them. */
  lemma {:induction false} LinesReadAlike(g: string, x: string, y: string)
    requires g == "" || g[|g| - 1] == '\n'
    requires TopLevel(g + x, |g|)
    ensures TopLevel(g + y, |g|) && Cuts(g + y, 0, |g|) == Cuts(g + x, 0, |g|)
  {
    hide Element;
    if g != "" {
      var s, t, i := g + x, g + y, |g| - 1;
      NewlineAtTopLevel(s, 0, |g|);
      assert s[..|g|] == g == t[..|g|];
      PrefixCuts(s, t, |g|, 0, i);
      PlainStep(s, i);
      PlainStep(t, i);
      ReachesTrans(t, 0, i, |g|);
      CutsAppend(s, 0, i, |g|);
      CutsAppend(t, 0, i, |g|);
    }
  }

  lemma {:induction false} PlainStep(s: string, i: nat)
    requires i < |s| && KindAt(s, i) == Plain
    ensures Reaches(s, i, i + 1)
    ensures Cuts(s, i, i + 1) == if s[i] == ';' then [i] else []
  {
    hide Element, KindAt;
  }

  /** Space characters are read one by one. */
  lemma {:induction false} SpaceReads(s: string, i: nat, k: nat)
    requires i <= k <= |s| && forall j :: i <= j < k ==> IsSpace(s[j])
    ensures Reaches(s, i, k) && Cuts(s, i, k) == []
    decreases k - i
  {
    hide Element;
    if i < k {
      assert KindAt(s, i) == Plain;
      SpaceReads(s, i + 1, k);
    }
  }

  // ---------------------------------------------------------------- texts of ranges

  lemma {:induction false} BeforeFits(cuts: seq<nat>, start: nat, n: nat, j: nat)
    requires Increasing(cuts, start, n) && j < |cuts|
    ensures Before(cuts, start)[j].from <= Before(cuts, start)[j].to < n
  {
    if 0 < j {
      BeforeFits(cuts[1..], cuts[0] + 1, n, j - 1);
    }
  }

  lemma {:induction false} PieceOfHead(p: string, z: string, r: Range)
    requires r.from <= r.to <= |p|
    ensures Piece(p + z, r) == Piece(p, r)
  {
    assert (p + z)[r.from..r.to] == p[r.from..r.to];
  }

  lemma {:induction false} PieceOfTail(c: string, b: string, r: Range)
    requires r.from <= r.to <= |b|
    ensures Piece(c + b, Range(r.from + |c|, r.to + |c|)) == Piece(b, r)
  {
    assert (c + b)[r.from + |c|..r.to + |c|] == b[r.from..r.to];
  }

  lemma {:induction false} ShiftOfNone(d: nat)
    ensures Shift([], d) == []
  {
  }

  // ---------------------------------------------------------------- one statement in its document

  /** One statement: no cut inside, and, when something follows it, it ends at top level. */
  predicate Whole(u: string, closed: bool) {
    Cuts(u, 0, |u|) == [] && (closed ==> TopLevel(u, |u|))
  }

  /** The text before a statement: empty, or a text that ends with a top-level semicolon. */
  predicate Opens(p: string) {
    p == "" || (p[|p| - 1] == ';' && TopLevel(p, |p| - 1))
  }

  /** The statement `u` and, if `more`, a semicolon and the text `b`. */
  function Onward(u: string, more: bool, b: string): string {
    if more then u + ";" + b else u
  }

  /** A document: the text `p`, the statement `u`, and what follows. */
  function Doc(p: string, u: string, more: bool, b: string): string {
    p + Onward(u, more, b)
  }

  /** The ranges from a statement of length `len` at `d` on. */
  function RangesOnward(d: nat, len: nat, more: bool, b: string): seq<Range> {
    if more then [Range(d, d + len)] + ShiftRanges(Ranges(b), d + len + 1) else [Range(d, d + len)]
  }

  /** The ranges of `Doc(p, u, more, b)` when `u` has length `len`. */
  function Layout(p: string, len: nat, more: bool, b: string): seq<Range> {
    Before(Cuts(p, 0, |p|), 0) + RangesOnward(|p|, len, more, b)
  }

  lemma {:induction false} CutsOfHead(p: string, z: string)
    requires Opens(p)
    ensures TopLevel(p + z, |p|) && Cuts(p + z, 0, |p|) == Cuts(p, 0, |p|)
    ensures NextStart(Cuts(p, 0, |p|), 0) == |p|
  {
    hide Element;
    if p != "" {
      var t, i := p + z, |p| - 1;
      assert p[..|p|] == p == t[..|p|];
      PrefixCuts(p, t, |p|, 0, i);
      PlainStep(p, i);
      PlainStep(t, i);
      ReachesTrans(t, 0, i, |p|);
      CutsAppend(t, 0, i, |p|);
      CutsAppend(p, 0, i, |p|);
    }
  }

  /** The cuts from the statement on. */
  function CutsOnward(d: nat, len: nat, more: bool, b: string): seq<nat> {
    if more then [d + len] + Shift(Cuts(b, 0, |b|), d + len + 1) else []
  }

  lemma {:induction false} CutsFromStatement(t: string, d: nat, u: string, more: bool, b: string)
    requires Whole(u, more) && d <= |t| && t[d..] == Onward(u, more, b)
    ensures Cuts(t, d, |t|) == CutsOnward(d, |u|, more, b)
  {
    hide Element, Reaches, Cuts, Shift;
    var m := d + |u|;
    Assoc(u, ";", b);
    assert u + "" == u;
    SuffixSplit(t, d, u, if more then ";" + b else "");
    assert Framed(t, d, u);
    if more {
      SuffixSplit(t, m, ";", b);
      CutsFramed(t, d, u, 0, |u|);
      ShiftOfNone(d);
      ReachesFramed(t, d, u, 0, |u|);
      CutsAppend(t, d, m, |t|);
      SemicolonStep(t, m, |t|);
      assert t[m + 1..m + 1 + |b|] == b;
      CutsFramed(t, m + 1, b, 0, |b|);
    } else {
      CutsFramed(t, d, u, 0, |u|);
      ShiftOfNone(d);
    }
  }

  lemma {:induction false} LayoutOfCuts(p: string, t: string, len: nat, more: bool, b: string, rest: seq<nat>)
    requires Cuts(t, 0, |t|) == Cuts(p, 0, |p|) + rest && NextStart(Cuts(p, 0, |p|), 0) == |p|
    requires Between(rest, |p|, |t|) == RangesOnward(|p|, len, more, b)
    ensures Ranges(t) == Layout(p, len, more, b)
  {
    hide Cuts, Between, Before, RangesOnward, NextStart;
    BetweenAppend(Cuts(p, 0, |p|), rest, 0, |t|);
  }

  lemma {:induction false} DocCuts(p: string, u: string, more: bool, b: string)
    requires Opens(p) && Whole(u, more)
    ensures
      var t := Doc(p, u, more, b);
      && |t| == |p| + |u| + (if more then 1 + |b| else 0)
      && Cuts(t, 0, |t|) == Cuts(p, 0, |p|) + CutsOnward(|p|, |u|, more, b)
      && NextStart(Cuts(p, 0, |p|), 0) == |p|
  {
    var z, t, d := Onward(u, more, b), Doc(p, u, more, b), |p|;
    assert t == p + z && t[d..] == z && |t| == d + |u| + (if more then 1 + |b| else 0);
    hide Cuts, Opens, Whole, Reaches, CutsOnward, NextStart, Doc, Onward;
    CutsOfHead(p, z);
    CutsFromStatement(t, d, u, more, b);
    CutsAppend(t, 0, d, |t|);
  }

  lemma {:induction false} BetweenOnward(d: nat, len: nat, more: bool, b: string)
    requires len > 0 || more
    ensures
      Between(CutsOnward(d, len, more, b), d, d + len + (if more then 1 + |b| else 0)) == RangesOnward(d, len, more, b)
  {
    if more {
      LastPartMore(d, len, b);
    }
  }

  lemma {:induction false} DocRanges(p: string, u: string, more: bool, b: string)
    requires Opens(p) && Whole(u, more) && (u != "" || more)
    ensures Ranges(Doc(p, u, more, b)) == Layout(p, |u|, more, b)
  {
    var t, d := Doc(p, u, more, b), |p|;
    hide *;
    DocCuts(p, u, more, b);
    BetweenOnward(d, |u|, more, b);
    LayoutOfCuts(p, t, |u|, more, b, CutsOnward(d, |u|, more, b));
  }

  lemma {:induction false} LastPartMore(d: nat, len: nat, b: string)
    ensures
      Between([d + len] + Shift(Cuts(b, 0, |b|), d + len + 1), d, d + len + (1 + |b|))
      == RangesOnward(d, len, true, b)
  {
    hide Cuts, Shift;
    BetweenShift(Cuts(b, 0, |b|), 0, |b|, d + len + 1);
    assert ([d + len] + Shift(Cuts(b, 0, |b|), d + len + 1))[1..] == Shift(Cuts(b, 0, |b|), d + len + 1);
  }

  lemma {:induction false} TextAroundRange(t: string, r: Range)
    requires r.from <= r.to <= |t| && (r.to < |t| ==> t[r.to] == ';')
    ensures t == Doc(t[..r.from], Piece(t, r), r.to < |t|, if r.to < |t| then t[r.to + 1..] else "")
  {
    assert r.to < |t| ==> t == t[..r.from] + (t[r.from..r.to] + ";" + t[r.to + 1..]);
    assert r.to == |t| ==> t == t[..r.from] + t[r.from..r.to];
  }

  /** A document taken apart around its statement number `j`. */
  lemma {:induction false} DocOfRange(t: string, j: nat)
    requires j < |Ranges(t)|
    ensures
      var r := Ranges(t)[j];
      && r.from <= r.to <= |t|
      && Opens(t[..r.from]) && |Cuts(t[..r.from], 0, r.from)| == j
      && Whole(Piece(t, r), r.to < |t|)
      && t == Doc(t[..r.from], Piece(t, r), r.to < |t|, if r.to < |t| then t[r.to + 1..] else "")
      && (Piece(t, r) != "" || r.to < |t|)
  {
    RangeOpens(t, j);
    StatementIsWhole(t, j);
    var r := Ranges(t)[j];
    assert Piece(t, r) != "" || r.to < |t|;
    hide *;
    TextAroundRange(t, r);
    var p, u, more, b := t[..r.from], Piece(t, r), r.to < |t|, if r.to < |t| then t[r.to + 1..] else "";
    DocHasRange(p, u, more, b, j, t);
  }

  lemma {:induction false} OpensAfterCut(t: string, c: nat)
    requires IsCut(t, c)
    ensures Opens(t[..c + 1])
  {
    hide Element, Reaches;
    var p := t[..c + 1];
    assert p[..c + 1] == t[..c + 1];
    PrefixCuts(t, p, c + 1, 0, c);
  }

  lemma {:induction false} RangeOpens(t: string, j: nat)
    requires j < |Ranges(t)|
    ensures Ranges(t)[j].from <= |t| && Opens(t[..Ranges(t)[j].from])
  {
    RangesTile(t);
    if j > 0 {
      RangeFramed(t, j - 1);
      hide IsCut, Opens, Ranges;
      var c := Ranges(t)[j - 1].to;
      assert Ranges(t)[j - 1 + 1].from == c + 1;
      OpensAfterCut(t, c);
    } else {
      assert t[..0] == "";
    }
  }

  /** A statement of a document is one statement by itself. */
  lemma {:induction false} StatementIsWhole(t: string, j: nat)
    requires j < |Ranges(t)|
    ensures
      var r := Ranges(t)[j];
      && r.from <= r.to <= |t| && (r.to < |t| ==> t[r.to] == ';') && (r.from < r.to || r.to < |t|)
      && Whole(Piece(t, r), r.to < |t|)
  {
    hide Element, Ranges;
    RangeFramed(t, j);
    RangesTile(t);
    var r := Ranges(t)[j];
    var u := Piece(t, r);
    CutsFramed(t, r.from, u, 0, |u|);
    assert |Shift(Cuts(u, 0, |u|), r.from)| == |Cuts(u, 0, |u|)|;
    RangeStartsAtTopLevel(t, j);
    if r.to < |t| {
      ReachesLinear(t, 0, r.from, r.to);
      ReachesFramed(t, r.from, u, 0, |u|);
    } else {
      LastRangeNotEmpty(t, j);
    }
  }

  lemma {:induction false} LastRangeNotEmpty(t: string, j: nat)
    requires j < |Ranges(t)| && Ranges(t)[j].to == |t|
    ensures Ranges(t)[j].from < |t|
  {
    hide Element;
    CutsOrdered(t, 0, |t|);
    BetweenEndNotEmpty(Cuts(t, 0, |t|), 0, |t|, j);
  }

  lemma {:induction false} BetweenEndNotEmpty(cuts: seq<nat>, start: nat, n: nat, j: nat)
    requires Increasing(cuts, start, n) && j < |Between(cuts, start, n)| && Between(cuts, start, n)[j].to == n
    ensures Between(cuts, start, n)[j].from < n
  {
    if cuts != [] && j > 0 {
      BetweenEndNotEmpty(cuts[1..], cuts[0] + 1, n, j - 1);
    }
  }

  /** The statement that starts behind `p` comes after as many ranges as `p` has cuts. */
  lemma {:induction false} DocHasRange(p: string, u: string, more: bool, b: string, j: nat, t: string)
    requires Opens(p) && Whole(u, more) && (u != "" || more) && t == Doc(p, u, more, b)
    requires j < |Ranges(t)| && Ranges(t)[j].from == |p|
    ensures |Cuts(p, 0, |p|)| == j
  {
    DocRanges(p, u, more, b);
    RangesTile(t);
    var k := |Cuts(p, 0, |p|)|;
    hide Cuts, Ranges, Opens, Whole;
    assert Ranges(t)[k] == Range(|p|, |p| + |u|);
    if k < j {
      TilesOrdered(Ranges(t), 0, |t|, k, j);
    } else if j < k {
      TilesOrdered(Ranges(t), 0, |t|, j, k);
    }
  }
}
