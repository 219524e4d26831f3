/** A guarded value in a literal cannot change the split of a document into statements. */
module GuardedValues {
  import opened Text
  import opened Splitter
  import opened SplitterLaws
  import opened SplitterEdits
  import opened SqlValues
  import opened Lexemes
  import opened SplitterMeaning

  /** The literal that opens at top-level position `i` of `a` is still open where `a` ends. */
  predicate InLiteral(a: string, i: nat) {
    i < |a| && TopLevel(a, i) && a[i] == '\'' && StringClose(a, i + 1).Open?
  }

  /** The document `a`, the value, and the document `b`. */
  function Fill(a: string, v: string, b: string): string {
    a + v + b
  }

  // ---------------------------------------------------------------- through the value

  /** An unclosed literal goes on into whatever follows. */
  lemma {:induction false} LiteralGoesOn(a: string, z: string, k: nat)
    requires k <= |a| && StringClose(a, k).Open?
    ensures StringClose(a + z, k) == StringClose(a + z, |a|)
    decreases |a| - k
  {
    if k < |a| {
      if a[k] != '\'' {
        LiteralGoesOn(a, z, k + 1);
      } else {
        LiteralGoesOn(a, z, k + 2);
      }
    }
  }

  lemma {:induction false} LiteralPassesValue(t: string, k: nat, m: nat)
    requires k <= m <= |t| && forall j :: k <= j < m ==> t[j] != '\''
    ensures StringClose(t, k) == StringClose(t, m)
    decreases m - k
  {
    if k < m {
      LiteralPassesValue(t, k + 1, m);
    }
  }

  /** The cuts of `b` when reading it starts inside a literal. */
  function CutsFromLiteral(b: string): seq<nat> {
    match StringClose(b, 0)
    case Open => []
    case Closed(x) => Cuts(b, x, |b|)
  }

  /** Around a quoted value the cuts are those before the literal and those after it. */
  lemma {:induction false} CutsAroundValue(a: string, i: nat, v: string, b: string)
    requires InLiteral(a, i) && '\'' !in v
    ensures
      var t := Fill(a, v, b);
      Cuts(t, 0, |t|) == Cuts(a, 0, i) + Shift(CutsFromLiteral(b), |a| + |v|)
  {
    hide Element, Reaches, Cuts, StringClose;
    var t, d := a + v + b, |a| + |v|;
    assert SamePrefix(a, t, |a|) by {
      assert t[..|a|] == a == a[..|a|];
    }
    PrefixCuts(a, t, |a|, 0, i);
    assert Framed(t, d, b) by {
      assert t[d..d + |b|] == b;
    }
    Assoc(a, v, b);
    LiteralGoesOn(a, v + b, i + 1);
    assert forall j :: |a| <= j < d ==> t[j] == v[j - |a|];
    LiteralPassesValue(t, |a|, d);
    FramedStringClose(t, d, b, 0);
    assert t[i] == a[i];
    CutsAppend(t, 0, i, |t|);
    CutsAfterLiteral(t, i, d, b);
  }

  lemma {:induction false} CutsAfterClosed(t: string, i: nat, e: nat, k: nat)
    requires i < k <= |t| && t[i] != ';' && Element(t, i) == Closed(e)
    ensures Cuts(t, i, k) == Cuts(t, e, k)
  {
    hide Element;
  }

  lemma {:induction false} NoCutsAfterOpen(t: string, i: nat, k: nat)
    requires i < k <= |t| && Element(t, i).Open?
    ensures Cuts(t, i, k) == []
  {
    hide Element;
  }

  /** In the last part `b` of a text, a literal closes where it closes in `b`. */
  lemma {:induction false} LiteralInSuffix(t: string, d: nat, b: string)
    requires Framed(t, d, b) && |t| == d + |b|
    ensures StringClose(b, 0).Open? ==> StringClose(t, d).Open? && CutsFromLiteral(b) == []
    ensures
      StringClose(b, 0).Closed? ==>
        && StringClose(t, d) == Closed(StringClose(b, 0).end + d)
        && CutsFromLiteral(b) == Cuts(b, StringClose(b, 0).end, |b|)
  {
    hide StringClose;
    FramedStringClose(t, d, b, 0);
    StringCloseBound(t, d);
  }

  lemma {:induction false} LiteralIsElement(t: string, i: nat)
    requires i < |t| && t[i] == '\''
    ensures Element(t, i) == StringClose(t, i + 1)
  {
  }

  lemma {:induction false} CutsAfterLiteral(t: string, i: nat, d: nat, b: string)
    requires i < d && |t| == d + |b| && Framed(t, d, b) && t[i] == '\''
    requires StringClose(t, i + 1) == StringClose(t, d)
    ensures Cuts(t, i, |t|) == Shift(CutsFromLiteral(b), d)
  {
    assert i < |t|;
    hide *;
    LiteralIsElement(t, i);
    LiteralInSuffix(t, d, b);
    if StringClose(b, 0).Open? {
      NoCutsAfterOpen(t, i, |t|);
      ShiftOfNone(d);
    } else {
      CutsBehindLiteral(t, i, d, b, StringClose(b, 0).end);
    }
  }

  lemma {:induction false} CutsOfTail(t: string, d: nat, b: string, x: nat, n: nat)
    requires Framed(t, d, b) && n == |t| == d + |b|
    ensures Cuts(t, x + d, n) == Shift(Cuts(b, x, |b|), d)
  {
    hide Cuts, Shift, Framed;
    CutsFramed(t, d, b, x, |b|);
  }

  lemma {:induction false} CutsBehindLiteral(t: string, i: nat, d: nat, b: string, x: nat)
    requires i < d && |t| == d + |b| && Framed(t, d, b) && t[i] == '\'' && Element(t, i) == Closed(x + d)
    ensures Cuts(t, i, |t|) == Shift(Cuts(b, x, |b|), d)
  {
    hide Cuts, Shift, Framed, Element;
    var n := |t|;
    CutsOfTail(t, d, b, x, n);
    CutsAfterClosed(t, i, x + d, n);
  }

  lemma {:induction false} StringCloseBound(t: string, d: nat)
    ensures StringClose(t, d).Closed? ==> StringClose(t, d).end <= |t|
  {
  }

  // ---------------------------------------------------------------- the statements

  /** The part of the statement before the value, and the part behind it. */
  function StatementHead(a: string, i: nat): string
    requires i <= |a|
  {
    var from := NextStart(Cuts(a, 0, i), 0);
    if from <= |a| then a[from..] else ""
  }

  function StatementTail(b: string): string {
    var rest := CutsFromLiteral(b);
    if rest == [] || rest[0] > |b| then b else b[..rest[0]]
  }

  lemma {:induction false} CutsFromLiteralIncrease(b: string)
    ensures Increasing(CutsFromLiteral(b), 0, |b|)
  {
    hide Cuts, StringClose;
    match StringClose(b, 0)
    case Open =>
    case Closed(x) => CutsOrdered(b, x, |b|);
  }

  lemma {:induction false} HeadStart(a: string, i: nat)
    requires i <= |a|
    ensures NextStart(Cuts(a, 0, i), 0) <= i
  {
    CutsOrdered(a, 0, i);
  }

  /** The ranges from the one that holds the value on. */
  function RangesFromValue(b: string, from: nat, d: nat): seq<Range> {
    var rest := CutsFromLiteral(b);
    if rest == [] then [Range(from, d + |b|)]
    else [Range(from, d + rest[0])] + ShiftRanges(Between(rest[1..], rest[0] + 1, |b|), d)
  }

  /** The ranges of the filled document: those before the value, the one with it, those behind it. */
  function RangesAround(a: string, i: nat, v: string, b: string): seq<Range>
    requires i <= |a|
  {
    Before(Cuts(a, 0, i), 0) + RangesFromValue(b, NextStart(Cuts(a, 0, i), 0), |a| + |v|)
  }

  lemma {:induction false} BetweenAround(cuts: seq<nat>, b: string, d: nat)
    requires NextStart(cuts, 0) < d
    ensures
      Between(cuts + Shift(CutsFromLiteral(b), d), 0, d + |b|)
      == Before(cuts, 0) + RangesFromValue(b, NextStart(cuts, 0), d)
  {
    hide Between, CutsFromLiteral, RangesFromValue, Before, Shift;
    BetweenAppend(cuts, Shift(CutsFromLiteral(b), d), 0, d + |b|);
    BetweenFromValue(b, NextStart(cuts, 0), d);
  }

  lemma {:induction false} RangesAroundValue(a: string, i: nat, v: string, b: string)
    requires InLiteral(a, i) && '\'' !in v
    ensures Ranges(Fill(a, v, b)) == RangesAround(a, i, v, b)
  {
    hide Between, Cuts, Reaches, Element, StringClose, CutsFromLiteral, Shift, RangesFromValue, Before;
    CutsAroundValue(a, i, v, b);
    HeadStart(a, i);
    BetweenAround(Cuts(a, 0, i), b, |a| + |v|);
  }

  lemma {:induction false} BetweenFromValue(b: string, from: nat, d: nat)
    requires from < d
    ensures Between(Shift(CutsFromLiteral(b), d), from, d + |b|) == RangesFromValue(b, from, d)
  {
    hide CutsFromLiteral;
    var rest := CutsFromLiteral(b);
    if rest != [] {
      assert Shift(rest, d)[1..] == Shift(rest[1..], d);
      BetweenShift(rest[1..], rest[0] + 1, |b|, d);
    }
  }

  /** Pieces of the statements other than the one with the value do not depend on the value. */
  lemma {:induction false} PieceBeforeValue(a: string, i: nat, v: string, b: string, j: nat)
    requires InLiteral(a, i) && '\'' !in v && j < |Cuts(a, 0, i)|
    ensures j < |Ranges(Fill(a, v, b))|
    ensures Piece(Fill(a, v, b), Ranges(Fill(a, v, b))[j]) == Piece(a, Before(Cuts(a, 0, i), 0)[j])
  {
    RangesAroundValue(a, i, v, b);
    CutsOrderedInA(a, i);
    hide Ranges, Cuts, CutsFromLiteral, InLiteral, RangesFromValue, Increasing, Piece;
    var cuts := Cuts(a, 0, i);
    BeforeFits(cuts, 0, |a|, j);
    FillIs(a, v, b);
    Assoc(a, v, b);
    PieceOfHead(a, v + b, Before(cuts, 0)[j]);
  }

  /** The ranges behind the one with the value, as ranges of `b`. */
  function RangesAfter(b: string): seq<Range> {
    var rest := CutsFromLiteral(b);
    if rest == [] then [] else Between(rest[1..], rest[0] + 1, |b|)
  }

  lemma {:induction false} FromValueParts(b: string, from: nat, d: nat)
    ensures
      var rs := RangesFromValue(b, from, d);
      |rs| > 0 && rs == [rs[0]] + ShiftRanges(RangesAfter(b), d)
  {
  }

  lemma {:induction false} RangesAfterFit(b: string, k: nat)
    requires k < |RangesAfter(b)|
    ensures RangesAfter(b)[k].from <= RangesAfter(b)[k].to <= |b|
  {
    CutsFromLiteralIncrease(b);
    var rest := CutsFromLiteral(b);
    BetweenTiles(rest[1..], rest[0] + 1, |b|);
  }

  lemma {:induction false} AroundIs(a: string, i: nat, v: string, b: string)
    requires i <= |a|
    ensures
      RangesAround(a, i, v, b) == Before(Cuts(a, 0, i), 0) + RangesFromValue(b, NextStart(Cuts(a, 0, i), 0), |a + v|)
  {
    hide Cuts, Before, RangesFromValue, NextStart;
  }

  lemma {:induction false} LiteralStarts(a: string, i: nat)
    requires InLiteral(a, i)
    ensures i <= |a|
  {
  }

  /** The ranges of the filled document: as many as cuts before the literal, one with the value, those of `b` shifted. */
  lemma {:induction false} AroundParts(a: string, i: nat, v: string, b: string) returns (before: seq<Range>, own: Range)
    requires InLiteral(a, i) && '\'' !in v
    ensures |before| == |Cuts(a, 0, i)|
    ensures Ranges(Fill(a, v, b)) == before + ([own] + ShiftRanges(RangesAfter(b), |a + v|))
  {
    hide *;
    LiteralStarts(a, i);
    RangesAroundValue(a, i, v, b);
    AroundIs(a, i, v, b);
    var start := NextStart(Cuts(a, 0, i), 0);
    FromValueParts(b, start, |a + v|);
    before, own := Before(Cuts(a, 0, i), 0), RangesFromValue(b, start, |a + v|)[0];
  }

  lemma {:induction false} PieceAfterValue(a: string, i: nat, v: string, b: string, j: nat)
    requires InLiteral(a, i) && '\'' !in v && |Cuts(a, 0, i)| < j < |Ranges(Fill(a, v, b))|
    ensures j - |Cuts(a, 0, i)| - 1 < |RangesAfter(b)|
    ensures Piece(Fill(a, v, b), Ranges(Fill(a, v, b))[j]) == Piece(b, RangesAfter(b)[j - |Cuts(a, 0, i)| - 1])
  {
    hide *;
    var before, own := AroundParts(a, i, v, b);
    var c, k := a + v, j - |before| - 1;
    BehindTwo(before, own, ShiftRanges(RangesAfter(b), |c|), j);
    ShiftedPiece(c, b, k);
    FillIs(a, v, b);
  }

  lemma {:induction false} FillIs(a: string, v: string, b: string)
    ensures Fill(a, v, b) == a + v + b
  {
  }

  lemma {:induction false} ShiftedPiece(c: string, b: string, k: nat)
    requires k < |ShiftRanges(RangesAfter(b), |c|)|
    ensures k < |RangesAfter(b)| && Piece(c + b, ShiftRanges(RangesAfter(b), |c|)[k]) == Piece(b, RangesAfter(b)[k])
  {
    hide Piece, RangesAfter;
    RangesAfterFit(b, k);
    PieceOfTail(c, b, RangesAfter(b)[k]);
  }

  lemma {:induction false} BehindTwo<T>(x: seq<T>, r: T, z: seq<T>, j: nat)
    requires |x| < j < |x + ([r] + z)|
    ensures j - |x| - 1 < |z| && (x + ([r] + z))[j] == z[j - |x| - 1]
  {
  }

  lemma {:induction false} CutsOrderedInA(a: string, i: nat)
    requires InLiteral(a, i)
    ensures Increasing(Cuts(a, 0, i), 0, |a|)
  {
    CutsOrdered(a, 0, i);
  }

  lemma {:induction false} ValueRange(a: string, i: nat, v: string, b: string)
    requires InLiteral(a, i) && '\'' !in v
    ensures
      var m := |Cuts(a, 0, i)|;
      && m < |Ranges(Fill(a, v, b))|
      && Ranges(Fill(a, v, b))[m] == Range(NextStart(Cuts(a, 0, i), 0), |a| + |v| + |StatementTail(b)|)
  {
    CutsFromLiteralIncrease(b);
    hide Ranges, Cuts, CutsFromLiteral, Before, InLiteral;
    RangesAroundValue(a, i, v, b);
  }

  lemma {:induction false} ValuePiece(a: string, i: nat, v: string, b: string)
    requires InLiteral(a, i) && '\'' !in v
    ensures
      var rs, m := Ranges(Fill(a, v, b)), |Cuts(a, 0, i)|;
      m < |rs| && Piece(Fill(a, v, b), rs[m]) == StatementHead(a, i) + v + StatementTail(b)
  {
    HeadStart(a, i);
    hide Ranges, Cuts, CutsFromLiteral, Before, Fill, Piece, NextStart;
    ValueRange(a, i, v, b);
    FilledPiece(a, v, b, NextStart(Cuts(a, 0, i), 0), |StatementTail(b)|);
  }

  lemma {:induction false} FilledPiece(a: string, v: string, b: string, from: nat, y: nat)
    requires from <= |a| && y <= |b|
    ensures Piece(Fill(a, v, b), Range(from, |a| + |v| + y)) == a[from..] + v + b[..y]
  {
    assert (a + v + b)[from..|a| + |v| + y] == a[from..] + v + b[..y];
  }

  /**
   * Putting one guarded value in the place of another, where the splitter is inside a single-quoted literal:
   * the same number of statements, the same text in all but one, and in that one nothing but the value differs.
   */
  lemma {:induction false} GuardedValueKeepsStatements(a: string, i: nat, v: string, w: string, b: string)
    requires InLiteral(a, i) && SqlSafe(v) && SqlSafe(w)
    ensures |Ranges(Fill(a, v, b))| == |Ranges(Fill(a, w, b))|
    ensures
      var s, t := Fill(a, v, b), Fill(a, w, b);
      var m := |Cuts(a, 0, i)|;
      && m < |Ranges(s)|
      && (forall j :: 0 <= j < |Ranges(s)| && j != m ==> Piece(s, Ranges(s)[j]) == Piece(t, Ranges(t)[j]))
      && Piece(s, Ranges(s)[m]) == StatementHead(a, i) + v + StatementTail(b)
      && Piece(t, Ranges(t)[m]) == StatementHead(a, i) + w + StatementTail(b)
  {
    SafeHasNoQuote(v);
    SafeHasNoQuote(w);
    var s, t, m := Fill(a, v, b), Fill(a, w, b), |Cuts(a, 0, i)|;
    hide *;
    RangesAroundSame(a, i, v, w, b);
    ValuePiece(a, i, v, b);
    ValuePiece(a, i, w, b);
    forall j | 0 <= j < |Ranges(s)| && j != m ensures Piece(s, Ranges(s)[j]) == Piece(t, Ranges(t)[j]) {
      if j < m {
        PieceBeforeValue(a, i, v, b, j);
        PieceBeforeValue(a, i, w, b, j);
      } else {
        PieceAfterValue(a, i, v, b, j);
        PieceAfterValue(a, i, w, b, j);
      }
    }
  }

  lemma {:induction false} RangesAroundSame(a: string, i: nat, v: string, w: string, b: string)
    requires InLiteral(a, i) && '\'' !in v && '\'' !in w
    ensures |Ranges(Fill(a, v, b))| == |Ranges(Fill(a, w, b))|
  {
    RangesAroundValue(a, i, v, b);
    RangesAroundValue(a, i, w, b);
    hide Ranges, Cuts, CutsFromLiteral, Before, Between, InLiteral;
  }

  // ---------------------------------------------------------------- at top level

  /** A dollar sign of the value opens a dollar quote. */
  predicate OpensBody(v: string, b: string) {
    exists k :: 0 <= k < |v| && StartsBody((v + b)[k..])
  }

  /** The last character of the value and the first one behind it open a comment. */
  predicate JoinsComment(v: string, b: string) {
    && v != "" && b != ""
    && ((v[|v| - 1] == '-' && b[0] == '-') || (v[|v| - 1] == '/' && b[0] == '*'))
  }

  /** Character `k` of the value opens nothing. */
  predicate Alone(v: string, b: string, k: nat)
    requires k < |v|
  {
    !StartsBody((v + b)[k..]) && !(k == |v| - 1 && JoinsComment(v, b))
  }

  lemma {:induction false} AllAlone(v: string, b: string)
    ensures (forall k :: 0 <= k < |v| ==> Alone(v, b, k)) <==> !OpensBody(v, b) && !JoinsComment(v, b)
  {
    hide StartsBody;
    if JoinsComment(v, b) {
      assert !Alone(v, b, |v| - 1);
    }
    if OpensBody(v, b) {
      var k :| 0 <= k < |v| && StartsBody((v + b)[k..]);
      assert !Alone(v, b, k);
    }
  }

  /** Every position in the value and the one behind it is at top level. */
  predicate ReadsAlone(t: string, i: nat, j: nat) {
    j <= |t| && forall k :: i <= k <= j ==> TopLevel(t, k)
  }

  /** A character of an accepted value is read by itself unless it opens a dollar quote or a comment across the end. */
  lemma {:induction false} ValueCharReads(t: string, a: string, v: string, b: string, k: nat)
    requires t == Fill(a, v, b) && Harmless(v) && k < |v|
    ensures |a| + k < |t| && t[|a| + k] != ';'
    ensures KindAt(t, |a| + k) == Kind.Plain <==> Alone(v, b, k)
  {
    var z, i := v + b, |a| + k;
    Assoc(a, v, b);
    assert t == a + z && t[i..] == z[k..];
    assert t[i] == z[k] == v[k];
    assert i + 1 < |t| ==> t[i + 1] == z[k + 1] == (if k + 1 < |v| then v[k + 1] else b[k + 1 - |v|]);
    hide StartsBody;
    BodyAt(t, i);
    assert k + 1 < |v| ==> !(v[k] == '-' && v[k + 1] == '-') && !(v[k] == '/' && v[k + 1] == '*');
  }

  /** A dollar quote opens where the splitter says so. */
  lemma {:induction false} BodyAt(t: string, i: nat)
    requires i < |t|
    ensures KindAt(t, i) == DollarQuote <==> StartsBody(t[i..])
  {
    if KindAt(t, i) == DollarQuote {
      WordEndLaws(t, i + 1);
      BodyStarts(t, i, WordEnd(t, i + 1));
    } else if StartsBody(t[i..]) {
      var s := t[i..];
      var k :| 0 < k < |s| && s[k] == '$' && WordOnly(s[1..k]);
      assert forall j {:trigger IsWord(t[j])} :: i + 1 <= j < i + k ==> t[j] == s[1..k][j - i - 1];
      assert t[i + k] == s[k] && t[i] == s[0];
      WordEndIs(t, i + 1, i + k);
      assert false;
    }
  }

  lemma {:induction false} PlainRun(t: string, i: nat, j: nat)
    requires i <= j <= |t| && TopLevel(t, i) && forall k :: i <= k < j ==> KindAt(t, k) == Kind.Plain && t[k] != ';'
    ensures ReadsAlone(t, i, j) && Cuts(t, i, j) == [] && Reaches(t, i, j)
    decreases j - i
  {
    hide KindAt, Element;
    if i < j {
      StepAtTop(t, i);
      PlainRun(t, i + 1, j);
    }
  }

  lemma {:induction false} StepAtTop(t: string, i: nat)
    requires i < |t| && TopLevel(t, i) && KindAt(t, i) == Kind.Plain
    ensures TopLevel(t, i + 1)
  {
    hide KindAt, Element;
    ReachesTrans(t, 0, i, i + 1);
  }

  /** Elements other than single characters have two characters at least. */
  lemma {:induction false} ReadAlone(t: string, i: nat)
    requires i < |t| && TopLevel(t, i) && TopLevel(t, i + 1)
    ensures KindAt(t, i) == Kind.Plain
  {
    ReachesLinear(t, 0, i, i + 1);
    assert Element(t, i) == Closed(i + 1);
    hide StringClose, DollarClose, IndexOf, WordEnd;
    match KindAt(t, i)
    case LineComment => LineCommentEnd(t, i);
    case DollarQuote => DollarIsLong(t, i);
    case _ =>
  }

  lemma {:induction false} DollarIsLong(t: string, i: nat)
    requires i < |t| && KindAt(t, i) == DollarQuote
    ensures Element(t, i).Closed? ==> Element(t, i).end > i + 1
  {
    hide IndexOf;
    var j := WordEnd(t, i + 1) + 1;
    IndexOfFirst(t, t[i..j], j);
  }

  lemma {:induction false} CutsAround(t: string, i: nat, d: nat, b: string)
    requires i <= d <= |t| && TopLevel(t, i) && Reaches(t, i, d) && Cuts(t, i, d) == [] && Framed(t, d, b) && |t| == d + |b|
    ensures Cuts(t, 0, |t|) == Cuts(t, 0, i) + Shift(Cuts(b, 0, |b|), d)
  {
    var n := |t|;
    hide Cuts, Shift, Framed, Element;
    CutsAppend(t, 0, i, n);
    CutsAppend(t, i, d, n);
    CutsOfTail(t, d, b, 0, n);
    assert [] + Cuts(t, d, n) == Cuts(t, d, n);
  }

  lemma {:induction false} FillParts(a: string, v: string, b: string)
    ensures
      var t, d := Fill(a, v, b), |a| + |v|;
      d <= |t| && |t| == d + |b| && Framed(t, d, b)
  {
    var t, d := Fill(a, v, b), |a| + |v|;
    assert t[d..d + |b|] == b;
  }

  lemma {:induction false} ValueReads(a: string, v: string, b: string)
    requires Harmless(v) && TopLevel(Fill(a, v, b), |a|)
    ensures
      var t, d := Fill(a, v, b), |a| + |v|;
      && (ReadsAlone(t, |a|, d) <==> forall k :: 0 <= k < |v| ==> Alone(v, b, k))
      && (ReadsAlone(t, |a|, d) ==> d <= |t| && Reaches(t, |a|, d) && Cuts(t, |a|, d) == [])
  {
    var t, i, d := Fill(a, v, b), |a|, |a| + |v|;
    FillParts(a, v, b);
    hide KindAt, Element, Cuts, Harmless, Alone, TopLevel, Reaches, Fill;
    forall p | i <= p < d ensures t[p] != ';' && (KindAt(t, p) == Kind.Plain <==> Alone(v, b, p - i)) {
      ValueCharReads(t, a, v, b, p - i);
    }
    if forall k :: 0 <= k < |v| ==> Alone(v, b, k) {
      PlainRun(t, i, d);
    }
    if ReadsAlone(t, i, d) {
      forall p | i <= p < d ensures KindAt(t, p) == Kind.Plain {
        ReadAlone(t, p);
      }
      forall k | 0 <= k < |v| ensures Alone(v, b, k) {
        assert KindAt(t, i + k) == Kind.Plain;
        assert Alone(v, b, i + k - i);
      }
      PlainRun(t, i, d);
    }
  }

  /**
   * An accepted value at top level is read character by character if and only if none of its dollar signs opens a dollar
   * quote and its end opens no comment with what follows. Then it adds no cut, and what follows is read as before.
   */
  lemma {:induction false} GuardedValueAtTopLevel(a: string, v: string, b: string)
    requires SqlSafe(v) && TopLevel(Fill(a, v, b), |a|)
    ensures
      var t, d := Fill(a, v, b), |a| + |v|;
      && (ReadsAlone(t, |a|, d) <==> !OpensBody(v, b) && !JoinsComment(v, b))
      && (ReadsAlone(t, |a|, d) ==> Cuts(t, 0, |t|) == Cuts(t, 0, |a|) + Shift(Cuts(b, 0, |b|), d))
  {
    var t, d := Fill(a, v, b), |a| + |v|;
    hide *;
    SafeIsHarmless(v);
    FillParts(a, v, b);
    ValueReads(a, v, b);
    AllAlone(v, b);
    if ReadsAlone(t, |a|, d) {
      CutsAround(t, |a|, d, b);
    }
  }

  lemma {:induction false} OneSemicolon()
    ensures var s := Fill("", "1", ";b"); |s| == 3 && Cuts(s, 0, |s|) == [1]
  {
    var s := Fill("", "1", ";b");
    assert s == "1;b";
    assert Element(s, 0) == Closed(1) && Element(s, 1) == Closed(2) && Element(s, 2) == Closed(3);
    hide Element;
    assert Cuts(s, 3, 3) == [] && Cuts(s, 2, 3) == [] && Cuts(s, 1, 3) == [1];
  }

  lemma {:induction false} TakenSemicolon()
    ensures var t := Fill("", "$$", ";b"); |t| == 4 && t == Delimiter("") + ";b" && Cuts(t, 0, |t|) == []
  {
    var t := Fill("", "$$", ";b");
    assert t == Delimiter("") + ";b" && t[0..] == t;
    assert Absent(";b", Delimiter("")) by {
      forall j | 0 <= j <= 2 ensures !Occurs(";b", Delimiter(""), j) {
        assert j == 0 ==> ";b"[0..2][0] == ';';
      }
    }
    hide Cuts, Absent, Delimiter;
    EndingSpelled(t, 0, Ending.OpenBody("", ";b"));
  }

  /** The guard accepts a dollar sign: a value of two of them opens a dollar quote, which takes the semicolon behind it. */
  lemma {:induction false} DollarValueExample()
    ensures SqlSafe("1") && SqlSafe("$$") && OpensBody("$$", ";b")
    ensures |Cuts(Fill("", "1", ";b"), 0, 3)| == 1 && |Cuts(Fill("", "$$", ";b"), 0, 4)| == 0
  {
    OneSemicolon();
    TakenSemicolon();
    SafeIsHarmless("1");
    SafeIsHarmless("$$");
    var z := "$$" + ";b";
    hide Cuts, SqlSafe;
    assert z[0..] == z && z[1] == '$' && z[1..1] == "" && StartsBody(z);
    assert StartsBody(("$$" + ";b")[0..]);
  }
}
