/** The split into statements, in characters. */
module SplitterMeaning {
  import opened Text
  import opened Splitter
  import opened SplitterLaws
  import opened Lexemes

  // ---------------------------------------------------------------- each element, read where it stands

  lemma {:induction false} OccursIsAt(s: string, pat: string, k: nat)
    ensures Occurs(s, pat, k) <==> At(s, pat, k)
  {
  }

  /** A literal closes behind its doubled text. */
  lemma {:induction false} DoubledCloses(t: string, k: nat, x: string, rest: string)
    requires k <= |t| && t[k..] == Doubled(x) + ("'" + rest) && (rest == "" || rest[0] != '\'')
    ensures StringClose(t, k) == Closed(k + |Doubled(x)| + 1)
    decreases |x|
  {
    if x == "" {
      assert Doubled(x) + ("'" + rest) == "'" + rest;
      SuffixSplit(t, k, "'", rest);
      assert t[k] == t[k..][0];
    } else {
      var c := if x[0] == '\'' then "''" else [x[0]];
      Assoc(c, Doubled(x[1..]), "'" + rest);
      SuffixSplit(t, k, c, Doubled(x[1..]) + ("'" + rest));
      assert t[k] == t[k..k + |c|][0] && (|c| == 2 ==> t[k + 1] == t[k..k + |c|][1]);
      DoubledCloses(t, k + |c|, x[1..], rest);
    }
  }

  lemma {:induction false} DoubledStaysOpen(t: string, k: nat, x: string)
    requires k <= |t| && t[k..] == Doubled(x)
    ensures StringClose(t, k).Open?
    decreases |x|
  {
    if x != "" {
      var c := if x[0] == '\'' then "''" else [x[0]];
      SuffixSplit(t, k, c, Doubled(x[1..]));
      assert t[k] == t[k..k + |c|][0] && (|c| == 2 ==> t[k + 1] == t[k..k + |c|][1]);
      DoubledStaysOpen(t, k + |c|, x[1..]);
    }
  }

  /** The first occurrence in a part of a text is the first one in the text from there on. */
  lemma {:induction false} FoundFirst(t: string, d: nat, x: string, pat: string, rest: string)
    requires d <= |t| && t[d..] == x + (pat + rest) && FirstAt(x + pat, pat, |x|)
    ensures IndexOf(t, pat, d) == Some(d + |x|)
  {
    SuffixSplit(t, d, x + pat, rest);
    Assoc(x, pat, rest);
    var p := d + |x|;
    assert t[d..d + |x + pat|] == x + pat;
    assert t[p..p + |pat|] == (x + pat)[|x|..];
    forall k | d <= k < p ensures !At(t, pat, k) {
      assert !Occurs(x + pat, pat, k - d);
      OccursIsAt(x + pat, pat, k - d);
      WindowAt(t, d, x + pat, pat, k - d);
    }
    hide IndexOf;
    IndexOfIs(t, pat, d, p);
  }

  lemma {:induction false} NeverFound(t: string, d: nat, x: string, pat: string)
    requires d <= |t| && t[d..] == x && Absent(x, pat)
    ensures IndexOf(t, pat, d).None?
  {
    IndexOfFirst(t, pat, d);
    if IndexOf(t, pat, d).Some? {
      var p := IndexOf(t, pat, d).value;
      assert t[p..p + |pat|] == x[p - d..p - d + |pat|];
      assert Occurs(x, pat, p - d);
    }
  }

  lemma {:induction false} OneCharFirst(x: string, c: char)
    ensures c !in x ==> FirstAt(x + [c], [c], |x|) && Absent(x, [c])
  {
    if c !in x {
      forall j | 0 <= j < |x| ensures !Occurs(x + [c], [c], j) && !Occurs(x, [c], j) {
        assert (x + [c])[j..j + 1] == [x[j]] && x[j..j + 1] == [x[j]];
        assert x[j] in x;
      }
    }
  }

  /** Two characters at the start of a suffix. */
  lemma {:induction false} StartChars(t: string, d: nat, z: string)
    requires d <= |t| && t[d..] == z
    ensures forall k :: 0 <= k < |z| ==> t[d + k] == z[k]
    ensures |t| == d + |z|
  {
    assert forall k :: 0 <= k < |z| ==> t[d + k] == t[d..][k];
  }

  lemma {:induction false} BodyOpens(t: string, d: nat, tag: string, z: string)
    requires d <= |t| && t[d..] == Delimiter(tag) + z && WordOnly(tag)
    ensures d < |t| && KindAt(t, d) == DollarQuote && WordEnd(t, d + 1) == d + 1 + |tag|
    ensures t[d..d + |tag| + 2] == Delimiter(tag) && t[d + |tag| + 2..] == z
  {
    var q := Delimiter(tag);
    StartChars(t, d, q + z);
    assert forall k :: 0 <= k < |q| ==> t[d + k] == q[k];
    forall k | d + 1 <= k < d + 1 + |tag| ensures IsWord(t[k]) {
      assert t[k] == q[k - d] == tag[k - d - 1];
    }
    assert t[d] == q[0] == '$' && t[d + 1 + |tag|] == q[1 + |tag|] == '$';
    WordEndIs(t, d + 1, d + 1 + |tag|);
    SuffixSplit(t, d, q, z);
  }

  lemma {:induction false} BodyStarts(t: string, d: nat, w: nat)
    requires d < w < |t| && t[d] == '$' && t[w] == '$' && forall k :: d < k < w ==> IsWord(t[k])
    ensures StartsBody(t[d..])
  {
    var s := t[d..];
    assert s[w - d] == '$';
    assert forall k {:trigger s[1..w - d][k]} :: 0 <= k < w - d - 1 ==> s[1..w - d][k] == t[d + 1 + k];
    assert WordOnly(s[1..w - d]);
  }

  /** A character that opens nothing is read by itself. */
  lemma {:induction false} PlainReadsAlone(t: string, d: nat, c: char, rest: string)
    requires d <= |t| && t[d..] == [c] + rest && Bare(c, rest)
    ensures d < |t| && t[d] == c && KindAt(t, d) == Kind.Plain
  {
    StartChars(t, d, [c] + rest);
    assert rest != "" ==> t[d + 1] == rest[0];
    WordEndLaws(t, d + 1);
    hide StartsBody, WordEnd;
    if KindAt(t, d) == DollarQuote {
      BodyStarts(t, d, WordEnd(t, d + 1));
      assert false;
    }
  }

  lemma {:induction false} QuotedReads(t: string, d: nat, x: string, rest: string)
    requires d <= |t| && t[d..] == "'" + Doubled(x) + "'" + rest && (rest == "" || rest[0] != '\'')
    ensures d < |t| && t[d] == '\'' && Element(t, d) == Closed(d + |Doubled(x)| + 2)
  {
    hide StringClose, Doubled;
    var y := Doubled(x);
    assert "'" + y + "'" + rest == "'" + (y + ("'" + rest));
    SuffixSplit(t, d, "'", y + ("'" + rest));
    assert t[d] == t[d..d + 1][0];
    DoubledCloses(t, d + 1, x, rest);
  }

  lemma {:induction false} NamedReads(t: string, d: nat, x: string, rest: string)
    requires d <= |t| && t[d..] == "\"" + x + "\"" + rest && '"' !in x
    ensures d < |t| && t[d] == '"' && Element(t, d) == Closed(d + |x| + 2)
  {
    hide IndexOf, FirstAt;
    assert "\"" + x + "\"" + rest == "\"" + (x + ("\"" + rest));
    SuffixSplit(t, d, "\"", x + ("\"" + rest));
    assert t[d] == t[d..d + 1][0];
    OneCharFirst(x, '"');
    FoundFirst(t, d + 1, x, "\"", rest);
  }

  lemma {:induction false} BlockNoteReads(t: string, d: nat, x: string, rest: string)
    requires d <= |t| && t[d..] == "/*" + x + "*/" + rest && FirstAt(x + "*/", "*/", |x|)
    ensures d < |t| && t[d] == '/' && Element(t, d) == Closed(d + |x| + 4)
  {
    hide IndexOf, FirstAt;
    assert "/*" + x + "*/" + rest == "/*" + (x + ("*/" + rest));
    SuffixSplit(t, d, "/*", x + ("*/" + rest));
    assert t[d] == t[d..d + 2][0] && t[d + 1] == t[d..d + 2][1];
    FoundFirst(t, d + 2, x, "*/", rest);
  }

  /** An element that ends properly is read as one element. */
  lemma {:induction false} ElementSpelled(t: string, d: nat, l: Lexeme, rest: string)
    requires d <= |t| && t[d..] == Spell(l) + rest && Proper(l, rest)
    ensures d < |t| && Element(t, d) == Closed(d + |Spell(l)|)
    ensures t[d] == ';' <==> l == Single(';')
  {
    hide Element, FirstAt, Doubled, Bare, Delimiter, WordOnly;
    match l
    case Quoted(x) => QuotedReads(t, d, x, rest);
    case Named(x) => NamedReads(t, d, x, rest);
    case LineNote(x) => LineNoteReads(t, d, x, rest);
    case BlockNote(x) => BlockNoteReads(t, d, x, rest);
    case Body(tag, x) => BodyReads(t, d, tag, x, rest);
    case Single(c) => SingleReads(t, d, c, rest);
  }

  lemma {:induction false} SingleReads(t: string, d: nat, c: char, rest: string)
    requires d <= |t| && t[d..] == [c] + rest && Bare(c, rest)
    ensures d < |t| && t[d] == c && Element(t, d) == Closed(d + 1)
  {
    hide KindAt, Bare;
    PlainReadsAlone(t, d, c, rest);
  }

  lemma {:induction false} LineNoteReads(t: string, d: nat, x: string, rest: string)
    requires d <= |t| && t[d..] == "--" + x + rest && '\n' !in x && rest != "" && rest[0] == '\n'
    ensures d < |t| && t[d] == '-' && Element(t, d) == Closed(d + |x| + 2)
  {
    StartChars(t, d, "--" + x + rest);
    var e := d + 2 + |x|;
    assert t[e] == rest[0];
    forall k | d < k < e ensures t[k] != '\n' {
      assert t[k] == (if k == d + 1 then '-' else x[k - d - 2]);
    }
    AtOne(t, '\n');
    hide At, IndexOf, StringClose, DollarClose;
    IndexOfIs(t, "\n", d + 1, e);
  }

  lemma {:induction false} BodyReads(t: string, d: nat, tag: string, x: string, rest: string)
    requires d <= |t| && t[d..] == Delimiter(tag) + x + Delimiter(tag) + rest
    requires WordOnly(tag) && FirstAt(x + Delimiter(tag), Delimiter(tag), |x|)
    ensures d < |t| && t[d] == '$' && |Delimiter(tag)| == |tag| + 2
    ensures Element(t, d) == Closed(d + |x| + 2 * |tag| + 4)
  {
    var q := Delimiter(tag);
    assert |q| == |tag| + 2;
    hide IndexOf, FirstAt, WordEnd, Delimiter, WordOnly;
    FourParts(q, x, rest);
    BodyOpens(t, d, tag, x + (q + rest));
    FoundFirst(t, d + |q|, x, q, rest);
  }

  lemma {:induction false} FourParts(q: string, x: string, rest: string)
    ensures q + x + q + rest == q + (x + (q + rest))
  {
  }

  /** An element that never closes is read as one. */
  lemma {:induction false} EndingSpelled(t: string, d: nat, e: Ending)
    requires d <= |t| && t[d..] == SpellEnding(e) && ProperEnding(e)
    ensures Cuts(t, d, |t|) == []
  {
    if !e.Done? {
      assert SpellEnding(e) != "";
      hide Cuts;
      OpenEnding(t, d, e);
      NoCutsBehindOpen(t, d);
    }
  }

  lemma {:induction false} NoCutsBehindOpen(t: string, d: nat)
    requires d < |t| ==> Element(t, d).Open?
    ensures Cuts(t, d, |t|) == []
  {
    hide Element;
  }

  lemma {:induction false} OpenQuotedReads(t: string, d: nat, x: string)
    requires d < |t| && t[d..] == "'" + Doubled(x)
    ensures Element(t, d).Open?
  {
    SuffixSplit(t, d, "'", Doubled(x));
    hide StringClose, Doubled;
    assert t[d] == t[d..d + 1][0];
    DoubledStaysOpen(t, d + 1, x);
  }

  lemma {:induction false} OpenFoundReads(t: string, d: nat, z: string, open: string, x: string, pat: string)
    requires d < |t| && t[d..] == z && z == open + x && Absent(x, pat)
    requires (open == "\"" && pat == "\"") || (open == "/*" && pat == "*/") || (open == "-" && pat == "\n" && x != "" && x[0] == '-')
    ensures Element(t, d).Open?
  {
    StartChars(t, d, z);
    SuffixSplit(t, d, open, x);
    NeverFound(t, d + |open|, x, pat);
    hide IndexOf, Absent;
    assert t[d] == z[0] == open[0];
    assert |z| > 1 ==> t[d + 1] == z[1];
  }

  lemma {:induction false} OpenBodyReads(t: string, d: nat, tag: string, x: string)
    requires d < |t| && t[d..] == Delimiter(tag) + x && WordOnly(tag) && Absent(x, Delimiter(tag))
    ensures Element(t, d).Open?
  {
    hide IndexOf, Absent, WordEnd;
    BodyOpens(t, d, tag, x);
    NeverFound(t, d + |tag| + 2, x, Delimiter(tag));
  }

  lemma {:induction false} OpenEnding(t: string, d: nat, e: Ending)
    requires !e.Done? && d < |t| && t[d..] == SpellEnding(e) && ProperEnding(e)
    ensures Element(t, d).Open?
  {
    hide Element, Doubled, Absent, Delimiter, WordOnly;
    match e
    case OpenQuoted(x) => OpenQuotedReads(t, d, x);
    case OpenNamed(x) =>
      OneCharFirst(x, '"');
      OpenFoundReads(t, d, t[d..], "\"", x, "\"");
    case OpenLine(x) =>
      assert "--" + x == "-" + ("-" + x);
      OneCharFirst("-" + x, '\n');
      OpenFoundReads(t, d, t[d..], "-", "-" + x, "\n");
    case OpenBlock(x) => OpenFoundReads(t, d, t[d..], "/*", x, "*/");
    case OpenBody(tag, x) => OpenBodyReads(t, d, tag, x);
  }

  // ---------------------------------------------------------------- the cuts of a spelled text

  lemma {:induction false} CutsStep(t: string, d: nat, n: nat)
    requires d < |t| && Element(t, d) == Closed(d + n) && n > 0
    ensures Cuts(t, d, |t|) == (if t[d] == ';' then [d] else []) + Cuts(t, d + n, |t|)
  {
    hide Element;
  }

  lemma {:induction false} SpellNotEmpty(l: Lexeme)
    ensures |Spell(l)| > 0
  {
  }

  lemma {:induction false} SemicolonsStep(ls: seq<Lexeme>, d: nat)
    requires ls != []
    ensures SemicolonsAt(ls, d) == (if ls[0] == Single(';') then [d] else []) + SemicolonsAt(ls[1..], d + |Spell(ls[0])|)
  {
  }

  lemma {:induction false} SpellStep(ls: seq<Lexeme>, e: Ending)
    requires ls != [] && ProperAll(ls, e)
    ensures SpellAll(ls, e) == Spell(ls[0]) + SpellAll(ls[1..], e)
    ensures Proper(ls[0], SpellAll(ls[1..], e)) && ProperAll(ls[1..], e)
  {
    hide Spell, Proper;
  }

  /** The cuts are the semicolons that are elements of their own. */
  lemma {:induction false} CutsSpelled(t: string, d: nat, ls: seq<Lexeme>, e: Ending)
    requires d <= |t| && t[d..] == SpellAll(ls, e) && ProperAll(ls, e)
    ensures Cuts(t, d, |t|) == SemicolonsAt(ls, d)
    decreases |ls|
  {
    hide *;
    if ls == [] {
      SpellNone(ls, e, d);
      EndingSpelled(t, d, e);
    } else {
      SpellStep(ls, e);
      SemicolonsStep(ls, d);
      SpellNotEmpty(ls[0]);
      var n, rest := |Spell(ls[0])|, SpellAll(ls[1..], e);
      ElementSpelled(t, d, ls[0], rest);
      SuffixSplit(t, d, Spell(ls[0]), rest);
      CutsStep(t, d, n);
      CutsSpelled(t, d + n, ls[1..], e);
    }
  }

  lemma {:induction false} SpellNone(ls: seq<Lexeme>, e: Ending, d: nat)
    requires ls == []
    ensures SpellAll(ls, e) == SpellEnding(e) && SemicolonsAt(ls, d) == []
    ensures ProperAll(ls, e) ==> ProperEnding(e)
  {
  }

  /** The statements of a spelled text lie between those semicolons. */
  lemma {:induction false} RangesSpelled(s: string, ls: seq<Lexeme>, e: Ending)
    requires Spells(ls, e, s)
    ensures Ranges(s) == Between(SemicolonsAt(ls, 0), 0, |s|)
  {
    assert s[0..] == s;
    hide Cuts, ProperAll, SpellAll, SemicolonsAt;
    CutsSpelled(s, 0, ls, e);
  }

  // ---------------------------------------------------------------- every text is spelled

  lemma {:induction false} UndoubledBefore(s: string, i: nat, e: nat) returns (x: string)
    requires i < e <= |s| && StringClose(s, i) == Closed(e)
    ensures s[i..] == Doubled(x) + ("'" + s[e..]) && (e < |s| ==> s[e] != '\'')
    decreases |s| - i
  {
    if s[i] != '\'' {
      var y := UndoubledBefore(s, i + 1, e);
      x := [s[i]] + y;
      assert x[1..] == y && s[i..] == [s[i]] + s[i + 1..];
      Assoc([s[i]], Doubled(y), "'" + s[e..]);
    } else if i + 1 < |s| && s[i + 1] == '\'' {
      var y := UndoubledBefore(s, i + 2, e);
      x := "'" + y;
      assert x[1..] == y && s[i..] == "''" + s[i + 2..];
      Assoc("''", Doubled(y), "'" + s[e..]);
    } else {
      x := "";
      assert s[i..] == "'" + s[e..];
    }
  }

  lemma {:induction false} UndoubledRest(s: string, i: nat) returns (x: string)
    requires i <= |s| && StringClose(s, i).Open?
    ensures s[i..] == Doubled(x)
    decreases |s| - i
  {
    if i == |s| {
      x := "";
    } else if s[i] != '\'' {
      var y := UndoubledRest(s, i + 1);
      x := [s[i]] + y;
      assert x[1..] == y && s[i..] == [s[i]] + s[i + 1..];
    } else {
      var y := UndoubledRest(s, i + 2);
      x := "'" + y;
      assert x[1..] == y && s[i..] == "''" + s[i + 2..];
    }
  }

  /** What stands before the first occurrence that a search finds. */
  lemma {:induction false} BeforeFound(s: string, i: nat, pat: string, p: nat) returns (x: string)
    requires i <= |s| && IndexOf(s, pat, i) == Some(p)
    ensures i <= p && p + |pat| <= |s| && x == s[i..p]
    ensures s[i..] == x + pat + s[p + |pat|..] && FirstAt(x + pat, pat, |x|)
  {
    IndexOfFirst(s, pat, i);
    x := s[i..p];
    var z := x + pat;
    assert s[p..p + |pat|] == pat;
    assert s[i..i + |z|] == z;
    assert z[|x|..|x| + |pat|] == pat;
    forall j | 0 <= j < |x| ensures !Occurs(z, pat, j) {
      OccursIsAt(z, pat, j);
      if j + |pat| <= |z| {
        WindowAt(s, i, z, pat, j);
      }
    }
    assert s[i..] == s[i..p] + s[p..p + |pat|] + s[p + |pat|..];
  }

  lemma {:induction false} BehindNotFound(s: string, i: nat, pat: string)
    requires i <= |s| && IndexOf(s, pat, i).None?
    ensures Absent(s[i..], pat)
  {
    IndexOfFirst(s, pat, i);
    var z := s[i..];
    assert s[i..i + |z|] == z;
    forall j | 0 <= j <= |z| ensures !Occurs(z, pat, j) {
      OccursIsAt(z, pat, j);
      if j + |pat| <= |z| {
        WindowAt(s, i, z, pat, j);
      }
    }
  }

  lemma {:induction false} FirstIsFree(x: string, c: char)
    requires FirstAt(x + [c], [c], |x|) || Absent(x, [c])
    ensures c !in x
  {
    forall k | 0 <= k < |x| ensures x[k] != c {
      assert (x + [c])[k..k + 1] == [x[k]] && x[k..k + 1] == [x[k]];
      assert !Occurs(x + [c], [c], k) || !Occurs(x, [c], k);
    }
  }

  /** The delimiter of the dollar quote that opens a text. */
  lemma {:induction false} DelimiterOf(s: string) returns (tag: string)
    requires s != "" && KindAt(s, 0) == DollarQuote
    ensures WordOnly(tag) && |tag| + 2 <= |s| && s[..|tag| + 2] == Delimiter(tag) && WordEnd(s, 1) == |tag| + 1
  {
    WordEndLaws(s, 1);
    var w := WordEnd(s, 1);
    tag := s[1..w];
    assert s[..w + 1] == [s[0]] + s[1..w] + [s[w]];
  }

  /** A character that the splitter reads by itself opens none of the elements. */
  lemma {:induction false} PlainIsSpelled(s: string)
    requires s != "" && KindAt(s, 0) == Kind.Plain
    ensures Bare(s[0], s[1..])
  {
    var rest := s[1..];
    assert s == [s[0]] + rest;
    assert rest != "" ==> rest[0] == s[1];
    if StartsBody(s) {
      var k :| 0 < k < |s| && s[k] == '$' && WordOnly(s[1..k]);
      assert forall j {:trigger IsWord(s[j])} :: 1 <= j < k ==> s[j] == s[1..k][j - 1];
      WordEndIs(s, 1, k);
      assert false;
    }
  }

  lemma {:induction false} FirstQuoted(s: string, e: nat) returns (l: Lexeme)
    requires s != "" && KindAt(s, 0) == Literal && Element(s, 0) == Closed(e)
    ensures e <= |s| && s == Spell(l) + s[e..] && Proper(l, s[e..])
  {
    hide StringClose, Doubled;
    var x := UndoubledBefore(s, 1, e);
    l := Quoted(x);
    var y, rest := Doubled(x), s[e..];
    assert s == "'" + s[1..];
    assert "'" + (y + ("'" + rest)) == "'" + y + "'" + rest;
  }

  /** An element between a mark that opens it and the first mark that closes it. */
  lemma {:induction false} FirstBetween(s: string, open: string, close: string, e: nat) returns (x: string)
    requires open <= s && IndexOf(s, close, |open|) == Some(e)
    ensures e + |close| <= |s| && s == open + x + close + s[e + |close|..] && FirstAt(x + close, close, |x|)
  {
    hide IndexOf;
    x := BeforeFound(s, |open|, close, e);
    assert s == open + s[|open|..];
    var rest := s[e + |close|..];
    assert open + (x + close + rest) == open + x + close + rest;
  }

  lemma {:induction false} FirstNamed(s: string, e: nat) returns (l: Lexeme)
    requires s != "" && KindAt(s, 0) == Identifier && Element(s, 0) == Closed(e)
    ensures e <= |s| && s == Spell(l) + s[e..] && Proper(l, s[e..])
  {
    hide IndexOf, FirstAt;
    assert "\"" <= s;
    var x := FirstBetween(s, "\"", "\"", e - 1);
    FirstIsFree(x, '"');
    l := Named(x);
  }

  lemma {:induction false} FirstBlockNote(s: string, e: nat) returns (l: Lexeme)
    requires s != "" && KindAt(s, 0) == BlockComment && Element(s, 0) == Closed(e)
    ensures e <= |s| && s == Spell(l) + s[e..] && Proper(l, s[e..])
  {
    hide IndexOf, FirstAt;
    assert "/*" <= s;
    var x := FirstBetween(s, "/*", "*/", e - 2);
    l := BlockNote(x);
  }

  /** The first element of a text that the splitter reads to its end. */
  lemma {:induction false} FirstLexeme(s: string) returns (l: Lexeme)
    requires s != "" && Element(s, 0).Closed?
    ensures var rest := s[Element(s, 0).end..]; s == Spell(l) + rest && Proper(l, rest)
  {
    var e := Element(s, 0).end;
    if KindAt(s, 0) == Kind.Plain {
      assert e == 1;
      hide KindAt, Element, Bare;
      l := Single(s[0]);
      PlainIsSpelled(s);
    } else {
      hide Element, KindAt, Spell, Proper;
      match KindAt(s, 0)
      case Literal => l := FirstQuoted(s, e);
      case Identifier => l := FirstNamed(s, e);
      case LineComment => l := FirstLineNote(s, e);
      case BlockComment => l := FirstBlockNote(s, e);
      case DollarQuote => l := FirstBody(s, e);
      case Plain =>
    }
  }

  lemma {:induction false} LineNoteParts(s: string, y: string, z: string) returns (x: string)
    requires s != "" && s[0] == '-' && s[1..] == y + "\n" + z && y != "" && y[0] == '-' && '\n' !in y
    ensures s == "--" + x + ("\n" + z) && '\n' !in x
  {
    x := y[1..];
    assert y == "-" + x && s == "-" + s[1..];
  }

  lemma {:induction false} FirstLineNote(s: string, e: nat) returns (l: Lexeme)
    requires s != "" && KindAt(s, 0) == LineComment && Element(s, 0) == Closed(e)
    ensures e <= |s| && s == Spell(l) + s[e..] && Proper(l, s[e..])
  {
    hide IndexOf, FirstAt;
    var y := BeforeFound(s, 1, "\n", e);
    FirstIsFree(y, '\n');
    assert s[1] == '-' && s[1] != '\n';
    assert s[1..][0] == s[1];
    var x := LineNoteParts(s, y, s[e + 1..]);
    l := LineNote(x);
    NewlineBehind(s, e);
  }

  lemma {:induction false} NewlineBehind(s: string, e: nat)
    requires IndexOf(s, "\n", 1) == Some(e)
    ensures e < |s| && s[e..] == "\n" + s[e + 1..] && s[e] == '\n'
  {
    IndexOfFirst(s, "\n", 1);
    AtOne(s, '\n');
  }

  lemma {:induction false} FirstBody(s: string, e: nat) returns (l: Lexeme)
    requires s != "" && KindAt(s, 0) == DollarQuote && Element(s, 0) == Closed(e)
    ensures e <= |s| && s == Spell(l) + s[e..] && Proper(l, s[e..])
  {
    hide IndexOf, WordEnd, FirstAt;
    var tag := DelimiterOf(s);
    var q := Delimiter(tag);
    assert s[0..|q|] == q && q <= s;
    var x := FirstBetween(s, q, q, e - |q|);
    l := Body(tag, x);
  }

  /** A text that is one element that never closes. */
  lemma {:induction false} OpenText(s: string) returns (e: Ending)
    requires s != "" && Element(s, 0).Open?
    ensures SpellEnding(e) == s && ProperEnding(e)
  {
    hide StringClose, IndexOf, WordEnd, Absent, Occurs;
    match KindAt(s, 0)
    case Literal =>
      var x := UndoubledRest(s, 1);
      e := OpenQuoted(x);
      assert s == "'" + s[1..];
    case Identifier =>
      BehindNotFound(s, 1, "\"");
      FirstIsFree(s[1..], '"');
      e := OpenNamed(s[1..]);
      assert s == "\"" + s[1..];
    case LineComment =>
      BehindNotFound(s, 1, "\n");
      FirstIsFree(s[1..], '\n');
      assert s == "--" + s[2..];
      assert forall k :: 0 <= k < |s[2..]| ==> s[2..][k] == s[1..][k + 1];
      e := OpenLine(s[2..]);
    case BlockComment =>
      BehindNotFound(s, 2, "*/");
      e := OpenBlock(s[2..]);
      assert s == "/*" + s[2..];
    case DollarQuote =>
      var tag := DelimiterOf(s);
      assert s[0..|tag| + 2] == Delimiter(tag);
      BehindNotFound(s, |tag| + 2, Delimiter(tag));
      e := OpenBody(tag, s[|tag| + 2..]);
      assert s == s[..|tag| + 2] + s[|tag| + 2..];
  }

  /** Every text is spelled by some elements and an ending. */
  lemma {:induction false} EveryTextSpelled(s: string) returns (ls: seq<Lexeme>, e: Ending)
    ensures Spells(ls, e, s)
    decreases |s|
  {
    hide Element, Spell, Proper;
    if s == "" {
      ls, e := [], Done;
    } else if Element(s, 0).Open? {
      ls := [];
      e := OpenText(s);
    } else {
      var l := FirstLexeme(s);
      var rest;
      rest, e := EveryTextSpelled(s[Element(s, 0).end..]);
      ls := [l] + rest;
      assert ls[1..] == rest;
    }
  }

  // ---------------------------------------------------------------- what an element protects

  /**
   * A closed element that stands at top level protects its text: the cuts are those before it and those of the text
   * behind it, read by itself, whatever the element holds.
   */
  lemma {:induction false} ElementProtects(a: string, l: Lexeme, b: string)
    requires l != Single(';') && Proper(l, b) && TopLevel(a + Spell(l) + b, |a|)
    ensures
      var t, d := a + Spell(l) + b, |a + Spell(l)|;
      TopLevel(t, d) && Cuts(t, 0, |t|) == Cuts(t, 0, |a|) + Shift(Cuts(b, 0, |b|), d)
  {
    var x := Spell(l);
    hide *;
    SpellNotEmpty(l);
    MiddleOf(a, x, b);
    var t, d := a + x + b, |a + x|;
    ElementSpelled(t, |a|, l, b);
    TopLevelReached(t, |a|);
    CutsAppend(t, 0, |a|, |t|);
    CutsFramed(t, d, b, 0, |b|);
    CutsBehindElement(t, |a|, d);
  }

  lemma {:induction false} MiddleOf(a: string, x: string, b: string)
    ensures
      var t, d := a + x + b, |a + x|;
      && |t| == d + |b| && d == |a| + |x| && t[|a|..] == x + b && Framed(t, d, b)
  {
    var t, d := a + x + b, |a + x|;
    assert t[d..d + |b|] == b;
  }

  lemma {:induction false} TopLevelReached(t: string, k: nat)
    requires k <= |t| && TopLevel(t, k)
    ensures Reaches(t, 0, k)
  {
  }

  lemma {:induction false} CutsBehindElement(t: string, i: nat, d: nat)
    requires i < d <= |t| && Element(t, i) == Closed(d) && t[i] != ';' && TopLevel(t, i)
    ensures Cuts(t, i, |t|) == Cuts(t, d, |t|) && TopLevel(t, d)
  {
    hide Element;
    ReachesTrans(t, 0, i, d);
  }

  lemma {:induction false} EverySpelling(s: string)
    ensures exists ls, e :: Spells(ls, e, s)
    ensures forall ls, e :: Spells(ls, e, s) ==> Ranges(s) == Between(SemicolonsAt(ls, 0), 0, |s|)
  {
    hide *;
    var ls, e := EveryTextSpelled(s);
    forall ls, e | Spells(ls, e, s) ensures Ranges(s) == Between(SemicolonsAt(ls, 0), 0, |s|) {
      RangesSpelled(s, ls, e);
    }
  }

  // ---------------------------------------------------------------- the loop

  /** `sqlStatementRanges`: one pass that skips literals, identifiers, comments and dollar quotes. */
  method SqlStatementRanges(sql: string) returns (ranges: seq<Range>)
    ensures ranges == Ranges(sql)
    ensures exists ls, e :: Spells(ls, e, sql)
    ensures forall ls, e :: Spells(ls, e, sql) ==> ranges == Between(SemicolonsAt(ls, 0), 0, |sql|)
  {
    EverySpelling(sql);
    hide Element, Cuts, WordEnd, Spells, SemicolonsAt, Between;
    assert Ranges(sql) == Rest(sql, 0, 0);
    hide Ranges;
    ranges := [];
    var start, i := 0, 0;
    while i < |sql|
      invariant Ranges(sql) == ranges + Rest(sql, start, i)
      decreases |sql| - i
    {
      var ch, at := sql[i], i;
      if ch == ';' {
        CutSplitsRest(sql, start, i);
        ranges := ranges + [Range(start, i)];
        start := i + 1;
        i := i + 1;
        continue;
      }
      if ch == '\'' {
        i := SkipString(sql, i);
      } else if ch == '"' {
        i := SkipIdentifier(sql, i);
      } else if ch == '-' && i + 1 < |sql| && sql[i + 1] == '-' {
        i := SkipLineComment(sql, i);
      } else if ch == '/' && i + 1 < |sql| && sql[i + 1] == '*' {
        i := SkipBlockComment(sql, i);
      } else if ch == '$' {
        i := SkipDollar(sql, i);
      } else {
        i := i + 1;
      }
      SkipKeepsRest(sql, start, at, i);
    }
    NothingLeft(sql, start, i);
    if start < |sql| {
      ranges := ranges + [Range(start, |sql|)];
    }
  }
}
