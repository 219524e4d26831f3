/** The marker line spelled out in characters, and where the markers of a text stand. */
module MarkerMeaning {
  import opened Text
  import opened NameCompare
  import opened Lexemes
  import opened ConnMarker

  // ---------------------------------------------------------------- the parts of a marker line

  /** What stands before the name: `--` and `@conn` with blanks around them. */
  datatype Opening = Opening(indent: string, gap: string, word: string, space: string)

  /** A name between double quotes, a name without quotes, or none. */
  datatype Naming = Between(name: string) | Bare(name: string) | Nameless

  /** The name with what ends its line. */
  datatype Closing = Closing(naming: Naming, tail: string, end: string)

  predicate Blanks(s: string) {
    forall k :: 0 <= k < |s| ==> s[k] == ' ' || s[k] == '\t'
  }

  function Twice(s: string): string {
    if s == "" then "" else (if s[0] == '"' then "\"\"" else [s[0]]) + Twice(s[1..])
  }

  function SpellOpening(o: Opening): string {
    o.indent + "--" + o.gap + o.word + o.space
  }

  function SpellNaming(n: Naming): string {
    match n
    case Between(name) => "\"" + Twice(name) + "\""
    case Bare(name) => name
    case Nameless => ""
  }

  function SpellClosing(c: Closing): string {
    SpellNaming(c.naming) + c.tail + c.end
  }

  function NameOf(n: Naming): string {
    if n.Nameless? then "" else n.name
  }

  /** `after` follows the opening: it goes on with no blank, and with no word character directly behind the word. */
  predicate ProperOpening(o: Opening, after: string) {
    && Blanks(o.indent) && Blanks(o.gap) && Blanks(o.space) && SameLetters(o.word, "@conn")
    && (after != "" ==> !Blanks([after[0]]) && (o.space == "" ==> !WordChar(after[0])))
  }

  /** `rest` follows the closing, which ends its line or the text. */
  predicate ProperClosing(c: Closing, rest: string) {
    && (c.end == "\n" || c.end == "\r\n" || (c.end == "" && rest == ""))
    && match c.naming
       case Between(_) => Blanks(c.tail)
       case Bare(name) =>
         && name != "" && !IsSpace(name[0]) && name[0] != '"' && !IsSpace(name[|name| - 1])
         && '\n' !in name && '\n' !in c.tail && AllSpace(c.tail) && c.end != "\r\n"
       case Nameless => c.tail == ""
  }

  /** A marker line with this name takes up the first `len` characters. */
  ghost predicate MarkerStands(u: string, name: string, len: nat) {
    exists o, c :: MarkerIs(u, o, c, len) && name == NameOf(c.naming)
  }

  predicate MarkerIs(u: string, o: Opening, c: Closing, len: nat) {
    && len <= |u| && u[..len] == SpellOpening(o) + SpellClosing(c)
    && ProperOpening(o, SpellClosing(c) + u[len..]) && ProperClosing(c, u[len..])
  }

  // ---------------------------------------------------------------- the opening

  lemma {:induction false} BlankIs(c: char)
    ensures IsBlank(c) <==> c == ' ' || c == '\t'
    ensures Blanks([c]) <==> IsBlank(c)
  {
    assert [c][0] == c;
  }

  lemma {:induction false} SkipBlanksIs(u: string, k: nat, e: nat)
    requires k <= e <= |u| && (forall j :: k <= j < e ==> IsBlank(u[j])) && (e < |u| ==> !IsBlank(u[e]))
    ensures SkipBlanks(u, k) == e
    decreases e - k
  {
    if k < e {
      SkipBlanksIs(u, k + 1, e);
    }
  }

  lemma {:induction false} SkipBlanksLaws(u: string, k: nat)
    requires k <= |u|
    ensures Blanks(u[k..SkipBlanks(u, k)])
    ensures SkipBlanks(u, k) < |u| ==> !IsBlank(u[SkipBlanks(u, k)])
    decreases |u| - k
  {
    var e := SkipBlanks(u, k);
    if k < |u| && IsBlank(u[k]) {
      SkipBlanksLaws(u, k + 1);
      assert u[k..e] == [u[k]] + u[k + 1..e];
      BlankIs(u[k]);
    }
  }

  /** The scan passes the blanks `b` that stand at `k`. */
  lemma {:induction false} PassBlanks(u: string, k: nat, b: string, after: string)
    requires k <= |u| && u[k..] == b + after && Blanks(b) && (after != "" ==> !IsBlank(after[0]))
    ensures SkipBlanks(u, k) == k + |b| && u[k + |b|..] == after
  {
    SuffixSplit(u, k, b, after);
    forall j | k <= j < k + |b| ensures IsBlank(u[j]) {
      assert u[j] == b[j - k];
    }
    assert after != "" ==> u[k + |b|] == after[0];
    SkipBlanksIs(u, k, k + |b|);
  }

  lemma {:induction false} WordIs(w: string)
    requires SameLetters(w, "@conn")
    ensures |w| == 5 && w[0] == '@'
    ensures LowerChar(w[1]) == 'c' && LowerChar(w[2]) == 'o' && LowerChar(w[3]) == 'n' && LowerChar(w[4]) == 'n'
  {
    var v := "@conn";
    assert SameLetter(w[0], v[0]) && SameLetter(w[1], v[1]) && SameLetter(w[2], v[2]) && SameLetter(w[3], v[3]) && SameLetter(w[4], v[4]);
  }

  lemma {:induction false} IsWordConn(w: string)
    requires |w| == 5 && w[0] == '@'
    requires LowerChar(w[1]) == 'c' && LowerChar(w[2]) == 'o' && LowerChar(w[3]) == 'n' && LowerChar(w[4]) == 'n'
    ensures SameLetters(w, "@conn")
  {
    var v := "@conn";
    CharSame(w[1], v[1]);
    CharSame(w[2], v[2]);
    CharSame(w[3], v[3]);
    CharSame(w[4], v[4]);
  }

  lemma {:induction false} ConnWordHere(u: string, k: nat, w: string, after: string)
    requires k <= |u| && u[k..] == w + after && SameLetters(w, "@conn") && (after != "" ==> !WordChar(after[0]))
    ensures ConnWordAt(u, k) && !IsBlank(w[0])
  {
    WordIs(w);
    SuffixSplit(u, k, w, after);
    assert forall j :: 0 <= j < 5 ==> u[k + j] == w[j];
    assert after != "" ==> u[k + 5] == after[0];
  }

  lemma {:induction false} AttemptIs(u: string, p: nat, q: nat)
    requires SkipBlanks(u, 0) == p && p + 2 <= |u| && u[p] == '-' && u[p + 1] == '-'
    requires SkipBlanks(u, p + 2) == q && ConnWordAt(u, q)
    ensures Attempt(u) == Some(SkipBlanks(u, q + 5))
  {
    hide SkipBlanks, ConnWordAt;
  }

  lemma {:induction false} PassDashes(u: string, p: nat, z: string)
    requires p <= |u| && u[p..] == "--" + z
    ensures p + 2 <= |u| && u[p] == '-' && u[p + 1] == '-' && u[p + 2..] == z
  {
    SuffixSplit(u, p, "--", z);
    assert u[p] == u[p..p + 2][0] && u[p + 1] == u[p..p + 2][1];
  }

  lemma {:induction false} WordScanned(u: string, q: nat, w: string, space: string, z: string, after: string)
    requires q <= |u| && u[q..] == w + z && z == space + after && SameLetters(w, "@conn") && |w| == 5
    requires Blanks(space) && (after != "" ==> !IsBlank(after[0])) && (z != "" ==> !WordChar(z[0]))
    ensures ConnWordAt(u, q) && q + 5 <= |u| && SkipBlanks(u, q + 5) == q + 5 + |space|
  {
    hide *;
    ConnWordHere(u, q, w, z);
    SuffixSplit(u, q, w, z);
    PassBlanks(u, q + 5, space, after);
  }

  lemma {:induction false} DashesScanned(u: string, indent: string, gap: string, z0: string, z1: string, z2: string)
    requires u == indent + z0 && z0 == "--" + z1 && z1 == gap + z2 && Blanks(indent) && Blanks(gap)
    requires z2 != "" && !IsBlank(z2[0])
    ensures
      var p := |indent|;
      && SkipBlanks(u, 0) == p && p + 2 + |gap| <= |u| && u[p] == '-' && u[p + 1] == '-'
      && SkipBlanks(u, p + 2) == p + 2 + |gap| && u[p + 2 + |gap|..] == z2
  {
    hide *;
    WholeText(u);
    DashIsNoBlank(z0, z1);
    PassBlanks(u, 0, indent, z0);
    PassDashes(u, |indent|, z1);
    PassBlanks(u, |indent| + 2, gap, z2);
  }

  lemma {:induction false} DashIsNoBlank(z0: string, z1: string)
    requires z0 == "--" + z1
    ensures z0 != "" && !IsBlank(z0[0])
  {
  }

  lemma {:induction false} OpeningRead(u: string, o: Opening, after: string)
    requires u == SpellOpening(o) + after && ProperOpening(o, after)
    ensures Attempt(u) == Some(|SpellOpening(o)|)
  {
    hide *;
    var z3 := o.space + after;
    var z2 := o.word + z3;
    var z1 := o.gap + z2;
    OpeningParts(o, after);
    BlankFacts(o, after);
    DashesScanned(u, o.indent, o.gap, "--" + z1, z1, z2);
    WordScanned(u, |o.indent| + 2 + |o.gap|, o.word, o.space, z3, after);
    AttemptIs(u, |o.indent|, |o.indent| + 2 + |o.gap|);
  }

  lemma {:induction false} WholeText(u: string)
    ensures u[0..] == u
  {
  }

  lemma {:induction false} OpeningParts(o: Opening, after: string)
    ensures SpellOpening(o) + after == o.indent + ("--" + (o.gap + (o.word + (o.space + after))))
    ensures |SpellOpening(o)| == |o.indent| + 2 + |o.gap| + |o.word| + |o.space|
  {
  }

  lemma {:induction false} BlankFacts(o: Opening, after: string)
    requires ProperOpening(o, after)
    ensures !IsBlank(("--" + (o.gap + (o.word + (o.space + after))))[0])
    ensures Blanks(o.indent) && Blanks(o.gap) && Blanks(o.space) && SameLetters(o.word, "@conn") && |o.word| == 5
    ensures !IsBlank((o.word + (o.space + after))[0])
    ensures after != "" ==> !IsBlank(after[0])
    ensures o.space + after != "" ==> !WordChar((o.space + after)[0])
  {
    WordIs(o.word);
    if after != "" {
      BlankIs(after[0]);
    }
  }

  lemma {:induction false} AttemptParts(u: string, p: nat) returns (a: nat, b: nat)
    requires Attempt(u) == Some(p)
    ensures a + 2 <= b && b + 5 <= p <= |u| && u[a] == '-' && u[a + 1] == '-' && ConnWordAt(u, b)
    ensures Blanks(u[0..a]) && Blanks(u[a + 2..b]) && Blanks(u[b + 5..p]) && (p < |u| ==> !IsBlank(u[p]))
  {
    a := SkipBlanks(u, 0);
    b := SkipBlanks(u, a + 2);
    SkipBlanksLaws(u, 0);
    SkipBlanksLaws(u, a + 2);
    SkipBlanksLaws(u, b + 5);
    hide SkipBlanks, Blanks, IsBlank;
  }

  lemma {:induction false} WordThere(u: string, b: nat)
    requires ConnWordAt(u, b)
    ensures SameLetters(u[b..b + 5], "@conn") && (b + 5 < |u| ==> !WordChar(u[b + 5]))
  {
    var w := u[b..b + 5];
    assert forall j :: 0 <= j < 5 ==> w[j] == u[b + j];
    hide LowerChar;
    IsWordConn(w);
  }

  lemma {:induction false} OpeningIs(u: string, a: nat, b: nat, p: nat)
    requires a + 2 <= b && b + 5 <= p <= |u| && u[a] == '-' && u[a + 1] == '-'
    ensures u[..p] == SpellOpening(Opening(u[0..a], u[a + 2..b], u[b..b + 5], u[b + 5..p]))
  {
    assert u[a..a + 2] == "--";
    assert u[..p] == u[0..a] + u[a..a + 2] + u[a + 2..b] + u[b..b + 5] + u[b + 5..p];
  }

  lemma {:induction false} OpeningFound(u: string, p: nat) returns (o: Opening)
    requires Attempt(u) == Some(p)
    ensures p <= |u| && u[..p] == SpellOpening(o) && ProperOpening(o, u[p..])
  {
    hide Attempt, SkipBlanks, SameLetters, ConnWordAt, WordChar, Blanks, SpellOpening;
    var a, b := AttemptParts(u, p);
    WordThere(u, b);
    OpeningIs(u, a, b, p);
    o := Opening(u[0..a], u[a + 2..b], u[b..b + 5], u[b + 5..p]);
    if p < |u| {
      BlankIs(u[p]);
      assert u[p..][0] == u[p];
    }
  }

  // ---------------------------------------------------------------- the closing

  lemma {:induction false} TwiceIs(name: string)
    ensures Twice(name) == EscapeName(name)
  {
    if name != "" {
      TwiceIs(name[1..]);
    }
  }

  lemma {:induction false} UnquoteTwice(name: string)
    ensures Unquote(Twice(name)) == name
  {
    if name != "" {
      UnquoteTwice(name[1..]);
      var e := Twice(name[1..]);
      if name[0] == '"' {
        assert Twice(name)[2..] == e;
      } else {
        assert Twice(name)[1..] == e;
        assert e == "" ==> name[1..] == "";
      }
    }
  }

  /** The quote behind a name written with its quotes doubled closes it. */
  lemma {:induction false} NameCloses(u: string, k: nat, name: string, z: string)
    requires k <= |u| && u[k..] == Twice(name) + ("\"" + z) && (z != "" ==> z[0] != '"')
    ensures QuoteClose(u, k) == Some(k + |Twice(name)| + 1)
    decreases |name|
  {
    if name == "" {
      assert Twice(name) + ("\"" + z) == "\"" + z;
      SuffixSplit(u, k, "\"", z);
      assert u[k] == u[k..][0];
      assert z != "" ==> u[k + 1] == z[0];
    } else {
      var c := if name[0] == '"' then "\"\"" else [name[0]];
      Assoc(c, Twice(name[1..]), "\"" + z);
      SuffixSplit(u, k, c, Twice(name[1..]) + ("\"" + z));
      assert u[k] == u[k..k + |c|][0] && (|c| == 2 ==> u[k + 1] == u[k..k + |c|][1]);
      NameCloses(u, k + |c|, name[1..], z);
    }
  }

  lemma {:induction false} NameClosed(u: string, k: nat) returns (name: string)
    requires k <= |u| && QuoteClose(u, k).Some?
    ensures
      var e := QuoteClose(u, k).value;
      u[k..e - 1] == Twice(name) && u[e - 1] == '"' && (e < |u| ==> u[e] != '"')
    decreases |u| - k
  {
    var e := QuoteClose(u, k).value;
    if u[k] != '"' {
      var rest := NameClosed(u, k + 1);
      name := [u[k]] + rest;
      assert name[1..] == rest;
      assert u[k..e - 1] == [u[k]] + u[k + 1..e - 1];
    } else if k + 1 < |u| && u[k + 1] == '"' {
      var rest := NameClosed(u, k + 2);
      name := ['"'] + rest;
      assert name[1..] == rest;
      assert u[k..e - 1] == "\"\"" + u[k + 2..e - 1];
    } else {
      name := "";
      assert u[k..e - 1] == "";
    }
  }

  /** The line break behind `k`, in characters. */
  lemma {:induction false} BreakMeans(u: string, k: nat, f: nat)
    requires k <= |u|
    ensures
      BreakEnd(u, k) == Some(f)
      <==> k <= f <= |u| && (u[k..f] == "\n" || u[k..f] == "\r\n" || (u[k..f] == "" && f == |u|))
  {
    assert k < |u| ==> u[k..k + 1] == [u[k]];
    assert k + 1 < |u| ==> u[k..k + 2] == [u[k], u[k + 1]];
    if k <= f <= |u| && u[k..f] == "\n" {
      assert f == k + 1;
    }
    if k <= f <= |u| && u[k..f] == "\r\n" {
      assert f == k + 2 && u[k] == u[k..f][0] && u[k + 1] == u[k..f][1];
    }
  }

  lemma {:induction false} LineEndLaws(u: string, k: nat)
    requires k <= |u|
    ensures '\n' !in u[k..LineEnd(u, k)] && (LineEnd(u, k) < |u| ==> u[LineEnd(u, k)] == '\n')
    decreases |u| - k
  {
    if k < |u| && u[k] != '\n' {
      LineEndLaws(u, k + 1);
      assert u[k..LineEnd(u, k)] == [u[k]] + u[k + 1..LineEnd(u, k)];
    }
  }

  lemma {:induction false} LineEndAt(u: string, k: nat, e: nat)
    requires k <= e <= |u| && '\n' !in u[k..e] && (e < |u| ==> u[e] == '\n')
    ensures LineEnd(u, k) == e
    decreases e - k
  {
    if k < e {
      assert u[k..e] == [u[k]] + u[k + 1..e];
      LineEndAt(u, k + 1, e);
    }
  }

  /** The match of the second half of the pattern. */
  function NameMatch(u: string, p: nat): Option<Hit>
    requires p <= |u|
  {
    if p < |u| && u[p] == '"' then QuotedMatch(u, p) else UnquotedMatch(u, p)
  }

  predicate ClosingIs(u: string, p: nat, c: Closing, len: nat) {
    p <= len <= |u| && u[p..len] == SpellClosing(c) && ProperClosing(c, u[len..])
  }

  /** How a quoted name is matched. */
  lemma {:induction false} QuotedIs(u: string, p: nat, e: nat, f: nat, name: string)
    requires p < |u| && u[p] == '"' && QuoteClose(u, p + 1) == Some(e) && Unquote(u[p + 1..e - 1]) == name
    requires BreakEnd(u, SkipBlanks(u, e)) == Some(f)
    ensures NameMatch(u, p) == Some(Hit(name, f))
  {
    hide QuoteClose, SkipBlanks, BreakEnd, Unquote;
  }

  /** The suffixes of a text that starts with five parts. */
  lemma {:induction false} FiveParts(u: string, p: nat, q: string, x: string, tail: string, end: string, rest: string)
    requires p <= |u| && u[p..] == q + (x + (q + (tail + (end + rest)))) && |q| == 1
    ensures p < |u| && u[p] == q[0] && u[p + 1..] == x + (q + (tail + (end + rest)))
    ensures p + 2 + |x| <= |u| && u[p + 1..p + 1 + |x|] == x && u[p + 2 + |x|..] == tail + (end + rest)
  {
    var z3 := tail + (end + rest);
    var z2 := q + z3;
    SuffixSplit(u, p, q, x + z2);
    assert u[p] == u[p..p + 1][0];
    SuffixSplit(u, p + 1, x, z2);
    SuffixSplit(u, p + 1 + |x|, q, z3);
  }

  lemma {:induction false} BetweenSpelled(c: Closing, rest: string)
    requires c.naming.Between?
    ensures SpellClosing(c) + rest == "\"" + (Twice(c.naming.name) + ("\"" + (c.tail + (c.end + rest))))
    ensures |SpellClosing(c)| == |Twice(c.naming.name)| + 2 + |c.tail| + |c.end|
  {
    hide Twice;
  }

  lemma {:induction false} WithRest(u: string, p: nat, len: nat)
    requires p <= len <= |u|
    ensures u[p..] == u[p..len] + u[len..]
  {
  }

  lemma {:induction false} TailParts(u: string, e: nat, tail: string, end: string, rest: string)
    requires e <= |u| && u[e..] == tail + (end + rest)
    ensures e + |tail| + |end| <= |u| && u[e + |tail|..e + |tail| + |end|] == end
  {
    var y := end + rest;
    SuffixSplit(u, e, tail, y);
    SuffixSplit(u, e + |tail|, end, rest);
  }

  lemma {:induction false} BetweenParts(u: string, p: nat, c: Closing, len: nat)
    requires p <= len <= |u| && u[p..len] == SpellClosing(c) && c.naming.Between?
    ensures
      var x, rest := Twice(c.naming.name), c.end + u[len..];
      var e := p + 2 + |x|;
      && e + |c.tail| + |c.end| == len && u[p] == '"' && u[p + 1..] == x + ("\"" + (c.tail + rest))
      && u[p + 1..e - 1] == x && u[e..] == c.tail + rest && u[e + |c.tail|..len] == c.end
  {
    hide *;
    BetweenSpelled(c, u[len..]);
    WithRest(u, p, len);
    FiveParts(u, p, "\"", Twice(c.naming.name), c.tail, c.end, u[len..]);
    TailParts(u, p + 2 + |Twice(c.naming.name)|, c.tail, c.end, u[len..]);
  }

  lemma {:induction false} EndBreaks(u: string, f: nat, c: Closing, len: nat)
    requires f <= len <= |u| && u[f..len] == c.end && ProperClosing(c, u[len..])
    ensures BreakEnd(u, f) == Some(len)
  {
    BreakMeans(u, f, len);
    hide BreakEnd;
  }

  lemma {:induction false} ClosingParts(u: string, p: nat, c: Closing, len: nat)
    requires ClosingIs(u, p, c, len)
    ensures p <= len <= |u| && u[p..len] == SpellClosing(c) && ProperClosing(c, u[len..])
    ensures c.naming.Between? ==> Blanks(c.tail)
  {
  }

  /** The scan of a quoted name, part by part; `z` is what follows the closing quote and `y` what follows the blanks. */
  lemma {:induction false} BetweenScanned(u: string, p: nat, e: nat, len: nat, name: string, tail: string, z: string, y: string)
    requires e == p + 2 + |Twice(name)| <= |u| && u[p] == '"' && u[p + 1..e - 1] == Twice(name)
    requires u[p + 1..] == Twice(name) + ("\"" + z) && u[e..] == z && z == tail + y && (z != "" ==> z[0] != '"')
    requires Blanks(tail) && (y != "" ==> !IsBlank(y[0])) && e + |tail| <= |u| && BreakEnd(u, e + |tail|) == Some(len)
    ensures NameMatch(u, p) == Some(Hit(name, len))
  {
    hide *;
    NameCloses(u, p + 1, name, z);
    UnquoteTwice(name);
    PassBlanks(u, e, tail, y);
    QuotedIs(u, p, e, len, name);
  }

  lemma {:induction false} BetweenRead(u: string, p: nat, c: Closing, len: nat)
    requires ClosingIs(u, p, c, len) && c.naming.Between?
    ensures NameMatch(u, p) == Some(Hit(c.naming.name, len))
  {
    hide *;
    ClosingParts(u, p, c, len);
    var y := c.end + u[len..];
    BetweenParts(u, p, c, len);
    TailStarts(c, u[len..]);
    var e := p + 2 + |Twice(c.naming.name)|;
    EndBreaks(u, e + |c.tail|, c, len);
    BetweenScanned(u, p, e, len, c.naming.name, c.tail, c.tail + y, y);
  }

  /** What follows a quoted name is neither a quote nor, behind its blanks, a blank. */
  lemma {:induction false} TailStarts(c: Closing, rest: string)
    requires ProperClosing(c, rest) && c.naming.Between?
    ensures
      var z := c.tail + (c.end + rest);
      z != "" ==> z[0] != '"'
    ensures c.end + rest != "" ==> !IsBlank((c.end + rest)[0])
  {
  }

  lemma {:induction false} BareStands(u: string, p: nat, c: Closing, len: nat)
    requires ClosingIs(u, p, c, len) && c.naming.Bare?
    ensures
      var s := c.naming.name + c.tail;
      var e := p + |s|;
      && p < e <= len && u[p] == c.naming.name[0] && u[p..e] == s && '\n' !in s && (e < |u| ==> u[e] == '\n')
      && len == if e < |u| then e + 1 else e
  {
    var name := c.naming.name;
    hide AllSpace, IsSpace;
    var s, rest := name + c.tail, u[len..];
    assert u[p..] == u[p..len] + rest;
    assert SpellClosing(c) + rest == s + (c.end + rest);
    SuffixSplit(u, p, s, c.end + rest);
    assert u[p] == u[p..p + |s|][0];
    assert p + |s| < |u| ==> u[p + |s|] == u[p + |s|..][0];
  }

  lemma {:induction false} BareIs(u: string, p: nat, e: nat, name: string)
    requires p < e <= |u| && u[p] != '"' && !IsSpace(u[p]) && LineEnd(u, p) == e && Trim(u[p..e]) == name
    ensures NameMatch(u, p) == Some(Hit(name, if e < |u| then e + 1 else e))
  {
    hide LineEnd, Trim, IsSpace;
  }

  lemma {:induction false} BareShape(u: string, p: nat, c: Closing, len: nat)
    requires ClosingIs(u, p, c, len) && c.naming.Bare?
    ensures
      var name := c.naming.name;
      && name != "" && !IsSpace(name[0]) && name[0] != '"' && !IsSpace(name[|name| - 1]) && AllSpace(c.tail)
  {
  }

  lemma {:induction false} BareRead(u: string, p: nat, c: Closing, len: nat)
    requires ClosingIs(u, p, c, len) && c.naming.Bare?
    ensures NameMatch(u, p) == Some(Hit(c.naming.name, len))
  {
    var name := c.naming.name;
    var e := p + |name + c.tail|;
    hide *;
    BareStands(u, p, c, len);
    BareShape(u, p, c, len);
    LineEndAt(u, p, e);
    TrimOfBare(name, c.tail);
    BareIs(u, p, e, name);
  }

  lemma {:induction false} TrimOfBare(name: string, tail: string)
    requires name != "" && !IsSpace(name[0]) && !IsSpace(name[|name| - 1]) && AllSpace(tail)
    ensures Trim(name + tail) == name
  {
    var s := name + tail;
    assert s[0] == name[0] && Lead(s) == 0 && s[0..] == s;
    TrimEndUnique(name, tail);
  }

  lemma {:induction false} NamelessRead(u: string, p: nat, c: Closing, len: nat)
    requires ClosingIs(u, p, c, len) && c.naming.Nameless?
    ensures NameMatch(u, p) == Some(Hit("", len))
  {
    assert SpellClosing(c) == c.end;
    hide LineEnd, Trim;
    BreakMeans(u, p, len);
    assert p < |u| ==> IsSpace(u[p]);
  }

  lemma {:induction false} ClosingRead(u: string, p: nat, c: Closing, len: nat)
    requires ClosingIs(u, p, c, len)
    ensures NameMatch(u, p) == Some(Hit(NameOf(c.naming), len))
  {
    hide NameMatch, ClosingIs;
    match c.naming
    case Between(_) => BetweenRead(u, p, c, len);
    case Bare(_) => BareRead(u, p, c, len);
    case Nameless => NamelessRead(u, p, c, len);
  }

  lemma {:induction false} BetweenFound(u: string, p: nat, hit: Hit) returns (c: Closing)
    requires p < |u| && u[p] == '"' && QuotedMatch(u, p) == Some(hit)
    ensures ClosingIs(u, p, c, hit.len) && NameOf(c.naming) == hit.name
  {
    hide QuoteClose, Unquote, SkipBlanks, BreakEnd;
    var e := QuoteClose(u, p + 1).value;
    var f := SkipBlanks(u, e);
    var name := NameClosed(u, p + 1);
    UnquoteTwice(name);
    SkipBlanksLaws(u, e);
    BreakMeans(u, f, hit.len);
    c := Closing(Between(name), u[e..f], u[f..hit.len]);
    assert u[p..hit.len] == [u[p]] + u[p + 1..e - 1] + [u[e - 1]] + u[e..f] + u[f..hit.len];
    assert hit.len == |u| ==> u[hit.len..] == "";
    hide Twice, Blanks;
  }

  lemma {:induction false} BareLine(u: string, p: nat, hit: Hit)
    requires p < |u| && u[p] != '"' && !IsSpace(u[p]) && UnquotedMatch(u, p) == Some(hit)
    ensures
      var e := LineEnd(u, p);
      && p < e <= |u| && hit == Hit(Trim(u[p..e]), if e < |u| then e + 1 else e)
      && '\n' !in u[p..e] && (e < |u| ==> u[e] == '\n')
  {
    LineEndLaws(u, p);
    hide LineEnd, Trim;
    assert IsSpace('\n');
  }

  lemma {:induction false} BareEnd(u: string, e: nat, len: nat)
    requires e <= |u| && (e < |u| ==> u[e] == '\n') && len == if e < |u| then e + 1 else e
    ensures u[e..len] == "\n" || (u[e..len] == "" && u[len..] == "")
  {
  }

  lemma {:induction false} BareClosing(name: string, tail: string, end: string, rest: string)
    requires name != "" && !IsSpace(name[0]) && name[0] != '"' && !IsSpace(name[|name| - 1]) && AllSpace(tail)
    requires '\n' !in name && '\n' !in tail && (end == "\n" || (end == "" && rest == ""))
    ensures ProperClosing(Closing(Bare(name), tail, end), rest) && SpellClosing(Closing(Bare(name), tail, end)) == name + tail + end
  {
    hide IsSpace, AllSpace;
  }

  lemma {:induction false} BareFound(u: string, p: nat, hit: Hit) returns (c: Closing)
    requires p < |u| && u[p] != '"' && !IsSpace(u[p]) && UnquotedMatch(u, p) == Some(hit)
    ensures ClosingIs(u, p, c, hit.len) && NameOf(c.naming) == hit.name
  {
    hide LineEnd, AllSpace, IsSpace, Trim, UnquotedMatch, SpellClosing, ProperClosing;
    var e := LineEnd(u, p);
    BareLine(u, p, hit);
    var s := u[p..e];
    assert s[0] == u[p];
    BareParts(s);
    var name := Trim(s);
    var tail := s[|name|..];
    assert forall k :: 0 <= k < |tail| ==> tail[k] == s[|name| + k];
    assert forall k :: 0 <= k < |name| ==> name[k] == s[k];
    BareEnd(u, e, hit.len);
    BareClosing(name, tail, u[e..hit.len], u[hit.len..]);
    c := Closing(Bare(name), tail, u[e..hit.len]);
    assert u[p..hit.len] == s + u[e..hit.len];
  }

  lemma {:induction false} TrailNotZero(s: string)
    requires s != "" && !IsSpace(s[0])
    ensures Trail(s) > 0
  {
    hide IsSpace;
    if |s| > 1 && IsSpace(s[|s| - 1]) {
      TrailNotZero(s[..|s| - 1]);
    }
  }

  lemma {:induction false} BareParts(s: string)
    requires s != "" && !IsSpace(s[0])
    ensures Trim(s) <= s && Trim(s) != "" && !IsSpace(Trim(s)[|Trim(s)| - 1]) && AllSpace(s[|Trim(s)|..])
  {
    assert Lead(s) == 0 && s[0..] == s;
    hide IsSpace;
    TrailNotZero(s);
  }

  lemma {:induction false} NamelessFound(u: string, p: nat, hit: Hit) returns (c: Closing)
    requires p <= |u| && (p == |u| || IsSpace(u[p])) && UnquotedMatch(u, p) == Some(hit)
    ensures ClosingIs(u, p, c, hit.len) && NameOf(c.naming) == hit.name
  {
    hide LineEnd, Trim;
    BreakMeans(u, p, hit.len);
    c := Closing(Nameless, "", u[p..hit.len]);
    assert hit.len == |u| ==> u[hit.len..] == "";
  }

  lemma {:induction false} ClosingFound(u: string, p: nat, hit: Hit) returns (c: Closing)
    requires p <= |u| && NameMatch(u, p) == Some(hit)
    ensures ClosingIs(u, p, c, hit.len) && NameOf(c.naming) == hit.name
  {
    hide QuotedMatch, UnquotedMatch, ClosingIs, IsSpace;
    if p < |u| && u[p] == '"' {
      c := BetweenFound(u, p, hit);
    } else if p < |u| && !IsSpace(u[p]) {
      c := BareFound(u, p, hit);
    } else {
      c := NamelessFound(u, p, hit);
    }
  }

  // ---------------------------------------------------------------- the whole line

  /** The pattern matches exactly where a marker line stands, and takes its name and its length. */
  lemma {:induction false} MatchMeans(u: string, name: string, len: nat)
    ensures MatchHere(u) == Some(Hit(name, len)) <==> MarkerStands(u, name, len)
  {
    hide Attempt, QuotedMatch, UnquotedMatch, MarkerIs, SpellOpening, SpellClosing, ProperOpening, ProperClosing;
    if MatchHere(u) == Some(Hit(name, len)) {
      MarkerFound(u, name, len);
    }
    forall o, c | MarkerIs(u, o, c, len) && name == NameOf(c.naming) ensures MatchHere(u) == Some(Hit(name, len)) {
      MarkerRead(u, o, c, len);
    }
  }

  lemma {:induction false} MarkerRead(u: string, o: Opening, c: Closing, len: nat)
    requires MarkerIs(u, o, c, len)
    ensures MatchHere(u) == Some(Hit(NameOf(c.naming), len))
  {
    var a, b, rest := SpellOpening(o), SpellClosing(c), u[len..];
    hide Attempt, QuotedMatch, UnquotedMatch, SpellOpening, SpellClosing, ProperOpening, ProperClosing;
    Assoc(a, b, rest);
    assert u == u[..len] + rest;
    OpeningRead(u, o, b + rest);
    assert u[|a|..len] == b;
    ClosingRead(u, |a|, c, len);
  }

  lemma {:induction false} MarkerFound(u: string, name: string, len: nat)
    requires MatchHere(u) == Some(Hit(name, len))
    ensures MarkerStands(u, name, len)
  {
    hide Attempt, QuotedMatch, UnquotedMatch, SpellOpening, SpellClosing, ProperOpening, ProperClosing;
    var p := Attempt(u).value;
    var o := OpeningFound(u, p);
    var c := ClosingFound(u, p, Hit(name, len));
    assert u[..len] == u[..p] + u[p..len];
    assert u[p..] == u[p..len] + u[len..];
    assert MarkerIs(u, o, c, len);
  }

  // ---------------------------------------------------------------- the markers of a text

  /** A marker line stands at `i`, which starts a line. */
  ghost predicate MarkerAt(s: string, i: nat, m: Marker) {
    && i <= |s| && (i == 0 || s[i - 1] == '\n') && m.from == i && m.from <= m.to
    && MarkerStands(s[i..], m.name, m.to - i)
  }

  ghost predicate NoneBetween(s: string, i: nat, end: nat) {
    forall k, m :: i <= k < end ==> !MarkerAt(s, k, m)
  }

  /** The markers from `i` on: each is the next one that stands behind the one before it, and no further one does. */
  ghost predicate FoundInOrder(s: string, i: nat, marks: seq<Marker>)
    decreases |marks|
  {
    if marks == [] then NoneBetween(s, i, |s| + 1)
    else
      && i <= marks[0].from && MarkerAt(s, marks[0].from, marks[0]) && NoneBetween(s, i, marks[0].from)
      && FoundInOrder(s, marks[0].to, marks[1..])
  }

  lemma {:induction false} MatchAtIs(s: string, i: nat, m: Marker)
    requires i <= |s|
    ensures
      MatchAt(s, i) == Some(m)
      <==> LineStart(s, i) && m.from == i <= m.to && MatchHere(s[i..]) == Some(Hit(m.name, m.to - i))
  {
    hide MatchHere;
  }

  lemma {:induction false} MatchAtMeans(s: string, i: nat, m: Marker)
    requires i <= |s|
    ensures MatchAt(s, i) == Some(m) <==> MarkerAt(s, i, m)
  {
    hide MatchHere, MarkerStands, MatchAt;
    MatchAtIs(s, i, m);
    if m.from == i <= m.to {
      MatchMeans(s[i..], m.name, m.to - i);
    }
  }

  lemma {:induction false} NoneHere(s: string, i: nat)
    requires i <= |s| && MatchAt(s, i).None?
    ensures NoneBetween(s, i, i + 1)
  {
    hide MatchAt, MarkerAt;
    forall m ensures !MarkerAt(s, i, m) {
      MatchAtMeans(s, i, m);
    }
  }

  lemma {:induction false} NoneJoin(s: string, i: nat, j: nat, k: nat)
    requires i <= j <= k && NoneBetween(s, i, j) && NoneBetween(s, j, k)
    ensures NoneBetween(s, i, k)
  {
    hide MarkerAt;
  }

  lemma {:induction false} NoneEmpty(s: string, i: nat)
    ensures NoneBetween(s, i, i)
  {
  }

  lemma {:induction false} ExecStep(s: string, i: nat)
    requires i <= |s|
    ensures MatchAt(s, i).Some? ==> Exec(s, i) == MatchAt(s, i)
    ensures MatchAt(s, i).None? ==> Exec(s, i) == if i < |s| then Exec(s, i + 1) else None
  {
    hide MatchAt;
  }

  lemma {:induction false} ExecMeans(s: string, i: nat)
    requires i <= |s|
    ensures Exec(s, i).None? ==> NoneBetween(s, i, |s| + 1)
    ensures
      Exec(s, i).Some? ==>
        var m := Exec(s, i).value;
        MarkerAt(s, m.from, m) && NoneBetween(s, i, m.from)
    decreases |s| - i
  {
    hide *;
    ExecStep(s, i);
    if MatchAt(s, i).Some? {
      MatchAtMeans(s, i, MatchAt(s, i).value);
      NoneEmpty(s, i);
    } else {
      NoneHere(s, i);
      if i < |s| {
        ExecMeans(s, i + 1);
        NoneJoin(s, i, i + 1, if Exec(s, i).Some? then Exec(s, i).value.from else |s| + 1);
      }
    }
  }

  /** The next marker is the one that a list found in order starts with. */
  lemma {:induction false} SameNext(s: string, i: nat, m: Marker, n: Marker)
    requires MarkerAt(s, m.from, m) && MarkerAt(s, n.from, n) && i <= m.from && i <= n.from
    requires NoneBetween(s, i, m.from) && NoneBetween(s, i, n.from)
    ensures m == n
  {
    MatchAtMeans(s, m.from, m);
    MatchAtMeans(s, n.from, n);
    hide MatchAt, MarkerStands;
  }

  lemma {:induction false} MarkersStep(s: string, i: nat)
    requires i <= |s|
    ensures
      Markers(s, i) ==
        match Exec(s, i) {
          case None => []
          case Some(m) => [m] + Markers(s, m.to)
        }
  {
    hide Exec;
  }

  lemma {:induction false} FoundCons(s: string, i: nat, m: Marker, rest: seq<Marker>)
    ensures
      FoundInOrder(s, i, [m] + rest)
      <==> i <= m.from && MarkerAt(s, m.from, m) && NoneBetween(s, i, m.from) && FoundInOrder(s, m.to, rest)
  {
    assert ([m] + rest)[1..] == rest;
    hide MarkerAt, NoneBetween;
  }

  lemma {:induction false} FoundNone(s: string, i: nat)
    ensures FoundInOrder(s, i, []) <==> NoneBetween(s, i, |s| + 1)
  {
    hide NoneBetween;
  }

  /** The markers found are those that stand in the text, one behind the other. */
  lemma {:induction false} MarkersMean(s: string, i: nat, marks: seq<Marker>)
    requires i <= |s|
    ensures marks == Markers(s, i) <==> FoundInOrder(s, i, marks)
    decreases |s| - i
  {
    hide *;
    ExecMeans(s, i);
    MarkersStep(s, i);
    var e := Exec(s, i);
    if marks == [] {
      FoundNone(s, i);
      if e.Some? {
        MarkerSeen(s, i, e.value);
      }
    } else {
      var m, rest := marks[0], marks[1..];
      assert marks == [m] + rest;
      FoundCons(s, i, m, rest);
      if FoundInOrder(s, i, marks) {
        if e.None? {
          MarkerSeen(s, i, m);
        } else {
          SameNext(s, i, m, e.value);
        }
      }
      if e == Some(m) {
        MarkersMean(s, m.to, rest);
      }
    }
  }

  lemma {:induction false} MarkerSeen(s: string, i: nat, m: Marker)
    requires i <= m.from && MarkerAt(s, m.from, m)
    ensures !NoneBetween(s, i, |s| + 1)
  {
    hide MarkerStands;
  }

  // ---------------------------------------------------------------- what removing and replacing leave

  predicate Covered(marks: seq<Marker>, i: nat) {
    exists k :: 0 <= k < |marks| && marks[k].from <= i < marks[k].to
  }

  /** The characters from `i` on that no marker covers. */
  function Uncovered(s: string, marks: seq<Marker>, i: nat): string
    decreases |s| - i
  {
    if i >= |s| then "" else (if Covered(marks, i) then "" else [s[i]]) + Uncovered(s, marks, i + 1)
  }

  lemma {:induction false} UncoveredPassed(s: string, marks: seq<Marker>, i: nat, j: nat)
    requires i <= j <= |s| && forall k :: i <= k < j ==> Covered(marks, k)
    ensures Uncovered(s, marks, i) == Uncovered(s, marks, j)
    decreases j - i
  {
    hide Covered;
    if i < j {
      UncoveredPassed(s, marks, i + 1, j);
    }
  }

  lemma {:induction false} UncoveredKept(s: string, marks: seq<Marker>, i: nat, j: nat)
    requires i <= j <= |s| && forall k :: i <= k < j ==> !Covered(marks, k)
    ensures Uncovered(s, marks, i) == s[i..j] + Uncovered(s, marks, j)
    decreases j - i
  {
    hide Covered;
    if i < j {
      UncoveredKept(s, marks, i + 1, j);
      assert s[i..j] == [s[i]] + s[i + 1..j];
      Assoc([s[i]], s[i + 1..j], Uncovered(s, marks, j));
    }
  }

  lemma {:induction false} UncoveredRest(s: string, marks: seq<Marker>, i: nat)
    requires marks != [] && marks[0].to <= i
    ensures Uncovered(s, marks, i) == Uncovered(s, marks[1..], i)
    decreases |s| - i
  {
    if i < |s| {
      CoveredRest(marks, i);
      hide Covered;
      UncoveredRest(s, marks, i + 1);
    }
  }

  lemma {:induction false} CoveredRest(marks: seq<Marker>, i: nat)
    requires marks != []
    ensures Covered(marks, i) <==> marks[0].from <= i < marks[0].to || Covered(marks[1..], i)
  {
    var rest := marks[1..];
    assert forall k :: 0 <= k < |rest| ==> rest[k] == marks[k + 1];
    if Covered(rest, i) {
      var k :| 0 <= k < |rest| && rest[k].from <= i < rest[k].to;
      assert marks[k + 1].from <= i < marks[k + 1].to;
    }
  }

  lemma {:induction false} NoneCoveredBefore(s: string, marks: seq<Marker>, last: nat, i: nat)
    requires InOrder(s, marks, last) && (marks == [] || i < marks[0].from)
    ensures !Covered(marks, i)
  {
    if marks != [] {
      CoveredRest(marks, i);
      hide Covered;
      NoneCoveredBefore(s, marks[1..], marks[0].to, i);
    }
  }

  /** What is copied between the markers are the characters that they do not cover. */
  lemma {:induction false} GapsMean(s: string, marks: seq<Marker>, last: nat)
    requires InOrder(s, marks, last)
    ensures Gaps(s, marks, last) == Uncovered(s, marks, last)
  {
    InOrderBound(s, marks, last);
    if marks == [] {
      forall k | last <= k < |s| ensures !Covered(marks, k) {
        NoneCoveredBefore(s, marks, last, k);
      }
      hide Covered;
      UncoveredKept(s, marks, last, |s|);
      NothingLeft(s, marks);
      assert s[last..|s|] + "" == s[last..];
    } else {
      var m, rest := marks[0], marks[1..];
      InOrderBound(s, rest, m.to);
      forall k | last <= k < m.from ensures !Covered(marks, k) {
        NoneCoveredBefore(s, marks, last, k);
      }
      forall k | m.from <= k < m.to ensures Covered(marks, k) {
        CoveredRest(marks, k);
      }
      hide Covered;
      GapsMean(s, rest, m.to);
      UncoveredKept(s, marks, last, m.from);
      UncoveredPassed(s, marks, m.from, m.to);
      UncoveredRest(s, marks, m.to);
    }
  }

  lemma {:induction false} NothingLeft(s: string, marks: seq<Marker>)
    ensures Uncovered(s, marks, |s|) == ""
  {
  }

  /** Stripping takes away the characters of the marker lines and no other. */
  lemma {:induction false} StripMeans(s: string)
    ensures Strip(s) == Uncovered(s, Markers(s, 0), 0)
  {
    MarkersInOrder(s, 0);
    hide Gaps, Uncovered, Markers, InOrder;
    GapsMean(s, Markers(s, 0), 0);
  }

  /** The first marker is replaced where it stands, and the others go. */
  lemma {:induction false} ReplacedInPlace(stmt: string, name: Option<string>)
    requires Markers(stmt, 0) != []
    ensures
      var marks, e := Markers(stmt, 0), Upsert(stmt, name);
      var line := if name.None? then "" else "-- @conn \"" + Twice(name.value) + "\"\n";
      && marks[0].from <= |stmt| && e.at == marks[0].from && e.delta == |e.text| - |stmt|
      && e.text == stmt[..marks[0].from] + line + Uncovered(stmt, marks, marks[0].to)
  {
    var marks := Markers(stmt, 0);
    MarkersInOrder(stmt, 0);
    InOrderBound(stmt, marks[1..], marks[0].to);
    if name.Some? {
      TwiceIs(name.value);
      assert MarkerLine(name.value) + "\n" == "-- @conn \"" + Twice(name.value) + "\"\n";
    }
    hide Gaps, Uncovered, Markers, MarkerLine, EscapeName, Twice;
    UncoveredRest(stmt, marks, marks[0].to);
    GapsMean(stmt, marks[1..], marks[0].to);
  }
}
