/** The tokens of the highlighter, each spelled out in characters. */
module TokenMeaning {
  import opened Text
  import opened Lexemes
  import opened NameCompare
  import opened Splitter
  import opened SplitterLaws
  import opened SplitterMeaning
  import T = Tokenizer

  // ---------------------------------------------------------------- what a token is

  predicate ClosedAs(l: Lexeme, comment: bool) {
    if comment then l.LineNote? || l.BlockNote? else l.Quoted? || l.Named?
  }

  predicate OpenAs(e: Ending, comment: bool) {
    if comment then e.OpenLine? || e.OpenBlock? else e.OpenQuoted? || e.OpenNamed?
  }

  /** The text is an element of this kind, closed, or never closed and the last thing there is. */
  ghost predicate ElementText(text: string, rest: string, comment: bool) {
    || (exists l :: ClosedAs(l, comment) && Spell(l) == text && Proper(l, rest))
    || (rest == "" && exists e :: OpenAs(e, comment) && SpellEnding(e) == text && ProperEnding(e))
  }

  predicate NumberChar(c: char) {
    '0' <= c <= '9' || c == '.'
  }

  predicate NumberText(text: string, rest: string) {
    && text != "" && '0' <= text[0] <= '9' && (forall k :: 0 <= k < |text| ==> NumberChar(text[k]))
    && (rest != "" ==> !NumberChar(rest[0]))
  }

  predicate WordText(text: string, rest: string) {
    && text != "" && WordOnly(text) && !('0' <= text[0] <= '9') && (rest != "" ==> !WordChar(rest[0]))
  }

  predicate Keyword(text: string) {
    exists w :: w in T.SQL_KEYWORDS && UpperOf(text, w)
  }

  /** A character that starts none of the others. */
  predicate AloneText(text: string, rest: string) {
    && |text| == 1 && text[0] != '\'' && text[0] != '"' && !WordChar(text[0])
    && !(text[0] == '-' && rest != "" && rest[0] == '-') && !(text[0] == '/' && rest != "" && rest[0] == '*')
  }

  ghost predicate ProperToken(t: T.Token, rest: string) {
    match t.kind
    case Comment => ElementText(t.text, rest, true)
    case String => ElementText(t.text, rest, false)
    case Number => NumberText(t.text, rest)
    case Keyword => WordText(t.text, rest) && Keyword(t.text)
    case Name => WordText(t.text, rest) && !Keyword(t.text)
    case Punct => AloneText(t.text, rest) && t.text[0] in "(),.;*=<>!+-/%|&{}[]:"
    case Other => AloneText(t.text, rest) && t.text[0] !in "(),.;*=<>!+-/%|&{}[]:"
  }

  ghost predicate ProperTokens(ts: seq<T.Token>)
    decreases |ts|
  {
    ts == [] || (ProperToken(ts[0], T.Concat(ts[1..])) && ProperTokens(ts[1..]))
  }

  // ---------------------------------------------------------------- from characters to tokens

  lemma {:induction false} KeywordMeans(text: string)
    ensures Upper(text) in T.SQL_KEYWORDS <==> Keyword(text)
  {
    hide Upper, UpperOf;
    forall w ensures w == Upper(text) <==> UpperOf(text, w) {
      UpperMeans(text, w);
    }
  }

  lemma {:induction false} NumberEndIs(s: string, i: nat, e: nat)
    requires i <= e <= |s| && (forall k :: i <= k < e ==> T.InNumber(s[k])) && (e < |s| ==> !T.InNumber(s[e]))
    ensures T.NumberEnd(s, i) == e
    decreases e - i
  {
    if i < e {
      NumberEndIs(s, i + 1, e);
    }
  }

  lemma {:induction false} KindOfNumber(s: string, i: nat, text: string, rest: string)
    requires i <= |s| && s[i..] == text + rest && NumberText(text, rest)
    ensures i < |s| && T.TokenEnd(s, i) == i + |text| && T.TokenKindAt(s, i) == T.Number
  {
    SuffixSplit(s, i, text, rest);
    forall k | i <= k < i + |text| ensures s[k] == text[k - i] {
      assert s[i..i + |text|][k - i] == s[k];
    }
    assert rest != "" ==> s[i + |text|] == rest[0];
    hide WordEnd, Upper;
    NumberEndIs(s, i + 1, i + |text|);
  }

  /** The word at a position. */
  lemma {:induction false} WordAt(s: string, i: nat)
    requires i < |s| && IsNameStart(s[i])
    ensures T.TokenEnd(s, i) == WordEnd(s, i + 1)
    ensures
      T.TokenKindAt(s, i)
      == if Upper(s[i..WordEnd(s, i + 1)]) in T.SQL_KEYWORDS then T.TokenKind.Keyword else T.TokenKind.Name
  {
    hide WordEnd, Upper, T.NumberEnd;
  }

  lemma {:induction false} WordStands(s: string, i: nat, text: string, rest: string)
    requires i <= |s| && s[i..] == text + rest && WordText(text, rest)
    ensures i < |s| && IsNameStart(s[i]) && WordEnd(s, i + 1) == i + |text| && s[i..i + |text|] == text
  {
    SuffixSplit(s, i, text, rest);
    WordOnlyIs(text);
    hide WordEnd, WordOnly, IsWord;
    forall k | i <= k < i + |text| ensures s[k] == text[k - i] {
      assert s[i..i + |text|][k - i] == s[k];
    }
    assert rest != "" ==> s[i + |text|] == rest[0];
    WordEndsHere(s, i, text, rest);
  }

  lemma {:induction false} WordEndsHere(s: string, i: nat, text: string, rest: string)
    requires i + |text| <= |s| && WordText(text, rest) && forall k :: 0 <= k < |text| ==> s[i + k] == text[k]
    requires if rest == "" then i + |text| == |s| else i + |text| < |s| && s[i + |text|] == rest[0]
    ensures IsNameStart(s[i]) && WordEnd(s, i + 1) == i + |text|
  {
    hide WordEnd;
    assert s[i] == s[i + 0] == text[0];
    forall k | i + 1 <= k < i + |text| ensures IsWord(s[k]) {
      assert s[k] == s[i + (k - i)] == text[k - i];
    }
    WordEndIs(s, i + 1, i + |text|);
  }

  lemma {:induction false} KindOfWord(s: string, i: nat, text: string, rest: string)
    requires i <= |s| && s[i..] == text + rest && WordText(text, rest)
    ensures i < |s| && T.TokenEnd(s, i) == i + |text|
    ensures T.TokenKindAt(s, i) == if Keyword(text) then T.TokenKind.Keyword else T.TokenKind.Name
  {
    hide *;
    WordStands(s, i, text, rest);
    WordAt(s, i);
    KeywordMeans(text);
  }

  lemma {:induction false} WordOnlyIs(text: string)
    requires WordOnly(text)
    ensures forall k :: 0 <= k < |text| ==> IsWord(text[k])
  {
  }

  lemma {:induction false} KindOfAlone(s: string, i: nat, text: string, rest: string)
    requires i <= |s| && s[i..] == text + rest && AloneText(text, rest)
    ensures i < |s| && T.TokenEnd(s, i) == i + |text|
    ensures T.TokenKindAt(s, i) == if text[0] in "(),.;*=<>!+-/%|&{}[]:" then T.Punct else T.Other
  {
    SuffixSplit(s, i, text, rest);
    assert s[i] == s[i..i + 1][0];
    assert rest != "" ==> s[i + 1] == rest[0];
    hide WordEnd, Upper, T.NumberEnd;
  }

  lemma {:induction false} KindOfElement(s: string, i: nat, text: string, rest: string, comment: bool)
    requires i <= |s| && s[i..] == text + rest && ElementText(text, rest, comment)
    ensures i < |s| && T.TokenEnd(s, i) == i + |text| && T.TokenKindAt(s, i) == if comment then T.Comment else T.String
  {
    if l :| ClosedAs(l, comment) && Spell(l) == text && Proper(l, rest) {
      ElementSpelled(s, i, l, rest);
      FirstChars(l);
      SuffixSplit(s, i, text, rest);
      assert s[i] == s[i..i + |text|][0] && s[i + 1] == s[i..i + |text|][1];
    } else {
      var e :| OpenAs(e, comment) && SpellEnding(e) == text && ProperEnding(e);
      assert text + rest == text;
      OpenFirstChars(e);
      OpenEnding(s, i, e);
      SuffixSplit(s, i, text, "");
      assert s[i] == s[i..i + |text|][0] && (|text| > 1 ==> s[i + 1] == s[i..i + |text|][1]);
    }
    hide Element, Upper, WordEnd, T.NumberEnd, Proper, Spell, ProperEnding, SpellEnding;
  }

  lemma {:induction false} FirstChars(l: Lexeme)
    requires !l.Single? && !l.Body?
    ensures |Spell(l)| > 1
    ensures l.Quoted? ==> Spell(l)[0] == '\''
    ensures l.Named? ==> Spell(l)[0] == '"'
    ensures l.LineNote? ==> Spell(l)[0] == '-' && Spell(l)[1] == '-'
    ensures l.BlockNote? ==> Spell(l)[0] == '/' && Spell(l)[1] == '*'
  {
    hide Doubled;
  }

  lemma {:induction false} OpenFirstChars(e: Ending)
    requires !e.Done? && !e.OpenBody?
    ensures SpellEnding(e) != ""
    ensures e.OpenQuoted? ==> SpellEnding(e)[0] == '\''
    ensures e.OpenNamed? ==> SpellEnding(e)[0] == '"'
    ensures e.OpenLine? ==> |SpellEnding(e)| > 1 && SpellEnding(e)[0] == '-' && SpellEnding(e)[1] == '-'
    ensures e.OpenBlock? ==> |SpellEnding(e)| > 1 && SpellEnding(e)[0] == '/' && SpellEnding(e)[1] == '*'
  {
    hide Doubled;
  }

  /** A token that stands at `i` is the one the highlighter makes there. */
  lemma {:induction false} TokenFound(s: string, i: nat, t: T.Token, rest: string)
    requires i <= |s| && s[i..] == t.text + rest && ProperToken(t, rest)
    ensures i < |s| && T.TokenEnd(s, i) == i + |t.text| && T.TokenKindAt(s, i) == t.kind
  {
    hide T.TokenEnd, T.TokenKindAt, ElementText, NumberText, WordText, AloneText, Keyword;
    match t.kind
    case Comment => KindOfElement(s, i, t.text, rest, true);
    case String => KindOfElement(s, i, t.text, rest, false);
    case Number => KindOfNumber(s, i, t.text, rest);
    case Keyword => KindOfWord(s, i, t.text, rest);
    case Name => KindOfWord(s, i, t.text, rest);
    case Punct => KindOfAlone(s, i, t.text, rest);
    case Other => KindOfAlone(s, i, t.text, rest);
  }

  // ---------------------------------------------------------------- from tokens to characters

  predicate IsComment(k: Kind) {
    k == LineComment || k == BlockComment
  }

  lemma {:induction false} SuffixElement(s: string, i: nat)
    requires i < |s|
    ensures KindAt(s[i..], 0) == KindAt(s, i)
    ensures Element(s, i).Open? ==> Element(s[i..], 0).Open?
    ensures Element(s, i).Closed? ==> Element(s[i..], 0) == Closed(Element(s, i).end - i)
  {
    var u := s[i..];
    assert Framed(s, i, u) by {
      assert s[i..i + |u|] == u;
    }
    hide Element, KindAt, Framed;
    ElementFramed(s, i, u, 0);
    KindFramed(s, i, u, 0);
  }

  lemma {:induction false} ClosedIsText(u: string, text: string, rest: string)
    requires u == text + rest && text != "" && KindAt(u, 0) != Plain && KindAt(u, 0) != DollarQuote
    requires Element(u, 0) == Closed(|text|)
    ensures ElementText(text, rest, IsComment(KindAt(u, 0)))
  {
    hide Element, KindAt, Proper, Spell;
    var l := FirstLexeme(u);
    assert u[|text|..] == rest;
    SameStart(Spell(l), text, rest);
    KindOfLexeme(l, rest, u);
  }

  lemma {:induction false} OpenIsText(u: string)
    requires u != "" && KindAt(u, 0) != Plain && KindAt(u, 0) != DollarQuote && Element(u, 0).Open?
    ensures ElementText(u, "", IsComment(KindAt(u, 0)))
  {
    hide Element, KindAt, ProperEnding, SpellEnding;
    var e := OpenText(u);
    KindOfEnding(e, u);
  }

  lemma {:induction false} ElementEnds(s: string, i: nat)
    requires i < |s| && KindAt(s, i) != Plain && KindAt(s, i) != DollarQuote
    ensures T.TokenEnd(s, i) == if Element(s, i).Open? then |s| else Element(s, i).end
  {
    hide Element, KindAt;
  }

  lemma {:induction false} ElementIsText(s: string, i: nat)
    requires i < |s| && KindAt(s, i) != Plain && KindAt(s, i) != DollarQuote
    ensures ElementText(s[i..T.TokenEnd(s, i)], s[T.TokenEnd(s, i)..], IsComment(KindAt(s, i)))
  {
    hide *;
    SuffixElement(s, i);
    ElementEnds(s, i);
    if Element(s, i).Closed? {
      var e := Element(s, i).end;
      assert s[i..] == s[i..e] + s[e..];
      ClosedIsText(s[i..], s[i..e], s[e..]);
    } else {
      assert s[i..|s|] == s[i..] && s[|s|..] == "";
      OpenIsText(s[i..]);
    }
  }

  lemma {:induction false} SameStart(a: string, b: string, z: string)
    requires a + z == b + z
    ensures a == b
  {
    assert |a| == |b|;
    assert a == (a + z)[..|a|] && b == (b + z)[..|b|];
  }

  /** Which kind of element a spelled one is read as. */
  lemma {:induction false} LexemeKind(l: Lexeme, rest: string, u: string)
    requires u == Spell(l) + rest && Proper(l, rest)
    ensures u != ""
    ensures l.Single? ==> KindAt(u, 0) == Plain
    ensures l.Body? ==> KindAt(u, 0) == Plain || KindAt(u, 0) == DollarQuote
    ensures l.Quoted? ==> KindAt(u, 0) == Literal
    ensures l.Named? ==> KindAt(u, 0) == Identifier
    ensures l.LineNote? ==> KindAt(u, 0) == LineComment
    ensures l.BlockNote? ==> KindAt(u, 0) == BlockComment
  {
    hide WordEnd, Bare;
    if l.Single? {
      assert u[0..] == u;
      hide KindAt;
      PlainReadsAlone(u, 0, l.c, rest);
    } else if l.Body? {
      assert u[0] == '$';
    } else {
      FirstChars(l);
      assert u[0] == Spell(l)[0] && u[1] == Spell(l)[1];
      hide Spell;
    }
    hide Proper;
  }

  lemma {:induction false} KindOfLexeme(l: Lexeme, rest: string, u: string)
    requires u == Spell(l) + rest && u != "" && KindAt(u, 0) != Plain && KindAt(u, 0) != DollarQuote && Proper(l, rest)
    ensures ClosedAs(l, IsComment(KindAt(u, 0)))
  {
    hide Spell, Proper, KindAt;
    LexemeKind(l, rest, u);
  }

  lemma {:induction false} EndingKind(e: Ending, u: string)
    requires u == SpellEnding(e) && u != ""
    ensures !e.Done?
    ensures e.OpenBody? ==> KindAt(u, 0) == Plain || KindAt(u, 0) == DollarQuote
    ensures e.OpenQuoted? ==> KindAt(u, 0) == Literal
    ensures e.OpenNamed? ==> KindAt(u, 0) == Identifier
    ensures e.OpenLine? ==> KindAt(u, 0) == LineComment
    ensures e.OpenBlock? ==> KindAt(u, 0) == BlockComment
  {
    hide WordEnd, Doubled;
    if e.OpenBody? {
      assert u[0] == '$';
    } else if !e.Done? {
      OpenFirstChars(e);
    }
  }

  lemma {:induction false} KindOfEnding(e: Ending, u: string)
    requires u == SpellEnding(e) && u != "" && KindAt(u, 0) != Plain && KindAt(u, 0) != DollarQuote
    ensures OpenAs(e, IsComment(KindAt(u, 0)))
  {
    hide SpellEnding, KindAt;
    EndingKind(e, u);
  }

  lemma {:induction false} NumberIsText(s: string, i: nat)
    requires i < |s| && (KindAt(s, i) == Plain || KindAt(s, i) == DollarQuote) && IsDigit(s[i])
    ensures NumberText(s[i..T.TokenEnd(s, i)], s[T.TokenEnd(s, i)..])
  {
    var e := T.NumberEnd(s, i + 1);
    NumberEndStops(s, i + 1);
    T.NumberIsPlain(s, i + 1);
    hide T.NumberEnd, WordEnd;
    var text := s[i..e];
    assert forall k :: 0 <= k < |text| ==> text[k] == s[i + k];
  }

  lemma {:induction false} NumberEndStops(s: string, i: nat)
    requires i <= |s|
    ensures T.NumberEnd(s, i) < |s| ==> !T.InNumber(s[T.NumberEnd(s, i)])
    decreases |s| - i
  {
    if i < |s| && T.InNumber(s[i]) {
      NumberEndStops(s, i + 1);
    }
  }

  lemma {:induction false} WordIsText(s: string, i: nat)
    requires i < |s| && (KindAt(s, i) == Plain || KindAt(s, i) == DollarQuote) && IsNameStart(s[i])
    ensures var e := T.TokenEnd(s, i); WordText(s[i..e], s[e..]) && e == WordEnd(s, i + 1)
  {
    var e := WordEnd(s, i + 1);
    WordEndLaws(s, i + 1);
    hide T.NumberEnd, WordEnd;
    var text := s[i..e];
    assert forall k :: 0 <= k < |text| ==> text[k] == s[i + k];
  }

  lemma {:induction false} AloneIsText(s: string, i: nat)
    requires i < |s| && (KindAt(s, i) == Plain || KindAt(s, i) == DollarQuote) && !IsDigit(s[i]) && !IsNameStart(s[i])
    ensures T.TokenEnd(s, i) == i + 1 && AloneText(s[i..i + 1], s[i + 1..])
  {
    hide T.NumberEnd, WordEnd;
    assert s[i..i + 1] == [s[i]];
    assert i + 1 < |s| ==> s[i + 1..][0] == s[i + 1];
  }

  /** Every token the highlighter makes is one in characters. */
  lemma {:induction false} TokenIsProper(s: string, i: nat)
    requires i < |s|
    ensures ProperToken(T.Token(T.TokenKindAt(s, i), s[i..T.TokenEnd(s, i)]), s[T.TokenEnd(s, i)..])
  {
    hide T.TokenEnd, ElementText, NumberText, WordText, AloneText, Keyword, Upper, WordEnd;
    if KindAt(s, i) != Plain && KindAt(s, i) != DollarQuote {
      ElementIsText(s, i);
    } else if IsDigit(s[i]) {
      NumberIsText(s, i);
    } else if IsNameStart(s[i]) {
      WordIsText(s, i);
      KeywordMeans(s[i..WordEnd(s, i + 1)]);
    } else {
      AloneIsText(s, i);
    }
    hide KindAt;
  }

  lemma {:induction false} TokensStep(s: string, i: nat)
    requires i < |s|
    ensures T.Tokens(s, i) == [T.Token(T.TokenKindAt(s, i), s[i..T.TokenEnd(s, i)])] + T.Tokens(s, T.TokenEnd(s, i))
  {
    hide T.TokenEnd, T.TokenKindAt;
  }

  lemma {:induction false} ProperCons(t: T.Token, ts: seq<T.Token>)
    ensures ProperTokens([t] + ts) <==> ProperToken(t, T.Concat(ts)) && ProperTokens(ts)
    ensures T.Concat([t] + ts) == t.text + T.Concat(ts)
  {
    assert ([t] + ts)[1..] == ts;
    hide ProperToken;
  }

  lemma {:induction false} NoTokens(s: string)
    ensures T.Tokens(s, |s|) == [] && ProperTokens([]) && T.Concat([]) == ""
  {
  }

  lemma {:induction false} TokensAreProper(s: string, i: nat)
    requires i <= |s|
    ensures ProperTokens(T.Tokens(s, i))
    decreases |s| - i
  {
    hide *;
    if i == |s| {
      NoTokens(s);
    } else {
      TokensStep(s, i);
      TokenIsProper(s, i);
      TokensAreProper(s, T.TokenEnd(s, i));
      T.TokensRebuildText(s, T.TokenEnd(s, i));
      ProperCons(T.Token(T.TokenKindAt(s, i), s[i..T.TokenEnd(s, i)]), T.Tokens(s, T.TokenEnd(s, i)));
    }
  }

  lemma {:induction false} ProperAreTokens(s: string, i: nat, ts: seq<T.Token>)
    requires i <= |s| && T.Concat(ts) == s[i..] && ProperTokens(ts)
    ensures ts == T.Tokens(s, i)
    decreases |ts|
  {
    hide *;
    if ts == [] {
      NoTokens(s);
      assert i == |s|;
    } else {
      var t, rest := ts[0], ts[1..];
      assert ts == [t] + rest;
      ProperCons(t, rest);
      TokenFound(s, i, t, T.Concat(rest));
      SuffixSplit(s, i, t.text, T.Concat(rest));
      ProperAreTokens(s, i + |t.text|, rest);
      TokensStep(s, i);
    }
  }

  /** There is one way to take a text apart into tokens, and the highlighter finds it. */
  lemma {:induction false} TokensMean(s: string, ts: seq<T.Token>)
    ensures ts == T.Tokens(s, 0) <==> T.Concat(ts) == s && ProperTokens(ts)
  {
    assert s[0..] == s;
    TokensAreProper(s, 0);
    T.TokensRebuildText(s, 0);
    hide *;
    if T.Concat(ts) == s && ProperTokens(ts) {
      ProperAreTokens(s, 0, ts);
    }
  }
}
