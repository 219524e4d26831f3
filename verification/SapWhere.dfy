/** A WHERE clause cut into the option lines of RFC_READ_TABLE. */
module SapWhere {
  import opened Text
  import opened Greedy
  import opened SapSplit

  // ---------------------------------------------------------------- tokens of a WHERE clause

  /** What `str.split()` and `\s` take for space. */
  predicate PySpace(c: char) {
    || '\t' <= c <= '\r' || '\U{1C}' <= c <= ' ' || c == '\U{85}' || c == '\U{A0}' || c == '\U{1680}'
    || '\U{2000}' <= c <= '\U{200A}' || c == '\U{2028}' || c == '\U{2029}' || c == '\U{202F}' || c == '\U{205F}'
    || c == '\U{3000}'
  }

  /** The end of the run of characters that are not space. */
  function RunEnd(s: string, i: nat): (e: nat)
    requires i <= |s|
    ensures i <= e <= |s|
    decreases |s| - i
  {
    if i < |s| && !PySpace(s[i]) then RunEnd(s, i + 1) else i
  }

  /** `str.split()`. */
  function Words(s: string): seq<string>
    decreases |s|
  {
    if s == "" then []
    else if PySpace(s[0]) then Words(s[1..])
    else [s[..RunEnd(s, 1)]] + Words(s[RunEnd(s, 1)..])
  }

  function Normalised(clause: string): string {
    Join(Words(clause), " ")
  }

  /** The matches of `'[^']*'|\S+`. */
  function Tokens(s: string): seq<string>
    decreases |s|
  {
    if s == "" then []
    else if s[0] == '\'' && IndexOf(s, "'", 1).Some? then
      [s[..IndexOf(s, "'", 1).value + 1]] + Tokens(s[IndexOf(s, "'", 1).value + 1..])
    else if PySpace(s[0]) then Tokens(s[1..])
    else [s[..RunEnd(s, 1)]] + Tokens(s[RunEnd(s, 1)..])
  }

  /** A closed literal. */
  predicate Literal(t: string) {
    |t| >= 2 && t[0] == '\'' && t[|t| - 1] == '\'' && forall k :: 0 < k < |t| - 1 ==> t[k] != '\''
  }

  /** A run without space; a quote at its start is its only one. */
  predicate Run(t: string) {
    t != "" && (forall k :: 0 <= k < |t| ==> !PySpace(t[k])) && (t[0] == '\'' ==> '\'' !in t[1..])
  }

  predicate QuoteFree(ts: seq<string>) {
    forall k :: 0 <= k < |ts| ==> '\'' !in ts[k]
  }

  /** A token list: behind a quote that is never closed no further quote comes. */
  predicate IsTokens(ts: seq<string>) {
    ts == []
    || ((Literal(ts[0]) || (Run(ts[0]) && (ts[0][0] == '\'' ==> QuoteFree(ts[1..])))) && IsTokens(ts[1..]))
  }

  lemma {:induction false} RunEndLaws(s: string, i: nat)
    requires i <= |s|
    ensures forall k :: i <= k < RunEnd(s, i) ==> !PySpace(s[k])
    ensures RunEnd(s, i) < |s| ==> PySpace(s[RunEnd(s, i)])
    decreases |s| - i
  {
    if i < |s| && !PySpace(s[i]) {
      RunEndLaws(s, i + 1);
    }
  }

  lemma {:induction false} RunEndIs(s: string, i: nat, e: nat)
    requires i <= e <= |s| && (forall k :: i <= k < e ==> !PySpace(s[k])) && (e < |s| ==> PySpace(s[e]))
    ensures RunEnd(s, i) == e
    decreases e - i
  {
    if i < e {
      RunEndIs(s, i + 1, e);
    }
  }

  lemma {:induction false} TokensQuoteFree(s: string)
    requires '\'' !in s
    ensures QuoteFree(Tokens(s))
    decreases |s|
  {
    if s != "" {
      assert s[0] != '\'';
      if PySpace(s[0]) {
        TokensQuoteFree(s[1..]);
      } else {
        TokensQuoteFree(s[RunEnd(s, 1)..]);
      }
    }
  }

  /** Where the token at the start of a text ends. */
  function TokenLength(s: string): (e: nat)
    requires s != ""
    ensures 0 < e <= |s|
  {
    if s[0] == '\'' && IndexOf(s, "'", 1).Some? then IndexOf(s, "'", 1).value + 1 else RunEnd(s, 1)
  }

  lemma {:induction false} TokensFirst(s: string)
    requires s != "" && !PySpace(s[0])
    ensures Tokens(s) == [s[..TokenLength(s)]] + Tokens(s[TokenLength(s)..])
  {
    hide IndexOf, RunEnd;
  }

  lemma {:induction false} LiteralShape(s: string, p: nat)
    requires 0 < p < |s| && s[0] == '\'' && s[p] == '\'' && forall k :: 0 < k < p ==> s[k] != '\''
    ensures Literal(s[..p + 1])
  {
    var t := s[..p + 1];
    assert forall k :: 0 <= k < |t| ==> t[k] == s[k];
  }

  lemma {:induction false} RunShape(s: string, e: nat)
    requires 0 < e <= |s| && (forall k :: 0 <= k < e ==> !PySpace(s[k])) && (e < |s| ==> PySpace(s[e]))
    requires s[0] == '\'' ==> forall k :: 0 < k < |s| ==> s[k] != '\''
    ensures Run(s[..e]) && (s[..e][0] == '\'' ==> '\'' !in s[e..]) && (s[e..] == "" || PySpace(s[e..][0]))
  {
    hide PySpace;
    var t, rest := s[..e], s[e..];
    assert forall k :: 0 <= k < |t| ==> t[k] == s[k];
    assert forall k :: 0 <= k < |rest| ==> rest[k] == s[k + e];
    assert forall k :: 0 <= k < |t[1..]| ==> t[1..][k] == s[k + 1];
  }

  /** The first token is a closed literal, or a run up to space or the end; a quote it starts with is the last of the text. */
  lemma {:induction false} TokenShape(s: string)
    requires s != "" && !PySpace(s[0])
    ensures
      var t, rest := s[..TokenLength(s)], s[TokenLength(s)..];
      || Literal(t)
      || (Run(t) && (t[0] == '\'' ==> '\'' !in rest) && (rest == "" || PySpace(rest[0])))
  {
    IndexOfFirst(s, "'", 1);
    AtOne(s, '\'');
    RunEndLaws(s, 1);
    hide IndexOf, At, RunEnd, PySpace, Literal, Run;
    if s[0] == '\'' && IndexOf(s, "'", 1).Some? {
      LiteralShape(s, IndexOf(s, "'", 1).value);
    } else {
      RunShape(s, RunEnd(s, 1));
    }
  }

  lemma {:induction false} TokensCons(t: string, us: seq<string>)
    requires IsTokens(us) && (Literal(t) || (Run(t) && (t[0] == '\'' ==> QuoteFree(us))))
    ensures IsTokens([t] + us)
  {
    assert ([t] + us)[1..] == us;
  }

  lemma {:induction false} TokensAreTokens(s: string)
    ensures IsTokens(Tokens(s))
    decreases |s|
  {
    hide *;
    if s == "" {
      NoToken();
      NothingIsTokens();
    } else if PySpace(s[0]) {
      SpaceFirst(s);
      TokensAreTokens(s[1..]);
    } else {
      var rest := s[TokenLength(s)..];
      TokensFirst(s);
      TokenShape(s);
      TokensAreTokens(rest);
      if '\'' !in rest {
        TokensQuoteFree(rest);
      }
      TokensCons(s[..TokenLength(s)], Tokens(rest));
    }
  }

  lemma {:induction false} NothingIsTokens()
    ensures IsTokens([]) && QuoteFree([])
  {
  }

  lemma {:induction false} SpaceFirst(s: string)
    requires s != "" && PySpace(s[0])
    ensures Tokens(s) == Tokens(s[1..])
  {
    assert s[0] != '\'';
  }

  lemma {:induction false} JoinQuoteFree(ts: seq<string>)
    requires QuoteFree(ts)
    ensures '\'' !in Join(ts, " ")
  {
    if ts != [] {
      assert forall k :: 0 <= k < |ts[1..]| ==> ts[1..][k] == ts[k + 1];
      JoinQuoteFree(ts[1..]);
    }
  }

  /** What follows the first token in the joined text. */
  function JoinTail(ts: seq<string>): string
    requires ts != []
  {
    if |ts| == 1 then "" else " " + Join(ts[1..], " ")
  }

  lemma {:induction false} JoinParts(ts: seq<string>)
    requires ts != []
    ensures Join(ts, " ") == ts[0] + JoinTail(ts)
    ensures Tokens(JoinTail(ts)) == Tokens(Join(ts[1..], " "))
    ensures JoinTail(ts) == "" || PySpace(JoinTail(ts)[0])
    ensures QuoteFree(ts[1..]) ==> '\'' !in JoinTail(ts)
  {
    if |ts| > 1 {
      assert JoinTail(ts)[1..] == Join(ts[1..], " ");
      assert JoinTail(ts)[0] == ' ';
    } else {
      assert ts[1..] == [] && ts[0] + "" == ts[0];
    }
    if QuoteFree(ts[1..]) {
      JoinQuoteFree(ts[1..]);
    }
  }

  lemma {:induction false} LiteralFirst(t: string, z: string)
    requires Literal(t)
    ensures Tokens(t + z) == [t] + Tokens(z)
  {
    var s, e := t + z, |t| - 1;
    AtOne(s, '\'');
    assert forall k :: 0 <= k < |t| ==> s[k] == t[k];
    hide At, IndexOf;
    IndexOfIs(s, "'", 1, e);
    assert s[..e + 1] == t && s[e + 1..] == z;
  }

  lemma {:induction false} RunFirst(t: string, z: string)
    requires Run(t) && (z == "" || PySpace(z[0])) && (t[0] == '\'' ==> '\'' !in z)
    ensures Tokens(t + z) == [t] + Tokens(z)
  {
    var s, e := t + z, |t|;
    assert forall k :: 0 <= k < e ==> s[k] == t[k];
    assert e < |s| ==> s[e] == z[0];
    RunEndIs(s, 1, e);
    if t[0] == '\'' {
      NoMoreQuotes(t, z);
    }
    hide IndexOf, RunEnd;
    assert s[..e] == t && s[e..] == z;
  }

  lemma {:induction false} NoMoreQuotes(t: string, z: string)
    requires Run(t) && t[0] == '\'' && '\'' !in z
    ensures IndexOf(t + z, "'", 1).None?
  {
    var s := t + z;
    AtOne(s, '\'');
    IndexOfFirst(s, "'", 1);
    forall k | 1 <= k < |s| ensures s[k] != '\'' {
      if k < |t| {
        assert s[k] == t[1..][k - 1];
      } else {
        assert s[k] == z[k - |t|];
      }
    }
    hide IndexOf, At;
  }

  /** Tokens joined by single spaces are read as the same tokens. */
  lemma {:induction false} JoinedTokensRead(ts: seq<string>)
    requires IsTokens(ts)
    ensures Tokens(Join(ts, " ")) == ts
  {
    if ts != [] {
      JoinedTokensRead(ts[1..]);
      JoinParts(ts);
      hide Tokens, Join, JoinTail, Literal, Run;
      if Literal(ts[0]) {
        LiteralFirst(ts[0], JoinTail(ts));
      } else {
        RunFirst(ts[0], JoinTail(ts));
      }
      assert ts == [ts[0]] + ts[1..];
    }
  }

  lemma {:induction false} QuoteFreeParts(a: seq<string>, b: seq<string>)
    requires QuoteFree(a + b)
    ensures QuoteFree(a) && QuoteFree(b)
  {
    assert forall k :: 0 <= k < |a| ==> a[k] == (a + b)[k];
    assert forall k :: 0 <= k < |b| ==> b[k] == (a + b)[k + |a|];
  }

  /** A part of a token list is a token list. */
  lemma {:induction false} TokenParts(a: seq<string>, b: seq<string>)
    requires IsTokens(a + b)
    ensures IsTokens(a) && IsTokens(b)
  {
    if a == [] {
      assert a + b == b;
    } else {
      assert (a + b)[1..] == a[1..] + b;
      TokenParts(a[1..], b);
      if a[0] != "" && a[0][0] == '\'' && !Literal(a[0]) {
        QuoteFreeParts(a[1..], b);
      }
    }
  }

  lemma {:induction false} TokensNotEmpty(ts: seq<string>)
    requires IsTokens(ts)
    ensures forall k :: 0 <= k < |ts| ==> ts[k] != ""
  {
    if ts != [] {
      TokensNotEmpty(ts[1..]);
      assert forall k :: 0 < k < |ts| ==> ts[k] == ts[1..][k - 1];
    }
  }


  // ---------------------------------------------------------------- the clause in characters

  /** One blank between words and none at the ends. */
  predicate SingleSpaced(s: string) {
    && (forall k :: 0 <= k < |s| && PySpace(s[k]) ==> s[k] == ' ' && 0 < k < |s| - 1)
    && (forall k :: 0 <= k < |s| - 1 ==> !(s[k] == ' ' && s[k + 1] == ' '))
  }

  /** The characters that are not space, each with whether space stands before it; `spaced` says so for the first. */
  function Marks(s: string, spaced: bool): seq<(char, bool)> {
    if s == "" then []
    else if PySpace(s[0]) then Marks(s[1..], true)
    else [(s[0], spaced)] + Marks(s[1..], false)
  }

  /** `text` is the clause with every run of space drawn together to one blank, and none at the ends. */
  predicate Collapses(clause: string, text: string) {
    SingleSpaced(text) && Marks(text, true) == Marks(clause, true)
  }

  /** The text is the tokens in order, each behind a blank or directly behind a closed literal. */
  predicate TokenText(text: string, ts: seq<string>) {
    if ts == [] then text == ""
    else
      && ts[0] <= text
      && var rest := text[|ts[0]|..];
         if rest == "" then ts[1..] == []
         else if rest[0] == ' ' then ts[1..] != [] && TokenText(rest[1..], ts[1..])
         else Literal(ts[0]) && ts[1..] != [] && TokenText(rest, ts[1..])
  }

  lemma {:induction false} MarksJoin(a: string, b: string, spaced: bool)
    ensures
      Marks(a + b, spaced)
      == Marks(a, spaced) + Marks(b, if a == "" then spaced else PySpace(a[|a| - 1]))
  {
    if a == "" {
      assert a + b == b;
    } else {
      var next := PySpace(a[0]);
      assert (a + b)[1..] == a[1..] + b;
      MarksJoin(a[1..], b, next);
      if !next {
        Assoc([(a[0], spaced)], Marks(a[1..], false), Marks(b, if a[1..] == "" then false else PySpace(a[|a| - 1])));
      }
    }
  }

  lemma {:induction false} MarksBehindSpace(s: string)
    requires s == "" || PySpace(s[0])
    ensures Marks(s, false) == Marks(s, true)
  {
  }

  lemma {:induction false} WordsJoin(w: string, ws: seq<string>)
    ensures Join([w] + ws, " ") == if ws == [] then w else w + (" " + Join(ws, " "))
  {
    assert ([w] + ws)[1..] == ws;
  }

  /** Drawing the space of a clause together keeps every other character and every place where space stood. */
  lemma {:induction false} NormalisedMarks(clause: string)
    ensures Marks(Normalised(clause), true) == Marks(clause, true)
    ensures Words(clause) == [] ==> Normalised(clause) == ""
    decreases |clause|
  {
    if clause != "" {
      if PySpace(clause[0]) {
        NormalisedMarks(clause[1..]);
      } else {
        var e := RunEnd(clause, 1);
        var w, rest := clause[..e], clause[e..];
        RunEndLaws(clause, 1);
        NormalisedMarks(rest);
        assert clause == w + rest && w[|w| - 1] == clause[e - 1];
        hide RunEnd;
        MarksJoin(w, rest, true);
        MarksBehindSpace(rest);
        WordsJoin(w, Words(rest));
        var j := Join(Words(rest), " ");
        if Words(rest) == [] {
          assert Marks(w, true) + [] == Marks(w, true);
        } else {
          MarksJoin(w, " " + j, true);
          assert (" " + j)[1..] == j;
        }
      }
    }
  }

  lemma {:induction false} SpacedCons(w: string, j: string)
    requires w != "" && (forall k :: 0 <= k < |w| ==> !PySpace(w[k])) && SingleSpaced(j)
    ensures SingleSpaced(w) && (j != "" ==> SingleSpaced(w + (" " + j)))
  {
    var s := w + (" " + j);
    assert forall k :: 0 <= k < |s| ==> s[k] == if k < |w| then w[k] else if k == |w| then ' ' else j[k - |w| - 1];
    if j != "" {
      assert !PySpace(j[0]);
    }
  }

  lemma {:induction false} NormalisedSpaced(clause: string)
    ensures SingleSpaced(Normalised(clause))
    ensures Words(clause) != [] ==> Normalised(clause) != ""
    decreases |clause|
  {
    if clause != "" {
      if PySpace(clause[0]) {
        NormalisedSpaced(clause[1..]);
      } else {
        var e := RunEnd(clause, 1);
        RunEndLaws(clause, 1);
        NormalisedSpaced(clause[e..]);
        hide RunEnd, SingleSpaced;
        WordsJoin(clause[..e], Words(clause[e..]));
        SpacedCons(clause[..e], Join(Words(clause[e..]), " "));
      }
    }
  }

  lemma {:induction false} SpacedSuffix(s: string, e: nat)
    requires SingleSpaced(s) && 0 < e <= |s|
    ensures e < |s| && s[e] == ' ' ==> SingleSpaced(s[e + 1..]) && s[e + 1..] != ""
    ensures e < |s| && s[e] != ' ' ==> SingleSpaced(s[e..]) && !PySpace(s[e])
  {
    if e < |s| {
      var r := if s[e] == ' ' then s[e + 1..] else s[e..];
      var d := |s| - |r|;
      assert forall k :: 0 <= k < |r| ==> r[k] == s[k + d];
      if s[e] == ' ' {
        assert PySpace(s[e]);
        assert s[e + 1] != ' ';
      }
    }
  }

  lemma {:induction false} TextCons(t: string, text: string, us: seq<string>)
    ensures text == "" ==> TokenText(t + text, [t])
    ensures text != "" && text[0] == ' ' && us != [] && TokenText(text[1..], us) ==> TokenText(t + text, [t] + us)
    ensures text != "" && text[0] != ' ' && us != [] && Literal(t) && TokenText(text, us) ==> TokenText(t + text, [t] + us)
  {
    var s := t + text;
    assert s[|t|..] == text;
    assert ([t] + us)[1..] == us && [t][1..] == [];
  }

  lemma {:induction false} NoText()
    ensures TokenText("", [])
  {
  }

  lemma {:induction false} SpacedFirst(s: string)
    requires SingleSpaced(s) && s != ""
    ensures !PySpace(s[0])
  {
  }

  /** A text that is not space at its start has a token. */
  lemma {:induction false} SomeToken(s: string)
    requires SingleSpaced(s) && s != ""
    ensures Tokens(s) != []
  {
    hide Tokens;
    TokensFirst(s);
  }

  lemma {:induction false} Blank()
    ensures PySpace(' ')
  {
  }

  /** The tokens of a single-spaced text spell it. */
  lemma {:induction false} TokensSpell(s: string)
    requires SingleSpaced(s)
    ensures TokenText(s, Tokens(s))
    decreases |s|
  {
    hide *;
    if s == "" {
      NoToken();
      NoText();
    } else {
      var t, rest := s[..TokenLength(s)], s[TokenLength(s)..];
      assert s == t + rest;
      SpacedFirst(s);
      TokensFirst(s);
      TokenShape(s);
      SpacedSuffix(s, TokenLength(s));
      TextCons(t, rest, Tokens(rest));
      if rest == "" {
        NoToken();
        assert [t] + [] == [t];
      } else if rest[0] == ' ' {
        Blank();
        SpaceFirst(rest);
        TokensSpell(rest[1..]);
        SomeToken(rest[1..]);
      } else {
        TokensSpell(rest);
        SomeToken(rest);
      }
    }
  }

  lemma {:induction false} NoToken()
    ensures Tokens("") == []
  {
  }

  /** What the clause is split into: its characters with the space drawn together, taken apart into tokens. */
  lemma {:induction false} ClauseMeans(clause: string)
    ensures Collapses(clause, Normalised(clause))
    ensures IsTokens(Tokens(Normalised(clause))) && TokenText(Normalised(clause), Tokens(Normalised(clause)))
  {
    NormalisedMarks(clause);
    NormalisedSpaced(clause);
    TokensSpell(Normalised(clause));
    TokensAreTokens(Normalised(clause));
  }

  /** Where the tokens start, counted in characters that are not space. */
  function Starts(ts: seq<string>, from: nat): seq<nat> {
    if ts == [] then [] else [from] + Starts(ts[1..], from + |Marks(ts[0], true)|)
  }

  /** The marks `m` are those of `n`, and space stands before character `k` as well where a token starts. */
  predicate SpacedAtStarts(m: seq<(char, bool)>, n: seq<(char, bool)>, starts: seq<nat>, from: nat) {
    && |m| == |n|
    && forall k :: 0 <= k < |m| ==> m[k].0 == n[k].0 && (m[k].1 <==> n[k].1 || k + from in starts)
  }

  lemma {:induction false} TokenEndsSolid(t: string)
    requires Literal(t) || Run(t)
    ensures t != "" && !PySpace(t[|t| - 1]) && !PySpace(t[0])
    ensures Marks(t, true) != [] && Marks(t, true)[0].1
  {
    assert !PySpace('\'');
  }

  lemma {:induction false} StartsFrom(ts: seq<string>, from: nat)
    ensures forall k :: k in Starts(ts, from) ==> from <= k
    decreases |ts|
  {
    if ts != [] {
      StartsFrom(ts[1..], from + |Marks(ts[0], true)|);
    }
  }

  lemma {:induction false} BlankMarks(j: string)
    ensures Marks(" " + j, false) == Marks(j, true)
  {
    assert (" " + j)[1..] == j;
  }

  /** Behind a token: the marks of the rest, and of the rest without a blank in front of it. */
  lemma {:induction false} TailMarks(rest: string, tail: string)
    requires rest != "" && tail == (if rest[0] == ' ' then rest[1..] else rest)
    requires rest[0] != ' ' ==> !PySpace(rest[0])
    ensures |Marks(rest, false)| == |Marks(tail, true)|
    ensures forall k :: 0 <= k < |Marks(tail, true)| ==>
      Marks(rest, false)[k].0 == Marks(tail, true)[k].0 && (k > 0 ==> Marks(rest, false)[k] == Marks(tail, true)[k])
    ensures Marks(tail, true) != [] && Marks(rest, false)[0].1 ==> Marks(tail, true)[0].1
    ensures rest[0] == ' ' ==> Marks(rest, false) == Marks(tail, true)
  {
    if rest[0] != ' ' {
      assert Marks(rest, true) == [(rest[0], true)] + Marks(rest[1..], false);
    }
  }

  lemma {:induction false} StartsCons(t: string, us: seq<string>, from: nat)
    ensures Starts([t] + us, from) == [from] + Starts(us, from + |Marks(t, true)|)
  {
    assert ([t] + us)[1..] == us;
  }

  lemma {:induction false} StartsFirst(us: seq<string>, from: nat)
    requires us != []
    ensures from in Starts(us, from)
  {
  }

  /** The marks of one token and of what follows it. */
  lemma {:induction false} MoreMarks(
    m: seq<(char, bool)>, mj: seq<(char, bool)>, mr: seq<(char, bool)>, mx: seq<(char, bool)>, starts: seq<nat>, from: nat)
    requires m != [] && m[0].1 && SpacedAtStarts(mj, mx, starts, from + |m|)
    requires |mr| == |mx| && forall k :: 0 <= k < |mx| ==> mr[k].0 == mx[k].0 && (k > 0 ==> mr[k] == mx[k])
    requires mx != [] ==> (mr[0].1 ==> mx[0].1)
    requires mx == mr || from + |m| in starts
    requires forall k :: k in starts ==> from + |m| <= k
    ensures SpacedAtStarts(m + mj, m + mr, [from] + starts, from)
  {
    var n, next := |m|, from + |m|;
    var a, b, all := m + mj, m + mr, [from] + starts;
    forall k | 0 <= k < |a| ensures a[k].0 == b[k].0 && (a[k].1 <==> b[k].1 || k + from in all) {
      if k < n {
        assert a[k] == m[k] == b[k];
        assert k + from in all <==> k == 0;
      } else {
        assert a[k] == mj[k - n] && b[k] == mr[k - n];
        assert k + from in all <==> k - n + next in starts;
        assert mj[k - n].1 <==> mx[k - n].1 || k - n + next in starts;
      }
    }
  }

  lemma {:induction false} TokenTail(text: string, ts: seq<string>)
    requires ts != [] && TokenText(text, ts) && IsTokens(ts) && text[|ts[0]|..] != ""
    ensures
      var rest := text[|ts[0]|..];
      && ts[1..] != [] && IsTokens(ts[1..])
      && TokenText(if rest[0] == ' ' then rest[1..] else rest, ts[1..])
  {
  }

  lemma {:induction false} TokenAlone(text: string, ts: seq<string>)
    requires ts != [] && TokenText(text, ts) && text[|ts[0]|..] == ""
    ensures ts == [ts[0]] && text == ts[0]
  {
    assert text == ts[0] + text[|ts[0]|..];
  }

  lemma {:induction false} FirstIsToken(ts: seq<string>)
    requires ts != [] && IsTokens(ts)
    ensures Literal(ts[0]) || Run(ts[0])
  {
  }

  lemma {:induction false} OneTokenMarks(t: string, from: nat)
    requires Marks(t, true) != [] && Marks(t, true)[0].1
    ensures SpacedAtStarts(Marks(Join([t], " "), true), Marks(t, true), Starts([t], from), from)
  {
    assert Starts([], from + |Marks(t, true)|) == [];
    assert Starts([t], from) == [from];
    hide Marks;
  }

  /** One token and what follows it, `tail` being the rest without a blank in front. */
  lemma {:induction false} MarksStep(t: string, us: seq<string>, rest: string, from: nat)
    requires Literal(t) || Run(t)
    requires rest != "" && us != [] && (rest[0] != ' ' ==> !PySpace(rest[0]))
    requires
      var tail := if rest[0] == ' ' then rest[1..] else rest;
      var next := from + |Marks(t, true)|;
      SpacedAtStarts(Marks(Join(us, " "), true), Marks(tail, true), Starts(us, next), next)
    ensures SpacedAtStarts(Marks(Join([t] + us, " "), true), Marks(t + rest, true), Starts([t] + us, from), from)
  {
    hide *;
    var tail, j, m := if rest[0] == ' ' then rest[1..] else rest, Join(us, " "), Marks(t, true);
    var next := from + |m|;
    TokenEndsSolid(t);
    WordsJoin(t, us);
    MarksJoin(t, rest, true);
    MarksJoin(t, " " + j, true);
    BlankMarks(j);
    TailMarks(rest, tail);
    StartsCons(t, us, from);
    StartsFirst(us, next);
    StartsFrom(us, next);
    MoreMarks(m, Marks(j, true), Marks(rest, false), Marks(tail, true), Starts(us, next), from);
  }

  /**
   * In the tokens joined by blanks, space stands before a character exactly where it stands in the text or a token
   * starts; every other character is where it was.
   */
  lemma {:induction false} JoinedMarks(text: string, ts: seq<string>, from: nat)
    requires TokenText(text, ts) && IsTokens(ts)
    ensures SpacedAtStarts(Marks(Join(ts, " "), true), Marks(text, true), Starts(ts, from), from)
    ensures ts != [] ==> text != "" && !PySpace(text[0])
    decreases |ts|
  {
    if ts != [] {
      var t, us := ts[0], ts[1..];
      hide *;
      FirstIsToken(ts);
      TokenEndsSolid(t);
      TokenIsFirst(text, ts);
      var rest := text[|t|..];
      if rest == "" {
        TokenAlone(text, ts);
        OneTokenMarks(t, from);
      } else {
        TokenTail(text, ts);
        JoinedMarks(if rest[0] == ' ' then rest[1..] else rest, us, from + |Marks(t, true)|);
        assert ts == [t] + us;
        MarksStep(t, us, rest, from);
      }
    } else {
      assert text == "" && Join([], " ") == "";
    }
  }

  lemma {:induction false} TokenIsFirst(text: string, ts: seq<string>)
    requires ts != [] && TokenText(text, ts) && ts[0] != ""
    ensures |ts[0]| <= |text| && text == ts[0] + text[|ts[0]|..] && text[0] == ts[0][0]
  {
  }

  // ---------------------------------------------------------------- lines

  function Size(t: string): nat {
    |t|
  }

  lemma {:induction false} JoinAppend(ts: seq<string>, t: string)
    requires ts != []
    ensures Join(ts + [t], " ") == Join(ts, " ") + " " + t
  {
    if |ts| == 1 {
      assert (ts + [t])[1..] == [t];
    } else {
      JoinAppend(ts[1..], t);
      assert (ts + [t])[1..] == ts[1..] + [t];
    }
  }

  lemma {:induction false} JoinOne(t: string)
    ensures Join([t], " ") == t
  {
  }

  /** The tokens of each line. */
  function LineTokens(lines: seq<string>): seq<seq<string>> {
    if lines == [] then [] else [Tokens(lines[0])] + LineTokens(lines[1..])
  }

  lemma {:induction false} LineTokensAppend(lines: seq<string>, line: string)
    ensures LineTokens(lines + [line]) == LineTokens(lines) + [Tokens(line)]
  {
    if lines == [] {
      assert lines + [line] == [line];
      assert [line][1..] == [];
    } else {
      LineTokensAppend(lines[1..], line);
      assert (lines + [line])[1..] == lines[1..] + [line];
    }
  }

  /** A line made of tokens, as the loop keeps it. */
  predicate LineOf(line: string, ts: seq<string>, max: nat) {
    ts != [] && line == Join(ts, " ") && IsTokens(ts) && |line| == Width(ts, Size, 1) && line != "" && |line| <= max
  }

  lemma {:induction false} LineStarts(t: string, max: nat)
    requires IsTokens([t]) && |t| <= max && t != ""
    ensures LineOf(t, [t], max)
  {
    JoinOne(t);
    WidthOne(t, Size, 1);
  }

  lemma {:induction false} LineGrows(line: string, ts: seq<string>, t: string, max: nat)
    requires LineOf(line, ts, max) && IsTokens(ts + [t])
    ensures |line + " " + t| == Width(ts + [t], Size, 1)
    ensures |line + " " + t| <= max ==> LineOf(line + " " + t, ts + [t], max)
  {
    JoinAppend(ts, t);
    WidthAppend(ts, t, Size, 1);
  }

  /** What is known of the lines after `k` tokens: the lines so far hold them, filled greedily. */
  ghost predicate LinesHold(lines: seq<string>, current: string, ts: seq<string>, k: nat, max: nat)
    requires k <= |ts|
  {
    var cur := Tokens(current);
    && LineOf(current, cur, max)
    && (forall i :: 0 <= i < |lines| ==> LineOf(lines[i], Tokens(lines[i]), max))
    && Filled(LineTokens(lines) + [cur], Size, 1, max)
    && Concat(LineTokens(lines) + [cur]) == ts[..k]
  }

  lemma {:induction false} SuffixTokens(ts: seq<string>, head: seq<string>, cur: seq<string>, k: nat)
    requires k < |ts| && ts[..k] == head + cur && IsTokens(ts)
    ensures IsTokens(cur + [ts[k]]) && IsTokens([ts[k]])
  {
    assert ts == head + ((cur + [ts[k]]) + ts[k + 1..]);
    hide IsTokens;
    TokenParts(head, (cur + [ts[k]]) + ts[k + 1..]);
    TokenParts(cur + [ts[k]], ts[k + 1..]);
    TokenParts(cur, [ts[k]]);
  }

  lemma {:induction false} FirstLine(ts: seq<string>, max: nat)
    requires ts != [] && IsTokens(ts) && |ts[0]| <= max
    ensures LinesHold([], ts[0], ts, 1, max)
  {
    var t := ts[0];
    assert ts[..1] == [t] && ts == [t] + ts[1..];
    TokenParts([t], ts[1..]);
    TokensNotEmpty([t]);
    assert [t][0] == t;
    LineStarts(t, max);
    JoinedTokensRead([t]);
    JoinOne(t);
    StartFilled(Size, 1, max);
    Greedy.Opens([], t, Size, 1, max);
    assert [] + [[t]] == LineTokens([]) + [Tokens(t)];
    ConcatOne([t]);
  }

  lemma {:induction false} LineStep(lines: seq<string>, current: string, ts: seq<string>, k: nat, max: nat)
    requires k < |ts| && IsTokens(ts) && |ts[k]| <= max && LinesHold(lines, current, ts, k, max)
    ensures |current + " " + ts[k]| <= max ==> LinesHold(lines, current + " " + ts[k], ts, k + 1, max)
    ensures |current + " " + ts[k]| > max ==> LinesHold(lines + [current], ts[k], ts, k + 1, max)
  {
    var t, cur, gs := ts[k], Tokens(current), LineTokens(lines);
    hide Tokens, IsTokens, Filled, Concat, LineTokens, Fits, Width, Join;
    ConcatAppend(gs, [cur]);
    ConcatOne(cur);
    SuffixTokens(ts, Concat(gs), cur, k);
    assert ts[..k + 1] == ts[..k] + [t];
    LineGrows(current, cur, t, max);
    if |current + " " + t| <= max {
      JoinedTokensRead(cur + [t]);
      DoesFit(cur + [t], Size, 1, max);
      Grows(gs, cur, t, Size, 1, max);
    } else {
      DoesNotFit(cur + [t], Size, 1, max);
      assert (gs + [cur])[|gs|] == cur;
      Greedy.Opens(gs + [cur], t, Size, 1, max);
      LineTokensAppend(lines, current);
      JoinedTokensRead([t]);
      JoinOne(t);
      TokensNotEmpty([t]);
      assert [t][0] != "";
      LineStarts(t, max);
    }
  }

  lemma {:induction false} LinesDone(lines: seq<string>, current: string, ts: seq<string>, max: nat)
    requires LinesHold(lines, current, ts, |ts|, max)
    ensures Holds(lines + [current], ts, max)
  {
    var all := lines + [current];
    assert ts[..|ts|] == ts;
    hide Tokens, LineOf, Filled, Concat, LineTokens;
    LineTokensAppend(lines, current);
    forall i | 0 <= i < |all| ensures LineOf(all[i], Tokens(all[i]), max) {
      if i < |lines| {
        assert all[i] == lines[i];
      }
    }
  }

  /** The lines hold exactly the tokens `ts`, each line is one, is not empty, fits, and is filled greedily. */
  ghost predicate Holds(lines: seq<string>, ts: seq<string>, max: nat) {
    && (forall i :: 0 <= i < |lines| ==> LineOf(lines[i], Tokens(lines[i]), max))
    && Filled(LineTokens(lines), Size, 1, max)
    && Concat(LineTokens(lines)) == ts
  }

  /** The first `k` tokens fit on a line. */
  predicate NoneTooLong(ts: seq<string>, k: nat, max: nat)
    requires k <= |ts|
  {
    forall j :: 0 <= j < k ==> |ts[j]| <= max
  }

  /** Token `k` is the first that is too long, and the error names it. */
  predicate FirstTooLong(ts: seq<string>, k: nat, max: nat, error: SapError)
    requires k < |ts|
  {
    NoneTooLong(ts, k, max) && |ts[k]| > max && error == OptionTooLong(ts[k])
  }

  lemma {:induction false} TooLongNamed(ts: seq<string>, max: nat, error: SapError)
    requires NamesFirst(ts, max, error)
    ensures error.OptionTooLong? && !NoneTooLong(ts, |ts|, max)
  {
  }

  lemma {:induction false} TooLongStep(ts: seq<string>, k: nat, max: nat)
    requires k < |ts| && NoneTooLong(ts, k, max)
    ensures |ts[k]| <= max ==> NoneTooLong(ts, k + 1, max)
    ensures |ts[k]| > max ==> FirstTooLong(ts, k, max, OptionTooLong(ts[k])) && !NoneTooLong(ts, |ts|, max)
  {
  }

  /** Some token is too long, and the error names the first such. */
  ghost predicate NamesFirst(ts: seq<string>, max: nat, error: SapError) {
    exists k :: 0 <= k < |ts| && FirstTooLong(ts, k, max, error)
  }

  lemma {:induction false} FirstNamed(ts: seq<string>, k: nat, max: nat, error: SapError)
    requires k < |ts| && FirstTooLong(ts, k, max, error)
    ensures NamesFirst(ts, max, error)
  {
  }

  /** What the loop makes of the first `k` tokens. */
  ghost predicate Collected(lines: seq<string>, current: string, ts: seq<string>, k: nat, max: nat)
    requires k <= |ts|
  {
    && NoneTooLong(ts, k, max)
    && if k == 0 then lines == [] && current == "" else current != "" && LinesHold(lines, current, ts, k, max)
  }

  lemma {:induction false} Collects(lines: seq<string>, current: string, ts: seq<string>, k: nat, max: nat)
    requires k < |ts| && IsTokens(ts) && Collected(lines, current, ts, k, max)
    ensures |ts[k]| > max ==> NamesFirst(ts, max, OptionTooLong(ts[k])) && !NoneTooLong(ts, |ts|, max)
    ensures |ts[k]| <= max ==>
      var candidate := if current != "" then current + " " + ts[k] else ts[k];
      && (|candidate| > max ==> Collected(lines + [current], ts[k], ts, k + 1, max))
      && (|candidate| <= max ==> Collected(lines, candidate, ts, k + 1, max))
  {
    hide LinesHold, NoneTooLong, FirstTooLong, IsTokens;
    TooLongStep(ts, k, max);
    if |ts[k]| > max {
      FirstNamed(ts, k, max, OptionTooLong(ts[k]));
    } else if k == 0 {
      FirstLine(ts, max);
      LineNotEmpty([], ts[0], ts, 1, max);
    } else {
      LineStep(lines, current, ts, k, max);
      var candidate := current + " " + ts[k];
      if |candidate| > max {
        LineNotEmpty(lines + [current], ts[k], ts, k + 1, max);
      } else {
        LineNotEmpty(lines, candidate, ts, k + 1, max);
      }
    }
  }

  lemma {:induction false} CollectedAll(lines: seq<string>, current: string, ts: seq<string>, max: nat)
    requires Collected(lines, current, ts, |ts|, max)
    ensures NoneTooLong(ts, |ts|, max) && (current != "" <==> ts != [])
    ensures Holds(if current != "" then lines + [current] else lines, ts, max)
  {
    hide LinesHold, NoneTooLong, Holds;
    if ts == [] {
      NothingToHold(max);
    } else {
      LinesDone(lines, current, ts, max);
    }
  }

  lemma {:induction false} CollectStarts(ts: seq<string>, max: nat)
    ensures Collected([], "", ts, 0, max)
  {
  }

  /**
   * The lines say what the clause says: they hold, in order and filled greedily, the tokens of the clause with its space
   * drawn together.
   */
  ghost predicate SaysClause(clause: string, lines: seq<string>, max: nat) {
    exists text, ts :: Collapses(clause, text) && IsTokens(ts) && TokenText(text, ts) && Holds(lines, ts, max)
  }

  lemma {:induction false} LinesSayClause(clause: string, lines: seq<string>, max: nat)
    requires Holds(lines, Tokens(Normalised(clause)), max)
    ensures SaysClause(clause, lines, max)
  {
    hide Collapses, IsTokens, TokenText, Holds, Tokens, Normalised;
    ClauseMeans(clause);
  }

  /** `split_where_clause`. */
  method SplitWhereClause(clause: string, maxLine: nat) returns (r: Result<seq<string>, SapError>)
    ensures r.Ok? <==> NoneTooLong(Tokens(Normalised(clause)), |Tokens(Normalised(clause))|, maxLine)
    ensures r.Err? ==> NamesFirst(Tokens(Normalised(clause)), maxLine, r.error)
    ensures r.Ok? ==> Holds(r.value, Tokens(Normalised(clause)), maxLine) && SaysClause(clause, r.value, maxLine)
    ensures r.Ok? ==> Solid(Join(r.value, " ")) == Solid(clause)
  {
    hide *;
    var text := Normalised(clause);
    var tokens := Tokens(text);
    var lines: seq<string>, current := [], "";
    CollectStarts(tokens, maxLine);
    if text == "" {
      NoToken();
      CollectedAll(lines, current, tokens, maxLine);
      LinesSayClause(clause, [], maxLine);
      LinesKeepClause(clause, [], maxLine);
      return Ok([]);
    }
    TokensAreTokens(text);
    for k := 0 to |tokens|
      invariant Collected(lines, current, tokens, k, maxLine)
    {
      var token := tokens[k];
      Collects(lines, current, tokens, k, maxLine);
      if |token| > maxLine {
        return Err(OptionTooLong(token));
      }
      var candidate := if current != "" then current + " " + token else token;
      if |candidate| > maxLine {
        lines := lines + [current];
        current := token;
      } else {
        current := candidate;
      }
    }
    CollectedAll(lines, current, tokens, maxLine);
    if current != "" {
      lines := lines + [current];
    }
    LinesSayClause(clause, lines, maxLine);
    LinesKeepClause(clause, lines, maxLine);
    return Ok(lines);
  }

  lemma {:induction false} NothingToHold(max: nat)
    ensures Holds([], [], max) && Tokens("") == []
  {
    StartFilled(Size, 1, max);
  }

  lemma {:induction false} LineNotEmpty(lines: seq<string>, current: string, ts: seq<string>, k: nat, max: nat)
    requires k <= |ts| && LinesHold(lines, current, ts, k, max)
    ensures current != ""
  {
    hide Tokens, Filled, Concat, LineTokens;
  }

  lemma {:induction false} JoinedLines(lines: seq<string>, max: nat)
    requires forall i :: 0 <= i < |lines| ==> LineOf(lines[i], Tokens(lines[i]), max)
    ensures Join(lines, " ") == Join(Concat(LineTokens(lines)), " ")
    ensures lines != [] ==> Concat(LineTokens(lines)) != []
  {
    hide Tokens, LineOf, Join;
    if lines != [] {
      var ts, rest := Tokens(lines[0]), lines[1..];
      assert LineOf(lines[0], ts, max);
      assert forall i :: 0 <= i < |rest| ==> rest[i] == lines[i + 1];
      JoinedLines(rest, max);
      LineJoin(lines, max);
      JoinTwo(ts, Concat(LineTokens(rest)));
    }
  }

  lemma {:induction false} LineJoin(lines: seq<string>, max: nat)
    requires lines != [] && LineOf(lines[0], Tokens(lines[0]), max)
    ensures Tokens(lines[0]) != [] && Join(Tokens(lines[0]), " ") == lines[0]
    ensures Join(lines, " ") == (if |lines| == 1 then lines[0] else lines[0] + (" " + Join(lines[1..], " ")))
    ensures |lines| == 1 ==> lines[1..] == []
  {
    hide Tokens;
  }

  lemma {:induction false} JoinFirst(t: string, ts: seq<string>)
    requires ts != []
    ensures Join([t] + ts, " ") == t + (" " + Join(ts, " "))
  {
    assert ([t] + ts)[1..] == ts;
  }

  lemma {:induction false} JoinTwo(a: seq<string>, b: seq<string>)
    requires a != []
    ensures Join(a + b, " ") == if b == [] then Join(a, " ") else Join(a, " ") + (" " + Join(b, " "))
  {
    if b == [] {
      assert a + b == a;
    } else if |a| == 1 {
      assert a == [a[0]];
      JoinFirst(a[0], b);
    } else {
      var rest := a[1..];
      hide Join;
      JoinTwo(rest, b);
      assert a == [a[0]] + rest;
      Assoc([a[0]], rest, b);
      JoinFirst(a[0], rest);
      JoinFirst(a[0], rest + b);
      Assoc(a[0], " " + Join(rest, " "), " " + Join(b, " "));
      Assoc(" ", Join(rest, " "), " " + Join(b, " "));
    }
  }

  /** The lines, joined by spaces, are read as the tokens of the normalised clause. */
  lemma {:induction false} LinesReadBack(clause: string, lines: seq<string>, max: nat)
    requires Holds(lines, Tokens(Normalised(clause)), max)
    ensures Tokens(Join(lines, " ")) == Tokens(Normalised(clause))
  {
    hide Tokens, Normalised, LineOf, Filled;
    JoinedLines(lines, max);
    TokensAreTokens(Normalised(clause));
    JoinedTokensRead(Tokens(Normalised(clause)));
  }

  /** The characters of a text that are not space. */
  function Solid(s: string): string {
    if s == "" then "" else (if PySpace(s[0]) then "" else [s[0]]) + Solid(s[1..])
  }

  function Letters(m: seq<(char, bool)>): string {
    if m == [] then "" else [m[0].0] + Letters(m[1..])
  }

  lemma {:induction false} LettersAre(m: seq<(char, bool)>)
    ensures |Letters(m)| == |m| && forall k :: 0 <= k < |m| ==> Letters(m)[k] == m[k].0
  {
    if m != [] {
      LettersAre(m[1..]);
    }
  }

  lemma {:induction false} SolidIsLetters(s: string, spaced: bool)
    ensures Solid(s) == Letters(Marks(s, spaced))
  {
    if s != "" {
      SolidIsLetters(s[1..], PySpace(s[0]));
      if !PySpace(s[0]) {
        assert ([(s[0], spaced)] + Marks(s[1..], false))[1..] == Marks(s[1..], false);
      }
    }
  }

  /**
   * Nothing of the clause is lost, added or moved: the lines joined by blanks hold its characters without the space, in
   * order, and space stands in them exactly where it stands in the clause or a token starts.
   */
  lemma {:induction false} LinesKeepClause(clause: string, lines: seq<string>, max: nat)
    requires Holds(lines, Tokens(Normalised(clause)), max)
    ensures Solid(Join(lines, " ")) == Solid(clause)
    ensures
      SpacedAtStarts(Marks(Join(lines, " "), true), Marks(clause, true), Starts(Tokens(Normalised(clause)), 0), 0)
  {
    var text, ts, joined := Normalised(clause), Tokens(Normalised(clause)), Join(lines, " ");
    hide *;
    HeldLines(lines, ts, max);
    JoinedLines(lines, max);
    ClauseMeans(clause);
    JoinedMarks(text, ts, 0);
    NormalisedMarks(clause);
    SameLetters(Marks(joined, true), Marks(clause, true), Starts(ts, 0));
    SolidIsLetters(joined, true);
    SolidIsLetters(clause, true);
  }

  lemma {:induction false} HeldLines(lines: seq<string>, ts: seq<string>, max: nat)
    requires Holds(lines, ts, max)
    ensures forall i :: 0 <= i < |lines| ==> LineOf(lines[i], Tokens(lines[i]), max)
    ensures Concat(LineTokens(lines)) == ts
  {
  }

  lemma {:induction false} SameLetters(m: seq<(char, bool)>, n: seq<(char, bool)>, starts: seq<nat>)
    requires SpacedAtStarts(m, n, starts, 0)
    ensures Letters(m) == Letters(n)
  {
    LettersAre(m);
    LettersAre(n);
  }

  lemma {:induction false} QuoteFreeText(text: string, ts: seq<string>)
    requires TokenText(text, ts) && QuoteFree(ts)
    ensures '\'' !in text
    decreases |ts|
  {
    if ts != [] {
      var rest := text[|ts[0]|..];
      assert text == ts[0] + rest;
      assert forall k :: 0 <= k < |ts[1..]| ==> ts[1..][k] == ts[k + 1];
      if rest != "" {
        if rest[0] == ' ' {
          QuoteFreeText(rest[1..], ts[1..]);
          assert rest == [rest[0]] + rest[1..];
        } else {
          assert false;
        }
      }
    }
  }

  /** The first token of a reading ends at the first quote behind its own, or else where the run without space ends. */
  lemma {:induction false} FirstEnds(text: string, ts: seq<string>)
    requires ts != [] && TokenText(text, ts) && IsTokens(ts)
    ensures text != "" && 0 < |ts[0]| <= |text| && ts[0] == text[..|ts[0]|]
    ensures Literal(ts[0]) ==> IndexOf(text, "'", 1) == Some(|ts[0]| - 1) && text[0] == '\''
    ensures !Literal(ts[0]) ==> RunEnd(text, 1) == |ts[0]| && (text[0] == '\'' ==> IndexOf(text, "'", 1).None?)
  {
    var t, rest := ts[0], text[|ts[0]|..];
    assert text == t + rest;
    AtOne(text, '\'');
    hide At, IndexOf, RunEnd;
    if Literal(t) {
      IndexOfIs(text, "'", 1, |t| - 1);
    } else {
      assert forall k :: 0 <= k < |t| ==> text[k] == t[k];
      RunEndIs(text, 1, |t|);
      if text[0] == '\'' {
        if rest != "" {
          QuoteFreeRest(rest, ts[1..]);
        }
        NoMoreQuotes(t, rest);
      }
    }
  }

  lemma {:induction false} QuoteFreeRest(rest: string, us: seq<string>)
    requires rest != "" && rest[0] == ' ' && TokenText(rest[1..], us) && QuoteFree(us)
    ensures '\'' !in rest
  {
    QuoteFreeText(rest[1..], us);
    assert rest == [rest[0]] + rest[1..];
  }

  /** There is one way to take a text apart into tokens. */
  lemma {:induction false} OneReading(text: string, ts: seq<string>, us: seq<string>)
    requires TokenText(text, ts) && IsTokens(ts) && TokenText(text, us) && IsTokens(us)
    ensures ts == us
    decreases |ts|
  {
    hide IndexOf, RunEnd, Literal, Run;
    if ts != [] && us != [] {
      FirstEnds(text, ts);
      FirstEnds(text, us);
      assert ts[0] == us[0];
      var rest := text[|ts[0]|..];
      if rest != "" {
        OneReading(if rest[0] == ' ' then rest[1..] else rest, ts[1..], us[1..]);
      }
      assert ts == [ts[0]] + ts[1..] && us == [us[0]] + us[1..];
    } else {
      NoTokensNoText(ts, text);
      NoTokensNoText(us, text);
    }
  }

  lemma {:induction false} NoTokensNoText(ts: seq<string>, text: string)
    requires TokenText(text, ts) && IsTokens(ts)
    ensures ts == [] <==> text == ""
  {
  }

  /** The text that shows these marks, with a blank for the space before a character. */
  function Spread(m: seq<(char, bool)>): string {
    if m == [] then "" else (if m[0].1 then " " else "") + [m[0].0] + Spread(m[1..])
  }

  lemma {:induction false} SpreadCons(c: char, spaced: bool, m: seq<(char, bool)>)
    ensures Spread([(c, spaced)] + m) == (if spaced then " " else "") + [c] + Spread(m)
  {
    assert ([(c, spaced)] + m)[1..] == m;
  }

  lemma {:induction false} SpreadOfMarks(s: string)
    requires forall k :: 0 <= k < |s| && PySpace(s[k]) ==> s[k] == ' ' && k < |s| - 1
    requires forall k :: 0 <= k < |s| - 1 ==> !(s[k] == ' ' && s[k + 1] == ' ')
    ensures Spread(Marks(s, false)) == s
    decreases |s|
  {
    if s != "" {
      if PySpace(s[0]) {
        assert !PySpace(s[1]);
        SpreadOfMarks(s[2..]);
        assert s[1..][1..] == s[2..] && s[1..][0] == s[1];
        SpreadCons(s[1], true, Marks(s[2..], false));
        assert s == " " + [s[1]] + s[2..];
      } else {
        SpreadOfMarks(s[1..]);
        SpreadCons(s[0], false, Marks(s[1..], false));
        assert s == "" + [s[0]] + s[1..];
      }
    }
  }

  lemma {:induction false} CollapseIs(s: string)
    requires SingleSpaced(s) && s != ""
    ensures Marks(s, true) != [] && s == [Marks(s, true)[0].0] + Spread(Marks(s, true)[1..])
  {
    assert !PySpace(s[0]);
    SpreadOfMarks(s[1..]);
    assert s == [s[0]] + s[1..];
  }

  /** There is one way to draw the space of a clause together. */
  lemma {:induction false} OneCollapse(a: string, b: string)
    requires SingleSpaced(a) && SingleSpaced(b) && Marks(a, true) == Marks(b, true)
    ensures a == b
  {
    if a != "" {
      CollapseIs(a);
    }
    if b != "" {
      CollapseIs(b);
    }
  }

  /** One text and one token list answer to the description of the clause: those the lines are made from. */
  lemma {:induction false} OneMeaning(clause: string, text: string, ts: seq<string>)
    ensures
      Collapses(clause, text) && IsTokens(ts) && TokenText(text, ts)
      <==> text == Normalised(clause) && ts == Tokens(Normalised(clause))
  {
    hide Normalised, Tokens, IsTokens, TokenText, SingleSpaced, Marks;
    ClauseMeans(clause);
    if Collapses(clause, text) && IsTokens(ts) && TokenText(text, ts) {
      OneCollapse(text, Normalised(clause));
      OneReading(text, ts, Tokens(text));
    }
  }

  lemma {:induction false} TokenInJoin(ts: seq<string>, k: nat)
    requires k < |ts|
    ensures exists p: nat :: At(Join(ts, " "), ts[k], p)
  {
    var s := Join(ts, " ");
    if k == 0 {
      assert s[0..|ts[0]|] == ts[0];
      assert At(s, ts[k], 0);
    } else {
      TokenInJoin(ts[1..], k - 1);
      var p: nat :| At(Join(ts[1..], " "), ts[k], p);
      var d := |ts[0]| + 1;
      assert s == (ts[0] + " ") + Join(ts[1..], " ");
      assert s[d + p..d + p + |ts[k]|] == Join(ts[1..], " ")[p..p + |ts[k]|];
      assert At(s, ts[k], d + p);
    }
  }

  lemma {:induction false} InSomeGroup(groups: seq<seq<string>>, t: string)
    requires t in Concat(groups)
    ensures exists i :: 0 <= i < |groups| && t in groups[i]
  {
    if t in groups[0] {
    } else {
      InSomeGroup(groups[1..], t);
      var i :| 0 <= i < |groups[1..]| && t in groups[1..][i];
      assert t in groups[i + 1];
    }
  }

  lemma {:induction false} LineTokensAt(lines: seq<string>, i: nat)
    requires i < |lines|
    ensures |LineTokens(lines)| == |lines| && LineTokens(lines)[i] == Tokens(lines[i])
  {
    LineCount(lines);
    if i > 0 {
      LineTokensAt(lines[1..], i - 1);
    }
  }

  /** Every token, a closed literal among them, stands whole on one line. */
  lemma {:induction false} TokenOnOneLine(lines: seq<string>, ts: seq<string>, max: nat, t: string)
    requires Holds(lines, ts, max) && t in ts
    ensures exists i: nat, p: nat :: i < |lines| && At(lines[i], t, p)
  {
    var groups := LineTokens(lines);
    hide Tokens, LineTokens, IsTokens, At, Filled, Concat;
    InSomeGroup(groups, t);
    LineCount(lines);
    var i :| 0 <= i < |groups| && t in groups[i];
    LineTokensAt(lines, i);
    assert LineOf(lines[i], Tokens(lines[i]), max);
    var k :| 0 <= k < |Tokens(lines[i])| && Tokens(lines[i])[k] == t;
    TokenInJoin(Tokens(lines[i]), k);
  }

  /** Any other lines with the same tokens, none too long, are at least as many. */
  lemma {:induction false} FewestLines(lines: seq<string>, others: seq<seq<string>>, ts: seq<string>, max: nat)
    requires Holds(lines, ts, max) && Concat(others) == ts
    requires forall i :: 0 <= i < |others| ==> |Join(others[i], " ")| <= max
    ensures |lines| <= |others|
  {
    hide Tokens, LineOf, Filled, Join;
    forall i | 0 <= i < |others| ensures Fits(others[i], Size, 1, max) {
      JoinLength(others[i]);
    }
    LineCount(lines);
    FewestGroups(LineTokens(lines), others, Size, 1, max);
  }

  lemma {:induction false} LineCount(lines: seq<string>)
    ensures |LineTokens(lines)| == |lines|
  {
    if lines != [] {
      LineCount(lines[1..]);
    }
  }

  lemma {:induction false} JoinLength(ts: seq<string>)
    ensures |Join(ts, " ")| == Width(ts, Size, 1)
  {
    if |ts| > 1 {
      var head, last := ts[..|ts| - 1], ts[|ts| - 1];
      assert ts == head + [last];
      JoinLength(head);
      JoinAppend(head, last);
    }
  }
}
