/** The SQL highlighter, and where it agrees with the splitter. */
module Tokenizer {
  import opened Text
  import opened Splitter
  import opened SplitterLaws

  datatype TokenKind = Comment | String | Number | Keyword | Name | Punct | Other

  datatype Token = Token(kind: TokenKind, text: string)

  const SQL_KEYWORDS: set<string> := {
    "SELECT", "FROM", "WHERE", "GROUP", "BY", "ORDER", "HAVING", "LIMIT", "OFFSET", "JOIN", "INNER", "LEFT", "RIGHT",
    "FULL", "OUTER", "ON", "AS", "AND", "OR", "NOT", "IN", "IS", "NULL", "LIKE", "BETWEEN", "UNION", "ALL", "DISTINCT",
    "INSERT", "INTO", "VALUES", "UPDATE", "SET", "DELETE", "CREATE", "TABLE", "VIEW", "INDEX", "DROP", "ALTER", "ADD",
    "COUNT", "SUM", "AVG", "MIN", "MAX", "CASE", "WHEN", "THEN", "ELSE", "END", "ASC", "DESC", "WITH", "EXISTS", "ANY",
    "SOME", "CAST", "COALESCE", "OVER", "PARTITION", "USING", "CROSS", "NATURAL"
  }

  const PUNCTUATION := "(),.;*=<>!+-/%|&{}[]:"

  predicate InNumber(c: char) {
    IsDigit(c) || c == '.'
  }

  /** The end of the run of digits and points that starts at `i`. */
  function NumberEnd(s: string, i: nat): (j: nat)
    requires i <= |s|
    ensures i <= j <= |s|
    decreases |s| - i
  {
    if i < |s| && InNumber(s[i]) then NumberEnd(s, i + 1) else i
  }

  function OrEnd(found: Scan, s: string): nat {
    match found
    case Open => |s|
    case Closed(e) => e
  }

  function TokenEnd(s: string, i: nat): (j: nat)
    requires i < |s|
    ensures i < j <= |s|
  {
    if KindAt(s, i) != Plain && KindAt(s, i) != DollarQuote then OrEnd(Element(s, i), s)
    else if IsDigit(s[i]) then NumberEnd(s, i + 1)
    else if IsNameStart(s[i]) then WordEnd(s, i + 1)
    else i + 1
  }

  function TokenKindAt(s: string, i: nat): TokenKind
    requires i < |s|
  {
    match KindAt(s, i)
    case BlockComment => Comment
    case LineComment => Comment
    case Literal => String
    case Identifier => String
    case _ =>
      if IsDigit(s[i]) then Number
      else if IsNameStart(s[i]) then (if Upper(s[i..WordEnd(s, i + 1)]) in SQL_KEYWORDS then Keyword else Name)
      else if s[i] in PUNCTUATION then Punct
      else Other
  }

  function Tokens(s: string, i: nat): seq<Token>
    decreases |s| - i
  {
    if i >= |s| then []
    else [Token(TokenKindAt(s, i), s[i..TokenEnd(s, i)])] + Tokens(s, TokenEnd(s, i))
  }

  /** The loop scans over the element at `i` and stops at `j`, never past the end of the text. */
  predicate Scans(s: string, i: nat, j: nat)
    requires i < |s|
  {
    i < j <= |s| && (Element(s, i) == Closed(j) || (Element(s, i).Open? && j == |s|))
  }

  method ScanString(sql: string, i: nat) returns (j: nat)
    requires i < |sql| && sql[i] == '\''
    ensures Scans(sql, i, j)
  {
    j := i + 1;
    while j < |sql|
      invariant i < j <= |sql|
      invariant Element(sql, i) == StringClose(sql, j)
    {
      if sql[j] == '\'' {
        if j + 1 < |sql| && sql[j + 1] == '\'' {
          j := j + 2;
          continue;
        }
        j := j + 1;
        return;
      }
      j := j + 1;
    }
  }

  method ScanIdentifier(sql: string, i: nat) returns (j: nat)
    requires i < |sql| && sql[i] == '"'
    ensures Scans(sql, i, j)
  {
    j := SkipIdentifier(sql, i);
    j := if j < |sql| then j else |sql|;
  }

  method ScanBlockComment(sql: string, i: nat) returns (j: nat)
    requires i + 1 < |sql| && sql[i] == '/' && sql[i + 1] == '*'
    ensures Scans(sql, i, j)
  {
    j := SkipBlockComment(sql, i);
    j := if j < |sql| then j else |sql|;
  }

  method ScanLineComment(sql: string, i: nat) returns (j: nat)
    requires i + 1 < |sql| && sql[i] == '-' && sql[i + 1] == '-'
    ensures Scans(sql, i, j)
  {
    j := SkipLineComment(sql, i);
    j := if j < |sql| then j else |sql|;
  }

  method ScanNumber(sql: string, i: nat) returns (j: nat)
    requires i < |sql| && IsDigit(sql[i])
    ensures j == NumberEnd(sql, i + 1)
  {
    j := i + 1;
    while j < |sql| && InNumber(sql[j])
      invariant i < j <= |sql|
      invariant NumberEnd(sql, i + 1) == NumberEnd(sql, j)
    {
      j := j + 1;
    }
  }

  method ScanWord(sql: string, i: nat) returns (j: nat)
    requires i < |sql| && IsNameStart(sql[i])
    ensures j == WordEnd(sql, i + 1)
  {
    j := i + 1;
    while j < |sql| && IsWord(sql[j])
      invariant i < j <= |sql|
      invariant WordEnd(sql, i + 1) == WordEnd(sql, j)
    {
      j := j + 1;
    }
  }

  /** The token that starts at `i`. */
  method ScanToken(sql: string, i: nat) returns (j: nat, kind: TokenKind)
    requires i < |sql|
    ensures j == TokenEnd(sql, i) && kind == TokenKindAt(sql, i)
  {
    hide Element, WordEnd, NumberEnd, Upper;
    j := i + 1;
    kind := Other;
    var ch := sql[i];
    if ch == '/' && i + 1 < |sql| && sql[i + 1] == '*' {
      j := ScanBlockComment(sql, i);
      kind := Comment;
    } else if ch == '-' && i + 1 < |sql| && sql[i + 1] == '-' {
      j := ScanLineComment(sql, i);
      kind := Comment;
    } else if ch == '\'' {
      j := ScanString(sql, i);
      kind := String;
    } else if ch == '"' {
      j := ScanIdentifier(sql, i);
      kind := String;
    } else if IsDigit(ch) {
      j := ScanNumber(sql, i);
      kind := Number;
    } else if IsNameStart(ch) {
      j := ScanWord(sql, i);
      kind := if Upper(sql[i..j]) in SQL_KEYWORDS then Keyword else Name;
    } else if ch in PUNCTUATION {
      kind := Punct;
    }
  }

  /** `tokenizeSql`: one token for each comment, literal, number, word or other character. */
  method TokenizeSql(sql: string) returns (out: seq<Token>)
    ensures out == Tokens(sql, 0)
  {
    hide TokenEnd, TokenKindAt;
    out := [];
    var i := 0;
    while i < |sql|
      invariant 0 <= i <= |sql|
      invariant Tokens(sql, 0) == out + Tokens(sql, i)
    {
      var j, kind := ScanToken(sql, i);
      Assoc(out, [Token(kind, sql[i..j])], Tokens(sql, j));
      out := out + [Token(kind, sql[i..j])];
      i := j;
    }
  }

  // ---------------------------------------------------------------- what the tokens mean

  function Concat(tokens: seq<Token>): string {
    if tokens == [] then "" else tokens[0].text + Concat(tokens[1..])
  }

  /** No character is lost, added or moved. */
  lemma {:induction false} TokensRebuildText(s: string, i: nat)
    requires i <= |s|
    ensures Concat(Tokens(s, i)) == s[i..]
    decreases |s| - i
  {
    hide TokenEnd, TokenKindAt;
    if i < |s| {
      TokensRebuildText(s, TokenEnd(s, i));
    }
  }

  /** Positions of the semicolon tokens when the first token starts at `offset`. */
  function SemicolonTokens(tokens: seq<Token>, offset: nat): seq<nat> {
    if tokens == [] then []
    else
      (if tokens[0] == Token(Punct, ";") then [offset] else [])
      + SemicolonTokens(tokens[1..], offset + |tokens[0].text|)
  }

  /** The highlighter, starting a token at `i`, starts one at `k`. */
  predicate Tokenized(s: string, i: nat, k: nat)
    requires k <= |s|
    decreases k - i
  {
    i == k || (i < k && Tokenized(s, TokenEnd(s, i), k))
  }

  lemma {:induction false} NumberIsPlain(s: string, i: nat)
    requires i <= |s|
    ensures forall k :: i <= k < NumberEnd(s, i) ==> InNumber(s[k])
    decreases |s| - i
  {
    if i < |s| && InNumber(s[i]) {
      NumberIsPlain(s, i + 1);
    }
  }

  lemma {:induction false} WordIsPlain(s: string, i: nat)
    requires i <= |s|
    ensures forall k :: i <= k < WordEnd(s, i) ==> IsWord(s[k])
    decreases |s| - i
  {
    if i < |s| && IsWord(s[i]) {
      WordIsPlain(s, i + 1);
    }
  }

  lemma {:induction false} SemicolonToken(s: string, i: nat)
    requires i < |s|
    ensures Token(TokenKindAt(s, i), s[i..TokenEnd(s, i)]) == Token(Punct, ";") <==> s[i] == ';'
  {
    hide Element, NumberEnd, WordEnd;
    assert s[i] == s[i..TokenEnd(s, i)][0];
    assert ";"[0] == ';';
    if s[i] == ';' {
      assert TokenEnd(s, i) == i + 1 && s[i..i + 1] == ";";
      assert PUNCTUATION[4] == ';';
    }
  }

  lemma {:induction false} SemicolonsStep(s: string, i: nat)
    requires i < |s|
    ensures
      SemicolonTokens(Tokens(s, i), i)
      == (if s[i] == ';' then [i] else []) + SemicolonTokens(Tokens(s, TokenEnd(s, i)), TokenEnd(s, i))
  {
    hide TokenEnd, TokenKindAt, SemicolonTokens;
    SemicolonToken(s, i);
    var e := TokenEnd(s, i);
    SemicolonsCons(Token(TokenKindAt(s, i), s[i..e]), Tokens(s, e), i);
  }

  lemma {:induction false} SemicolonsCons(t: Token, tokens: seq<Token>, offset: nat)
    ensures
      SemicolonTokens([t] + tokens, offset)
      == (if t == Token(Punct, ";") then [offset] else []) + SemicolonTokens(tokens, offset + |t.text|)
  {
    assert ([t] + tokens)[1..] == tokens;
  }

  // ---------------------------------------------------------------- where the two scanners agree

  lemma {:induction false} TokenizedBounds(s: string, i: nat, k: nat)
    requires k <= |s| && Tokenized(s, i, k)
    ensures i <= k
  {
  }

  lemma {:induction false} TokenizedTrans(s: string, i: nat, k: nat, m: nat)
    requires k <= |s| && m <= |s| && Tokenized(s, i, k) && Tokenized(s, k, m)
    ensures Tokenized(s, i, m)
    decreases k - i
  {
    hide TokenEnd;
    TokenizedBounds(s, k, m);
    if i < k {
      TokenizedTrans(s, TokenEnd(s, i), k, m);
    }
  }

  lemma {:induction false} TokenizedLinear(s: string, i: nat, k: nat, m: nat)
    requires k <= m <= |s| && Tokenized(s, i, k) && Tokenized(s, i, m)
    ensures Tokenized(s, k, m)
    decreases k - i
  {
    hide TokenEnd;
    if i < k {
      TokenizedLinear(s, TokenEnd(s, i), k, m);
    }
  }

  /** The listed positions are exactly the semicolons at which a token starts, in order. */
  lemma {:induction false} SemicolonTokensExact(s: string, i: nat, c: nat)
    requires i <= |s|
    ensures
      c in SemicolonTokens(Tokens(s, i), i) <==> i <= c < |s| && s[c] == ';' && Tokenized(s, i, c)
    decreases |s| - i
  {
    hide TokenEnd, TokenKindAt, SemicolonTokens;
    if i < |s| {
      var e := TokenEnd(s, i);
      SemicolonsStep(s, i);
      SemicolonTokensExact(s, e, c);
      if c < |s| && c != i && Tokenized(s, e, c) {
        TokenizedBounds(s, e, c);
      }
    } else {
      assert SemicolonTokens([], i) == [] by {
        NoSemicolons(i);
      }
    }
  }

  lemma {:induction false} NoSemicolons(i: nat)
    ensures SemicolonTokens([], i) == []
  {
  }

  /** Nothing at top level opens a dollar quote. */
  predicate NoDollarQuote(s: string) {
    forall k :: 0 <= k < |s| && TopLevel(s, k) ==> KindAt(s, k) != DollarQuote
  }

  lemma {:induction false} NoDollarNoQuote(s: string)
    requires '$' !in s
    ensures NoDollarQuote(s)
  {
    hide Reaches;
  }

  /** Every dollar quote at top level ends where the highlighter starts a token, or with the text. */
  predicate QuotesEndAtTokens(s: string) {
    forall k :: 0 <= k < |s| && TopLevel(s, k) && KindAt(s, k) == DollarQuote ==>
      Tokenized(s, k, OrEnd(Element(s, k), s))
  }

  /** A semicolon token starts inside a dollar quote that opens at top level. */
  predicate SemicolonInQuote(s: string, k: nat, c: nat) {
    && k < c < |s| && TopLevel(s, k) && KindAt(s, k) == DollarQuote
    && c < OrEnd(Element(s, k), s) && s[c] == ';' && Tokenized(s, k, c)
  }

  predicate Ascending(xs: seq<nat>) {
    forall a, b :: 0 <= a < b < |xs| ==> xs[a] < xs[b]
  }

  lemma {:induction false} SemicolonTokensOrdered(s: string, i: nat)
    requires i <= |s|
    ensures forall c :: c in SemicolonTokens(Tokens(s, i), i) ==> i <= c < |s|
    ensures Ascending(SemicolonTokens(Tokens(s, i), i))
    decreases |s| - i
  {
    hide TokenEnd, TokenKindAt, SemicolonTokens;
    if i < |s| {
      var e := TokenEnd(s, i);
      SemicolonsStep(s, i);
      SemicolonTokensOrdered(s, e);
      var later := SemicolonTokens(Tokens(s, e), e);
      assert forall a :: 0 <= a < |later| ==> later[a] in later;
    } else {
      NoSemicolons(i);
    }
  }

  lemma {:induction false} SameMembers(xs: seq<nat>, ys: seq<nat>)
    requires Ascending(xs) && Ascending(ys) && forall c: nat :: c in xs <==> c in ys
    ensures xs == ys
  {
    assert xs != [] ==> xs[0] in xs;
    assert ys != [] ==> ys[0] in ys;
    if xs != [] && ys != [] {
      assert xs[0] == ys[0];
      forall c: nat ensures c in xs[1..] <==> c in ys[1..] {
        assert c in xs[1..] <==> c in xs && c != xs[0];
        assert c in ys[1..] <==> c in ys && c != ys[0];
      }
      SameMembers(xs[1..], ys[1..]);
    }
  }

  /** The scanners agree exactly when each semicolon starts a token if and only if it stands at top level. */
  lemma {:induction false} AgreeOnEverySemicolon(s: string)
    ensures
      SemicolonTokens(Tokens(s, 0), 0) == Cuts(s, 0, |s|) <==>
      forall c :: 0 <= c < |s| && s[c] == ';' ==> (Tokenized(s, 0, c) <==> TopLevel(s, c))
  {
    hide TokenEnd, Element, Reaches, Tokenized, Tokens, SemicolonTokens, Cuts;
    var xs, ys := SemicolonTokens(Tokens(s, 0), 0), Cuts(s, 0, |s|);
    forall c: nat
      ensures c in xs <==> c < |s| && s[c] == ';' && Tokenized(s, 0, c)
      ensures c in ys <==> c < |s| && s[c] == ';' && TopLevel(s, c)
    {
      SemicolonTokensExact(s, 0, c);
      CutsExact(s, 0, |s|, c);
    }
    SemicolonTokensOrdered(s, 0);
    CutsOrdered(s, 0, |s|);
    if forall c :: 0 <= c < |s| && s[c] == ';' ==> (Tokenized(s, 0, c) <==> TopLevel(s, c)) {
      SameMembers(xs, ys);
    }
  }

  /** Characters that stand in no word and in no number. */
  predicate Apart(c: char) {
    !IsWord(c) && c != '.'
  }

  lemma {:induction false} PlainRunReads(s: string, i: nat, j: nat)
    requires i <= j <= |s| && forall k :: i <= k < j ==> KindAt(s, k) == Plain
    ensures Reaches(s, i, j)
    decreases j - i
  {
    hide Element, KindAt;
    if i < j {
      PlainRunReads(s, i + 1, j);
    }
  }

  lemma {:induction false} PlainTokenReads(s: string, i: nat)
    requires i < |s| && KindAt(s, i) == Plain
    ensures Reaches(s, i, TokenEnd(s, i)) && forall k :: i < k < TokenEnd(s, i) ==> !Apart(s[k])
  {
    if IsDigit(s[i]) {
      NumberIsPlain(s, i + 1);
    } else if IsNameStart(s[i]) {
      WordIsPlain(s, i + 1);
    }
    hide WordEnd;
    PlainRunReads(s, i, TokenEnd(s, i));
  }

  /** From one common position both scanners go on to the next when the element is no dollar quote. */
  lemma {:induction false} StepTogether(s: string, i: nat, c: nat)
    requires i < c < |s| && KindAt(s, i) != DollarQuote && Apart(s[c])
    ensures Tokenized(s, i, c) <==> TokenEnd(s, i) <= c && Tokenized(s, TokenEnd(s, i), c)
    ensures Reaches(s, i, c) <==> TokenEnd(s, i) <= c && Reaches(s, TokenEnd(s, i), c)
  {
    var e := TokenEnd(s, i);
    if Tokenized(s, e, c) {
      TokenizedBounds(s, e, c);
    }
    if KindAt(s, i) == Plain {
      PlainTokenReads(s, i);
      hide TokenEnd, Element, KindAt;
      assert e <= c;
      if Reaches(s, i, c) {
        ReachesLinear(s, i, e, c);
      }
      if Reaches(s, e, c) {
        ReachesTrans(s, i, e, c);
      }
    } else {
      hide Element;
      if Element(s, i).Closed? && Reaches(s, e, c) {
        assert e <= c;
      }
    }
  }

  /** Through a dollar quote that ends at a token. */
  lemma {:induction false} StepOverQuote(s: string, i: nat, e: nat, c: nat)
    requires i < e <= c < |s| && Element(s, i) == Closed(e) && Tokenized(s, i, e)
    ensures Reaches(s, i, c) <==> Reaches(s, e, c)
    ensures Tokenized(s, i, c) <==> Tokenized(s, e, c)
  {
    hide Element, TokenEnd;
    if Tokenized(s, i, c) {
      TokenizedLinear(s, i, e, c);
    }
    if Tokenized(s, e, c) {
      TokenizedTrans(s, i, e, c);
    }
  }

  /**
   * Outside of words and numbers a position at top level starts a token; and where a token starts without being at top
   * level, it starts inside a dollar quote.
   */
  lemma {:induction false} WalkTogether(s: string, i: nat, c: nat)
    requires i <= c < |s| && Apart(s[c]) && TopLevel(s, i) && QuotesEndAtTokens(s)
    ensures Reaches(s, i, c) ==> Tokenized(s, i, c)
    ensures
      s[c] == ';' && Tokenized(s, i, c) && !Reaches(s, i, c) ==> exists k :: SemicolonInQuote(s, k, c)
    decreases c - i
  {
    hide TokenEnd, Element, KindAt, OrEnd, QuotesEndAtTokens;
    if i < c {
      if KindAt(s, i) != DollarQuote {
        var e := TokenEnd(s, i);
        StepTogether(s, i, c);
        if e <= c && (Reaches(s, i, c) || Tokenized(s, i, c)) {
          if TopLevel(s, e) {
            WalkTogether(s, e, c);
          } else {
            TokenAtTopLevel(s, i);
            assert false;
          }
        }
      } else {
        WalkOverQuote(s, i, c);
        if Element(s, i).Closed? && Element(s, i).end <= c {
          WalkTogether(s, Element(s, i).end, c);
        }
      }
    }
  }

  /** A token that is no dollar quote and does not run to the end of the text ends at top level. */
  lemma {:induction false} TokenAtTopLevel(s: string, i: nat)
    requires i < |s| && TopLevel(s, i) && KindAt(s, i) != DollarQuote && TokenEnd(s, i) < |s|
    ensures TopLevel(s, TokenEnd(s, i))
  {
    var e := TokenEnd(s, i);
    if KindAt(s, i) == Plain {
      PlainTokenReads(s, i);
    }
    hide Element, KindAt;
    ReachesTrans(s, 0, i, e);
  }

  lemma {:induction false} WalkOverQuote(s: string, i: nat, c: nat)
    requires i < c < |s| && TopLevel(s, i) && QuotesEndAtTokens(s) && KindAt(s, i) == DollarQuote
    ensures
      if Element(s, i).Closed? && Element(s, i).end <= c then
        && TopLevel(s, Element(s, i).end)
        && (Reaches(s, i, c) <==> Reaches(s, Element(s, i).end, c))
        && (Tokenized(s, i, c) <==> Tokenized(s, Element(s, i).end, c))
      else
        !Reaches(s, i, c) && (s[c] == ';' && Tokenized(s, i, c) ==> SemicolonInQuote(s, i, c))
  {
    hide TokenEnd, Element, KindAt;
    if Element(s, i).Closed? {
      var e := Element(s, i).end;
      if e <= c {
        assert Tokenized(s, i, e);
        StepOverQuote(s, i, e, c);
        assert Reaches(s, i, e);
        ReachesTrans(s, 0, i, e);
      } else if Reaches(s, e, c) {
        assert false;
      }
    }
  }

  /** A semicolon inside a dollar quote is not at top level, and the highlighter reads it as a token of its own. */
  lemma {:induction false} InQuoteDiffers(s: string, k: nat, c: nat)
    requires QuotesEndAtTokens(s) && SemicolonInQuote(s, k, c)
    ensures c < |s| && s[c] == ';' && Tokenized(s, 0, c) && !TopLevel(s, c)
  {
    assert s[k] == '$';
    hide TokenEnd, Element, KindAt, QuotesEndAtTokens;
    WalkTogether(s, 0, k);
    TokenizedTrans(s, 0, k, c);
    if TopLevel(s, c) {
      ReachesLinear(s, 0, k, c);
      assert false;
    }
  }

  /**
   * When every dollar quote ends where the highlighter starts a token, the semicolon tokens are the places where the
   * splitter cuts exactly when no semicolon token starts inside a dollar quote.
   */
  lemma {:induction false} AgreeExactlyOutsideQuotes(s: string)
    requires QuotesEndAtTokens(s)
    ensures
      SemicolonTokens(Tokens(s, 0), 0) == Cuts(s, 0, |s|) <==> !exists k, c :: SemicolonInQuote(s, k, c)
  {
    hide Tokenized, Reaches, SemicolonInQuote, QuotesEndAtTokens, SemicolonTokens, Tokens, Cuts;
    AgreeOnEverySemicolon(s);
    assert Reaches(s, 0, 0) by {
      StartIsTopLevel(s);
    }
    if exists k, c :: SemicolonInQuote(s, k, c) {
      var k, c :| SemicolonInQuote(s, k, c);
      InQuoteDiffers(s, k, c);
    } else {
      forall c | 0 <= c < |s| && s[c] == ';' ensures Tokenized(s, 0, c) <==> TopLevel(s, c) {
        WalkTogether(s, 0, c);
      }
    }
  }

  lemma {:induction false} StartIsTopLevel(s: string)
    ensures Reaches(s, 0, 0) && TopLevel(s, 0)
  {
  }

  /** Where nothing at top level opens a dollar quote, the semicolon tokens are exactly the places of the cuts. */
  lemma {:induction false} ScannersAgree(s: string)
    requires NoDollarQuote(s)
    ensures SemicolonTokens(Tokens(s, 0), 0) == Cuts(s, 0, |s|)
  {
    hide Reaches, Element, Tokenized;
    forall k, c ensures !SemicolonInQuote(s, k, c) {
    }
    AgreeExactlyOutsideQuotes(s);
  }

  /** With a dollar quote they differ: the highlighter sees the semicolon inside it. */
  lemma {:induction false} ScannersDifferOnDollarQuote()
    ensures SemicolonTokens(Tokens("$$;$$", 0), 0) == [2] && Cuts("$$;$$", 0, 5) == []
  {
    var s := "$$;$$";
    assert s[0] == '$' && s[1] == '$' && s[2] == ';' && s[3] == '$' && s[4] == '$';
    assert TokenEnd(s, 0) == 1 && TokenEnd(s, 1) == 2 && TokenEnd(s, 2) == 3 && TokenEnd(s, 3) == 4 && TokenEnd(s, 4) == 5;
    assert Element(s, 0) == Closed(5) by {
      assert WordEnd(s, 1) == 1 && s[0..2] == "$$" && s[2..4] == ";$" && s[3..5] == "$$";
      assert s[2..4][0] == ';';
      IndexOfIs(s, "$$", 2, 3);
    }
    hide TokenEnd, Element, KindAt, IndexOf;
    assert SemicolonTokens(Tokens(s, 5), 5) == [];
    SemicolonsStep(s, 4);
    SemicolonsStep(s, 3);
    SemicolonsStep(s, 2);
    SemicolonsStep(s, 1);
    SemicolonsStep(s, 0);
  }
}
