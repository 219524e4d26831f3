/** Cutting an SQL document into statements at its top-level semicolons. */
module Splitter {
  import opened Text

  /** A statement without its semicolon: the positions `from` up to, not including, `to`. */
  datatype Range = Range(from: nat, to: nat)

  /** Where a lexical element ends; `Open` when the text ends first. */
  datatype Scan = Closed(end: nat) | Open

  function After(found: Option<nat>, skip: nat): Scan {
    match found
    case None => Open
    case Some(p) => Closed(p + skip)
  }

  /** End of the single-quoted literal whose body continues at `i`; a doubled quote does not end it. */
  function StringClose(s: string, i: nat): (r: Scan)
    ensures r.Closed? ==> i < r.end <= |s|
    decreases |s| - i
  {
    if i >= |s| then Open
    else if s[i] != '\'' then StringClose(s, i + 1)
    else if i + 1 < |s| && s[i + 1] == '\'' then StringClose(s, i + 2)
    else Closed(i + 1)
  }

  datatype Kind = Literal | Identifier | LineComment | BlockComment | DollarQuote | Plain

  /** Which kind of element the first characters at `i` open. */
  function KindAt(s: string, i: nat): Kind
    requires i < |s|
  {
    if s[i] == '\'' then Literal
    else if s[i] == '"' then Identifier
    else if s[i] == '-' && i + 1 < |s| && s[i + 1] == '-' then LineComment
    else if s[i] == '/' && i + 1 < |s| && s[i + 1] == '*' then BlockComment
    else if s[i] == '$' && WordEnd(s, i + 1) < |s| && s[WordEnd(s, i + 1)] == '$' then DollarQuote
    else Plain
  }

  /** A dollar quote ends after the next copy of its opening delimiter. */
  function DollarClose(s: string, i: nat): (r: Scan)
    requires i < |s| && KindAt(s, i) == DollarQuote
    ensures r.Closed? ==> i < r.end <= |s|
  {
    var j := WordEnd(s, i + 1) + 1;
    After(IndexOf(s, s[i..j], j), j - i)
  }

  /** The lexical element that starts at top-level position `i`. */
  function Element(s: string, i: nat): (r: Scan)
    requires i < |s|
    ensures r.Closed? ==> i < r.end <= |s|
    ensures KindAt(s, i) == Plain ==> r == Closed(i + 1)
  {
    match KindAt(s, i)
    case Literal => StringClose(s, i + 1)
    case Identifier => After(IndexOf(s, "\"", i + 1), 1)
    case LineComment => After(IndexOf(s, "\n", i + 1), 0)
    case BlockComment => After(IndexOf(s, "*/", i + 2), 2)
    case DollarQuote => DollarClose(s, i)
    case Plain => Closed(i + 1)
  }

  /** Reading element by element from top-level position `i` comes to top-level position `k`. */
  predicate Reaches(s: string, i: nat, k: nat)
    requires k <= |s|
    decreases k - i
  {
    i == k || (i < k && Element(s, i).Closed? && Reaches(s, Element(s, i).end, k))
  }

  predicate TopLevel(s: string, k: nat)
    requires k <= |s|
  {
    Reaches(s, 0, k)
  }

  predicate IsCut(s: string, k: nat) {
    k < |s| && s[k] == ';' && TopLevel(s, k)
  }

  /** The top-level semicolons met before `k` when reading from `i`. */
  function Cuts(s: string, i: nat, k: nat): seq<nat>
    requires k <= |s|
    decreases k - i
  {
    if i >= k then []
    else match Element(s, i) {
      case Open => []
      case Closed(e) => (if s[i] == ';' then [i] else []) + Cuts(s, e, k)
    }
  }

  /** The ranges between consecutive cuts; nothing after a cut that ends the text. */
  function Between(cuts: seq<nat>, start: nat, n: nat): seq<Range> {
    if cuts == [] then (if start < n then [Range(start, n)] else [])
    else [Range(start, cuts[0])] + Between(cuts[1..], cuts[0] + 1, n)
  }

  function Ranges(s: string): seq<Range> {
    Between(Cuts(s, 0, |s|), 0, |s|)
  }

  // ---------------------------------------------------------------- the loop

  /** What is left to report when the pass stands at `i` inside the statement that began at `start`. */
  function Rest(s: string, start: nat, i: nat): seq<Range> {
    Between(Cuts(s, i, |s|), start, |s|)
  }

  /** The pass goes on at `j` after the element at `i`; past the end when that element never closes. */
  predicate Skips(s: string, i: nat, j: nat)
    requires i < |s|
  {
    i < j && (Element(s, i) == Closed(j) || (Element(s, i).Open? && |s| <= j))
  }

  lemma {:induction false} SkipKeepsRest(s: string, start: nat, i: nat, j: nat)
    requires i < |s| && s[i] != ';' && Skips(s, i, j)
    ensures Rest(s, start, i) == Rest(s, start, j)
  {
    hide Element;
    assert Cuts(s, i, |s|) == Cuts(s, j, |s|);
  }

  lemma {:induction false} CutSplitsRest(s: string, start: nat, i: nat)
    requires i < |s| && s[i] == ';'
    ensures Rest(s, start, i) == [Range(start, i)] + Rest(s, i + 1, i + 1)
  {
    hide Element;
    assert Cuts(s, i, |s|) == [i] + Cuts(s, i + 1, |s|);
  }

  lemma {:induction false} NothingLeft(s: string, start: nat, i: nat)
    requires |s| <= i
    ensures Rest(s, start, i) == if start < |s| then [Range(start, |s|)] else []
  {
  }

  method SkipString(sql: string, at: nat) returns (i: nat)
    requires at < |sql| && sql[at] == '\''
    ensures Skips(sql, at, i)
  {
    var n := |sql|;
    i := at + 1;
    while i < n
      invariant at < i <= n
      invariant Element(sql, at) == StringClose(sql, i)
    {
      if sql[i] == '\'' {
        if i + 1 < n && sql[i + 1] == '\'' {
          i := i + 2;
          continue;
        }
        i := i + 1;
        return;
      }
      i := i + 1;
    }
  }

  method SkipIdentifier(sql: string, at: nat) returns (i: nat)
    requires at < |sql| && sql[at] == '"'
    ensures Skips(sql, at, i)
  {
    AtOne(sql, '"');
    IndexOfFirst(sql, "\"", at + 1);
    i := at + 1;
    while i < |sql| && sql[i] != '"'
      invariant at < i <= |sql|
      invariant forall k :: at < k < i ==> sql[k] != '"'
    {
      i := i + 1;
    }
    i := i + 1;
  }

  method SkipLineComment(sql: string, at: nat) returns (i: nat)
    requires at + 1 < |sql| && sql[at] == '-' && sql[at + 1] == '-'
    ensures Skips(sql, at, i)
  {
    AtOne(sql, '\n');
    IndexOfFirst(sql, "\n", at + 1);
    i := at;
    while i < |sql| && sql[i] != '\n'
      invariant at <= i <= |sql|
      invariant forall k :: at <= k < i ==> sql[k] != '\n'
    {
      i := i + 1;
    }
  }

  predicate ClosesComment(s: string, k: nat) {
    k + 1 < |s| && s[k] == '*' && s[k + 1] == '/'
  }

  lemma {:induction false} CommentSkipped(s: string, at: nat, i: nat)
    requires at + 1 < |s| && s[at] == '/' && s[at + 1] == '*' && at + 2 <= i <= |s|
    requires (forall k :: at + 2 <= k < i ==> !ClosesComment(s, k)) && (i < |s| ==> ClosesComment(s, i))
    ensures Skips(s, at, i + 2)
  {
    hide DollarClose, StringClose, WordEnd, IndexOf;
    AtTwo(s, '*', '/');
    IndexOfFirst(s, "*/", at + 2);
    assert "*/" == ['*', '/'];
    forall k | at + 2 <= k ensures At(s, "*/", k) <==> ClosesComment(s, k) {
    }
    hide At;
  }

  method SkipBlockComment(sql: string, at: nat) returns (i: nat)
    requires at + 1 < |sql| && sql[at] == '/' && sql[at + 1] == '*'
    ensures Skips(sql, at, i)
  {
    hide Skips;
    i := at + 2;
    while i < |sql| && !(sql[i] == '*' && i + 1 < |sql| && sql[i + 1] == '/')
      invariant at + 2 <= i <= |sql|
      invariant forall k :: at + 2 <= k < i ==> !ClosesComment(sql, k)
    {
      i := i + 1;
    }
    CommentSkipped(sql, at, i);
    i := i + 2;
  }

  /** A dollar quote when `at` opens one, the single character `$` otherwise. */
  method SkipDollar(sql: string, at: nat) returns (i: nat)
    requires at < |sql| && sql[at] == '$'
    ensures Skips(sql, at, i)
  {
    var j := at + 1;
    while j < |sql| && IsWord(sql[j])
      invariant at < j <= |sql|
      invariant WordEnd(sql, at + 1) == WordEnd(sql, j)
    {
      j := j + 1;
    }
    if j < |sql| && sql[j] == '$' {
      var delim := sql[at..j + 1];
      var end := IndexOf(sql, delim, j + 1);
      return if end.None? then |sql| else end.value + |delim|;
    }
    i := at + 1;
  }
}
