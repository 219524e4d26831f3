/** References, in characters. */
module ReferenceMeaning {
  import opened Text
  import opened Substitution
  import opened SubstitutionLaws
  import opened Lexemes
  import opened TemplateMeaning

  // ---------------------------------------------------------------- pairs of dollar signs

  /** The elements of a text without bodies: dollar signs are paired from the left, so only the last can stand alone. */
  predicate Paired(es: seq<Elem>, s: string) {
    && Written(es, Original) == s
    && forall k :: 0 <= k < |es| ==>
         !es[k].Block? && (es[k] == C('$') && k + 1 < |es| ==> es[k + 1] != C('$') && es[k + 1] != Dollar)
  }

  lemma {:induction false} PlainIsPaired(s: string)
    ensures Paired(Plain(s), s)
    decreases |s|
  {
    PlainSource(s);
    if s != "" {
      var n := if "$$" <= s then 2 else 1;
      var es, rest := Plain(s), Plain(s[n..]);
      PlainIsPaired(s[n..]);
      assert forall k :: 0 < k < |es| ==> es[k] == rest[k - 1];
      if es[0] == C('$') && rest != [] {
        assert s[1..] != "" ==> s[1..][0] == s[1];
      }
    }
  }

  lemma {:induction false} PairedIsPlain(es: seq<Elem>, s: string)
    requires Paired(es, s)
    ensures es == Plain(s)
    decreases |es|
  {
    if es == [] {
      assert s == "";
    } else {
      var e, rest := es[0], es[1..];
      assert s == Write(e, Original) + Written(rest, Original);
      assert s[|Write(e, Original)|..] == Written(rest, Original);
      assert forall k :: 0 <= k < |rest| ==> rest[k] == es[k + 1];
      PairedIsPlain(rest, Written(rest, Original));
      if e == C('$') && rest != [] {
        assert Written(rest, Original)[0] == Write(rest[0], Original)[0] != '$';
        assert s[1] == Written(rest, Original)[0];
      }
      assert es == [e] + rest;
    }
  }

  /** There is one way to pair dollar signs. */
  lemma {:induction false} PlainMeans(es: seq<Elem>, s: string)
    ensures es == Plain(s) <==> Paired(es, s)
  {
    PlainIsPaired(s);
    if Paired(es, s) {
      PairedIsPlain(es, s);
    }
  }

  // ---------------------------------------------------------------- node references

  /** The space around the parts of a node reference. */
  datatype Layout = Layout(lead: string, behind: string, before: string, after: string, inside: string, tail: string)

  /** A part of a node reference: no space at its ends; of nothing but space the last character counts. */
  predicate Tight(s: string, after: string) {
    s != "" && if AllSpace(s) then |s| == 1 && after == "" else !IsSpace(s[0]) && !IsSpace(s[|s| - 1])
  }

  predicate ProperNode(n: NodeRef, l: Layout) {
    && AllSpace(l.lead) && AllSpace(l.behind) && AllSpace(l.before) && AllSpace(l.after) && AllSpace(l.inside) && AllSpace(l.tail)
    && Tight(n.node, l.behind) && Tight(n.column, l.after)
    && '.' !in n.column && '[' !in n.column && ']' !in n.column
  }

  function SpellColumn(n: NodeRef, l: Layout): string {
    l.before + n.column + l.after
  }

  function SpellNode(n: NodeRef, l: Layout): string {
    l.lead + n.node + l.behind + "." + (SpellColumn(n, l) + if n.many then "[" + l.inside + "]" + l.tail else "")
  }

  /** What stands between braces is this node reference. */
  ghost predicate SaysNode(content: string, n: NodeRef) {
    exists l :: ProperNode(n, l) && SpellNode(n, l) == content
  }

  lemma {:induction false} SpaceParts(a: string, b: string)
    ensures AllSpace(a + b) <==> AllSpace(a) && AllSpace(b)
  {
    assert forall k :: 0 <= k < |a| ==> (a + b)[k] == a[k];
    assert forall k :: 0 <= k < |b| ==> (a + b)[|a| + k] == b[k];
  }

  lemma {:induction false} LeadOf(a: string, b: string)
    requires AllSpace(a) && (b == "" || !IsSpace(b[0]))
    ensures Lead(a + b) == |a|
  {
    if a == "" {
      assert a + b == b;
    } else {
      assert (a + b)[1..] == a[1..] + b;
      LeadOf(a[1..], b);
    }
  }

  lemma {:induction false} TrimParts(a: string, s: string, b: string)
    requires AllSpace(a) && AllSpace(b) && (s != "" ==> !IsSpace(s[0]) && !IsSpace(s[|s| - 1]))
    ensures Trim(a + s + b) == s
  {
    hide AllSpace, TrimEnd;
    if s == "" {
      SpaceParts(a, b);
      assert a + s + b == (a + b) + "";
      LeadOf(a + b, "");
      assert ((a + b) + "")[|a + b|..] == "" + "";
      NoSpace();
      TrimEndUnique("", "");
    } else {
      Assoc(a, s, b);
      LeadOf(a, s + b);
      assert (a + (s + b))[|a|..] == s + b;
      TrimEndUnique(s, b);
    }
  }

  lemma {:induction false} NoSpace()
    ensures AllSpace("")
  {
  }

  lemma {:induction false} TrimEndStands(s: string) returns (tail: string)
    ensures s == TrimEnd(s) + tail && AllSpace(tail)
    ensures TrimEnd(s) != "" ==> !IsSpace(TrimEnd(s)[|TrimEnd(s)| - 1])
  {
    tail := s[Trail(s)..];
  }

  lemma {:induction false} LeadStands(x: string) returns (a: string, r: string)
    ensures x == a + r && AllSpace(a) && (r != "" ==> !IsSpace(r[0])) && Trim(x) == TrimEnd(r)
  {
    hide TrimEnd, IsSpace;
    a, r := x[..Lead(x)], x[Lead(x)..];
    assert r != "" ==> r[0] == x[Lead(x)];
  }

  lemma {:induction false} TrimStands(x: string) returns (a: string, b: string)
    ensures x == a + Trim(x) + b && AllSpace(a) && AllSpace(b)
    ensures Trim(x) != "" ==> !IsSpace(Trim(x)[0]) && !IsSpace(Trim(x)[|Trim(x)| - 1])
    ensures Trim(x) == "" ==> AllSpace(x)
  {
    hide *;
    var r;
    a, r := LeadStands(x);
    b := TrimEndStands(r);
    SpaceParts(a, b);
    Assoc(a, TrimEnd(r), b);
    if Trim(x) == "" {
      assert a + "" + b == a + b;
    } else {
      assert r[0] == TrimEnd(r)[0];
    }
  }

  /** What is left of a part, and where it stands. */
  lemma {:induction false} TrimKeepMeans(x: string, y: string)
    ensures TrimKeep(x) == Some(y) <==> exists a, b :: x == a + y + b && AllSpace(a) && AllSpace(b) && Tight(y, b)
  {
    hide TrimKeep, AllSpace, Tight;
    if TrimKeep(x) == Some(y) {
      var a, b := KeptParts(x, y);
    }
    forall a, b | x == a + y + b && AllSpace(a) && AllSpace(b) && Tight(y, b) ensures TrimKeep(x) == Some(y) {
      PartsKept(a, y, b);
    }
  }

  lemma {:induction false} PartsKept(a: string, y: string, b: string)
    requires AllSpace(a) && AllSpace(b) && Tight(y, b)
    ensures TrimKeep(a + y + b) == Some(y)
  {
    hide Trim;
    NoSpace();
    if AllSpace(y) {
      SpaceParts(a, y);
      assert a + y + b == (a + y) + "" + "";
      TrimParts(a + y, "", "");
      assert y == [y[0]] && (a + y + b)[|a + y + b| - 1] == y[0];
    } else {
      TrimParts(a, y, b);
    }
  }

  lemma {:induction false} KeptParts(x: string, y: string) returns (a: string, b: string)
    requires TrimKeep(x) == Some(y)
    ensures x == a + y + b && AllSpace(a) && AllSpace(b) && Tight(y, b)
  {
    a, b := TrimStands(x);
    hide Trim, IsSpace;
    if Trim(x) == "" {
      a, b := x[..|x| - 1], "";
      assert x == a + y;
      SpaceParts(a, y);
      NoSpace();
    } else {
      assert y[0] in y;
      NotAllSpace(y);
    }
  }

  lemma {:induction false} NotAllSpace(y: string)
    requires y != "" && !IsSpace(y[0])
    ensures !AllSpace(y)
  {
  }

  lemma {:induction false} DotLast(x: string, y: string)
    requires '.' !in y
    ensures LastDot(x + "." + y) == Some(|x|)
  {
    var s := x + "." + y;
    assert forall k :: |x| < k < |s| ==> s[k] == y[k - |x| - 1];
    assert s[|x|] == '.';
    hide LastDot;
    var r := LastDot(s);
    assert r.Some?;
  }

  lemma {:induction false} SpaceHasNo(s: string, c: char)
    requires AllSpace(s) && !IsSpace(c)
    ensures c !in s
  {
  }

  /** A closing pair of brackets is found behind a column. */
  lemma {:induction false} BracketsFound(c: string, inside: string, tail: string)
    requires AllSpace(inside) && AllSpace(tail)
    ensures BeforeBrackets(c + ("[" + inside + "]" + tail)) == Some(c)
  {
    var u, v := c + "[", c + "[" + inside + "]";
    assert c + ("[" + inside + "]" + tail) == v + tail;
    assert v[..|v| - 1] == u + inside && u[..|u| - 1] == c;
    hide AllSpace, TrimEnd;
    TrimEndUnique(v, tail);
    TrimEndUnique(u, inside);
  }

  lemma {:induction false} NoBracketsFound(before: string, c: string, after: string)
    requires AllSpace(before) && AllSpace(after) && Tight(c, after) && ']' !in c
    ensures BeforeBrackets(before + c + after).None?
  {
    hide TrimEnd;
    if AllSpace(c) {
      SpaceParts(before, c);
      assert before + c + after == "" + (before + c);
      TrimEndUnique("", before + c);
    } else {
      hide AllSpace;
      TrimEndUnique(before + c, after);
      assert (before + c)[|before + c| - 1] == c[|c| - 1];
      assert c[|c| - 1] in c;
    }
  }

  /** A closing pair of brackets, and what stands before it. */
  lemma {:induction false} BracketsStand(s: string, c: string) returns (inside: string, tail: string)
    requires BeforeBrackets(s) == Some(c)
    ensures AllSpace(inside) && AllSpace(tail) && s == c + ("[" + inside + "]" + tail)
  {
    hide TrimEnd, AllSpace;
    var t := TrimEnd(s);
    var w := t[..|t| - 1];
    tail := TrimEndStands(s);
    inside := TrimEndStands(w);
    assert t == w + "]" && TrimEnd(w) == c + "[";
  }

  lemma {:induction false} NodeRead(n: NodeRef, l: Layout)
    requires ProperNode(n, l)
    ensures ParseNodeRef(SpellNode(n, l)) == Some(n)
  {
    var x, col := l.lead + n.node + l.behind, SpellColumn(n, l);
    var marks := if n.many then "[" + l.inside + "]" + l.tail else "";
    NoDotIn(n, l);
    assert SpellNode(n, l) == x + "." + (col + marks);
    var s := SpellNode(n, l);
    assert s[..|x|] == x && s[|x| + 1..] == col + marks;
    DotLast(x, col + marks);
    TrimKeepMeans(x, n.node);
    TrimKeepMeans(col, n.column);
    if n.many {
      BracketsFound(col, l.inside, l.tail);
    } else {
      assert col + marks == col;
      NoBracketsFound(l.before, n.column, l.after);
    }
    NoBracketIn(n, l);
    hide LastDot, BeforeBrackets, TrimKeep, AllSpace, Tight, SpellNode;
  }

  lemma {:induction false} NoDotIn(n: NodeRef, l: Layout)
    requires ProperNode(n, l)
    ensures '.' !in SpellColumn(n, l) + (if n.many then "[" + l.inside + "]" + l.tail else "")
  {
    SpaceHasNo(l.before, '.');
    SpaceHasNo(l.after, '.');
    SpaceHasNo(l.inside, '.');
    SpaceHasNo(l.tail, '.');
  }

  lemma {:induction false} NoBracketIn(n: NodeRef, l: Layout)
    requires ProperNode(n, l)
    ensures '[' !in SpellColumn(n, l) && ']' !in SpellColumn(n, l)
  {
    SpaceHasNo(l.before, '[');
    SpaceHasNo(l.after, '[');
    SpaceHasNo(l.before, ']');
    SpaceHasNo(l.after, ']');
  }

  lemma {:induction false} ParsedParts(content: string, n: NodeRef) returns (x: string, y: string, name: string)
    requires ParseNodeRef(content) == Some(n)
    ensures content == x + "." + y && '.' !in y
    ensures TrimKeep(x) == Some(n.node) && TrimKeep(name) == Some(n.column) && '[' !in name && ']' !in name
    ensures if n.many then BeforeBrackets(y) == Some(name) else y == name
  {
    hide LastDot, BeforeBrackets, TrimKeep;
    var d := LastDot(content).value;
    x, y := content[..d], content[d + 1..];
    name := if n.many then BeforeBrackets(y).value else y;
    assert content == x + "." + y;
    assert forall k :: 0 <= k < |y| ==> y[k] == content[d + 1 + k];
  }

  lemma {:induction false} NodePieces(content: string, n: NodeRef) returns (x: string, name: string, inside: string, tail: string)
    requires ParseNodeRef(content) == Some(n)
    ensures TrimKeep(x) == Some(n.node) && TrimKeep(name) == Some(n.column)
    ensures AllSpace(inside) && AllSpace(tail) && '[' !in name && ']' !in name && '.' !in name
    ensures content == x + "." + (name + if n.many then "[" + inside + "]" + tail else "")
  {
    hide *;
    var y;
    x, y, name := ParsedParts(content, n);
    inside, tail := "", "";
    NoSpace();
    if n.many {
      inside, tail := BracketsStand(y, name);
      assert forall k :: 0 <= k < |name| ==> name[k] == y[k];
    } else {
      assert name + "" == name;
    }
  }

  lemma {:induction false} NodeSpelled(content: string, n: NodeRef)
    requires ParseNodeRef(content) == Some(n)
    ensures SaysNode(content, n)
  {
    hide *;
    var x, name, inside, tail := NodePieces(content, n);
    var a, b := KeptParts(x, n.node);
    var e, f := KeptParts(name, n.column);
    assert forall c :: c in n.column ==> c in name;
    SaysFrom(n, Layout(a, b, e, f, inside, tail), content);
  }

  lemma {:induction false} SaysFrom(n: NodeRef, l: Layout, content: string)
    requires AllSpace(l.lead) && AllSpace(l.behind) && AllSpace(l.before) && AllSpace(l.after) && AllSpace(l.inside) && AllSpace(l.tail)
    requires Tight(n.node, l.behind) && Tight(n.column, l.after) && '.' !in n.column && '[' !in n.column && ']' !in n.column
    requires
      content == (l.lead + n.node + l.behind) + "." + ((l.before + n.column + l.after) + if n.many then "[" + l.inside + "]" + l.tail else "")
    ensures SaysNode(content, n)
  {
    hide AllSpace, Tight;
    assert ProperNode(n, l) && SpellNode(n, l) == content;
  }

  /** What stands between braces is read as a node reference exactly where it is one. */
  lemma {:induction false} NodeMeans(content: string, n: NodeRef)
    ensures ParseNodeRef(content) == Some(n) <==> SaysNode(content, n)
  {
    hide ParseNodeRef, ProperNode, SpellNode;
    if ParseNodeRef(content) == Some(n) {
      NodeSpelled(content, n);
    }
    if SaysNode(content, n) {
      var l :| ProperNode(n, l) && SpellNode(n, l) == content;
      NodeRead(n, l);
    }
  }

  // ---------------------------------------------------------------- references among elements

  /** What a pair of braces refers to: a name is a variable, anything else must be a node reference. */
  ghost predicate BracesSay(content: string, ref: Reference) {
    || (Name(content) && ref == Reference(content, false, false))
    || exists n :: SaysNode(content, n) && ref == Reference(n.node + "." + n.column + (if n.many then "[]" else ""), true, n.many)
  }

  predicate NoBraces(es: seq<Elem>) {
    forall k :: 0 <= k < |es| ==> es[k] != C('{') && es[k] != C('}') && es[k] != C('$')
  }

  /** A dollar sign and a name, which the next character does not continue. */
  predicate BareRef(es: seq<Elem>, ref: Reference, len: nat) {
    && 1 < len <= |es| && es[0] == C('$') && Name(ref.key) && !ref.node && !ref.many
    && es[1..len] == Chars(ref.key)
    && (len < |es| ==> !(es[len].C? && WordChar(es[len].c)))
  }

  /** A dollar sign and a pair of braces that say what it refers to. */
  ghost predicate BracedRef(es: seq<Elem>, ref: Reference, len: nat) {
    && 3 <= len <= |es| && es[0] == C('$') && es[1] == C('{') && es[len - 1] == C('}')
    && NoBraces(es[2..len - 1]) && BracesSay(Written(es[2..len - 1], Encoded), ref)
  }

  /** `ref` stands at the start of the elements and takes up `len` of them. */
  ghost predicate RefStands(es: seq<Elem>, ref: Reference, len: nat) {
    BareRef(es, ref, len) || BracedRef(es, ref, len)
  }

  lemma {:induction false} NodeHasDot(content: string, n: NodeRef)
    requires SaysNode(content, n)
    ensures '.' in content
  {
    var l :| ProperNode(n, l) && SpellNode(n, l) == content;
    var x := l.lead + n.node + l.behind;
    assert content[|x|] == '.';
  }

  lemma {:induction false} BracesMean(content: string, ref: Reference)
    ensures ParseBraced(content) == Some(ref) <==> BracesSay(content, ref)
  {
    NameIsWord(content);
    var p := ParseNodeRef(content);
    if p.Some? {
      NodeMeans(content, p.value);
      NodeHasDot(content, p.value);
    }
    if n :| SaysNode(content, n) && ref == Reference(n.node + "." + n.column + (if n.many then "[]" else ""), true, n.many) {
      NodeMeans(content, n);
    }
    hide ParseNodeRef, SaysNode;
  }

  lemma {:induction false} BraceStopLaws(es: seq<Elem>)
    ensures NoBraces(es[..BraceStop(es)])
    ensures BraceStop(es) < |es| ==> IsBrace(es[BraceStop(es)])
  {
    if es != [] && !IsBrace(es[0]) {
      var rest, j := es[1..], BraceStop(es[1..]);
      BraceStopLaws(rest);
      var a, b := es[..j + 1], rest[..j];
      assert forall k :: 0 < k < |a| ==> a[k] == b[k - 1];
    }
  }

  lemma {:induction false} BraceStopIs(es: seq<Elem>, j: nat)
    requires j < |es| && NoBraces(es[..j]) && IsBrace(es[j])
    ensures BraceStop(es) == j
  {
    if j > 0 {
      assert es[..j][0] == es[0];
      var a, b := es[1..][..j - 1], es[..j];
      assert forall k :: 0 <= k < |a| ==> a[k] == b[k + 1];
      BraceStopIs(es[1..], j - 1);
    }
  }

  lemma {:induction false} WordLengthLaws(es: seq<Elem>)
    ensures var n := WordLength(es); n < |es| ==> !(es[n].C? && IsWord(es[n].c))
    ensures var n := WordLength(es); es[..n] == Chars(Written(es[..n], Encoded)) && |Written(es[..n], Encoded)| == n
    ensures var n := WordLength(es); forall k :: 0 <= k < n ==> es[k] == C(Written(es[..n], Encoded)[k]) && IsWord(Written(es[..n], Encoded)[k])
  {
    if es != [] && es[0].C? && IsWord(es[0].c) {
      var n, rest := WordLength(es[1..]), es[1..];
      WordLengthLaws(rest);
      assert es[..n + 1][1..] == rest[..n] && es[..n + 1][0] == es[0];
      var w := Written(rest[..n], Encoded);
      assert Written(es[..n + 1], Encoded) == [es[0].c] + w;
      assert ([es[0].c] + w)[1..] == w;
      assert es[..n + 1] == [es[0]] + rest[..n];
    }
  }

  lemma {:induction false} CharsAt(s: string)
    ensures |Chars(s)| == |s| && forall k :: 0 <= k < |s| ==> Chars(s)[k] == C(s[k])
  {
    if s != "" {
      CharsAt(s[1..]);
    }
  }

  lemma {:induction false} WordLengthIs(es: seq<Elem>, n: nat)
    requires n <= |es| && (forall k :: 0 <= k < n ==> es[k].C? && IsWord(es[k].c)) && (n < |es| ==> !(es[n].C? && IsWord(es[n].c)))
    ensures WordLength(es) == n
  {
    if n > 0 {
      WordLengthIs(es[1..], n - 1);
    }
  }

  lemma {:induction false} BareMeans(es: seq<Elem>, ref: Reference, len: nat)
    requires es != [] && es[0] == C('$') && !(1 < |es| && es[1] == C('{'))
    ensures RefIn(es) == Some(Match(ref, len)) <==> BareRef(es, ref, len)
  {
    var rest := es[1..];
    var n := WordLength(rest);
    var w := Written(rest[..n], Encoded);
    WordLengthLaws(rest);
    assert es[1..n + 1] == rest[..n];
    NameIsWord(w);
    hide Written, WordLength, Chars;
    if BareRef(es, ref, len) {
      BareIs(es, ref, len);
    }
  }

  lemma {:induction false} BareIs(es: seq<Elem>, ref: Reference, len: nat)
    requires BareRef(es, ref, len)
    ensures WordLength(es[1..]) == len - 1 && Written(es[1..len], Encoded) == ref.key && IsNameStart(ref.key[0]) && es[1] == C(ref.key[0])
  {
    NameIsWord(ref.key);
    CharsAt(ref.key);
    CharsWritten(ref.key, Encoded);
    assert forall k :: 0 <= k < len - 1 ==> es[1..][k] == es[1..len][k];
    WordLengthIs(es[1..], len - 1);
  }

  lemma {:induction false} BracedIn(es: seq<Elem>, ref: Reference, len: nat)
    requires 1 < |es| && es[0] == C('$') && es[1] == C('{')
    ensures
      var j := BraceStop(es[2..]);
      RefIn(es) == Some(Match(ref, len))
      <==> j < |es| - 2 && es[j + 2] == C('}') && len == j + 3 && ParseBraced(Written(es[2..j + 2], Encoded)) == Some(ref)
  {
    hide ParseBraced, Written, BraceStop;
    assert es[2..][..BraceStop(es[2..])] == es[2..BraceStop(es[2..]) + 2];
  }

  lemma {:induction false} StopAt(es: seq<Elem>, len: nat)
    requires 3 <= len <= |es| && es[len - 1] == C('}') && NoBraces(es[2..len - 1])
    ensures BraceStop(es[2..]) == len - 3
  {
    hide NoBraces;
    assert es[2..][..len - 3] == es[2..len - 1] && es[2..][len - 3] == es[len - 1];
    BraceStopIs(es[2..], len - 3);
  }

  lemma {:induction false} BracedMeans(es: seq<Elem>, ref: Reference, len: nat)
    requires 1 < |es| && es[0] == C('$') && es[1] == C('{')
    ensures RefIn(es) == Some(Match(ref, len)) <==> BracedRef(es, ref, len)
  {
    var j := BraceStop(es[2..]);
    BracedIn(es, ref, len);
    BraceStopLaws(es[2..]);
    assert es[2..][..j] == es[2..j + 2];
    BracesMean(Written(es[2..j + 2], Encoded), ref);
    hide Written, BraceStop, ParseBraced, BracesSay, RefIn, NoBraces;
    if BracedRef(es, ref, len) {
      StopAt(es, len);
    }
  }

  /** A reference is found exactly where one stands. */
  lemma {:induction false} RefMeans(es: seq<Elem>, ref: Reference, len: nat)
    ensures RefIn(es) == Some(Match(ref, len)) <==> RefStands(es, ref, len)
  {
    if es != [] && es[0] == C('$') {
      if 1 < |es| && es[1] == C('{') {
        BracedMeans(es, ref, len);
        NotBare(es, ref, len);
      } else {
        BareMeans(es, ref, len);
      }
      hide RefIn, BareRef;
    }
  }

  lemma {:induction false} NotBare(es: seq<Elem>, ref: Reference, len: nat)
    requires 1 < |es| && es[1] == C('{')
    ensures !BareRef(es, ref, len)
  {
    if BareRef(es, ref, len) {
      BareIs(es, ref, len);
      assert false;
    }
  }

  /** The segments take the elements apart: a reference wherever one stands, and otherwise one element that is kept. */
  ghost predicate TakenApart(segments: seq<Segment>, es: seq<Elem>)
    decreases |segments|
  {
    if segments == [] then es == []
    else es != [] && match segments[0] {
      case Keep(e) => e == es[0] && (forall ref, len :: !RefStands(es, ref, len)) && TakenApart(segments[1..], es[1..])
      case Ref(ref, source) =>
        && |source| <= |es| && source == es[..|source|] && RefStands(es, ref, |source|)
        && TakenApart(segments[1..], es[|source|..])
    }
  }

  /** There is one way to take elements apart into segments. */
  lemma {:induction false} SegmentsMean(segments: seq<Segment>, es: seq<Elem>)
    ensures segments == Segments(es) <==> TakenApart(segments, es)
    decreases |es|
  {
    if es != [] {
      var found := RefIn(es);
      hide RefIn, RefStands;
      forall ref, len ensures found == Some(Match(ref, len)) <==> RefStands(es, ref, len) {
        RefMeans(es, ref, len);
      }
      if segments != [] {
        var rest := segments[1..];
        assert segments == [segments[0]] + rest;
        match segments[0] {
          case Keep(e) => SegmentsMean(rest, es[1..]);
          case Ref(ref, source) =>
            if found == Some(Match(ref, |source|)) {
              SegmentsMean(rest, es[|source|..]);
            }
        }
      }
    }
  }
}
