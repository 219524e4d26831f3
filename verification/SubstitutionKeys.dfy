/** Which values a text asks for, and how references are read back. */
module SubstitutionKeys {
  import opened Text
  import opened SqlValues
  import opened Substitution
  import opened SubstitutionLaws
  import opened SubstitutionMeaning

  /** The references that the pass over `s` looks up, in order. */
  function References(s: string): seq<Reference>
    decreases |s|
  {
    if s == "" then []
    else match RefHere(s) {
      case Some(m) => [m.ref] + References(s[m.len..])
      case None => References(s[1..])
    }
  }

  /** The keys of the variables (`node` false) or of the node references. */
  function KeysOf(refs: seq<Reference>, node: bool): seq<string> {
    if refs == [] then []
    else (if refs[0].node == node then [refs[0].key] else []) + KeysOf(refs[1..], node)
  }

  function RefsIn(segments: seq<Segment>): seq<Reference> {
    if segments == [] then []
    else (if segments[0].Ref? then [segments[0].ref] else []) + RefsIn(segments[1..])
  }

  // ---------------------------------------------------------------- the two patterns never compete

  lemma {:induction false} MatchHoldsOneDollar(s: string)
    ensures NodeRefHere(s).Some? ==> '$' !in s[1..NodeRefHere(s).value.1]
    ensures VariableHere(s).Some? ==> '$' !in s[1..VariableHere(s).value.1]
  {
    hide ParseNodeRef;
    if "${" <= s {
      NoBraceInside(s, 2);
      WordInBraces(s, 2);
      assert s[1] == '{';
    } else if 1 < |s| && s[0] == '$' {
      WordInBraces(s, 2);
    }
  }

  lemma {:induction false} NoBraceInside(s: string, i: nat)
    requires i <= |s|
    ensures forall k :: i <= k < BraceEnd(s, i) ==> s[k] != '$' && s[k] != '{' && s[k] != '}'
    decreases |s| - i
  {
    if i < |s| && s[i] != '{' && s[i] != '}' && s[i] != '$' {
      NoBraceInside(s, i + 1);
    }
  }

  lemma {:induction false} NeverBoth(s: string)
    ensures NodeRefHere(s).None? || VariableHere(s).None?
  {
    if "${" <= s {
      var content := s[2..BraceEnd(s, 2)];
      BracedVariable(s);
      hide VariableHere, BraceEnd;
      if ParseNodeRef(content).Some? {
        assert content[LastDot(content).value] == '.';
      }
    }
  }

  lemma {:induction false} VariablesStep(c: char, r: string)
    requires c != '$'
    ensures Variables([c] + r) == Variables(r)
  {
    assert ([c] + r)[1..] == r && ([c] + r)[0] == c;
    NoRefWithoutDollar([c] + r);
    hide VariableHere;
  }

  lemma {:induction false} VariablesSkip(a: string, b: string)
    requires '$' !in a
    ensures Variables(a + b) == Variables(b)
  {
    if a == "" {
      assert a + b == b;
    } else {
      assert a[0] in a;
      hide Variables;
      VariablesSkip(a[1..], b);
      assert a == [a[0]] + a[1..];
      Assoc([a[0]], a[1..], b);
      VariablesStep(a[0], a[1..] + b);
    }
  }

  lemma {:induction false} NodeRefsStep(c: char, r: string)
    requires c != '$'
    ensures NodeRefs([c] + r) == NodeRefs(r)
  {
    assert ([c] + r)[1..] == r && ([c] + r)[0] == c;
    NoRefWithoutDollar([c] + r);
    hide NodeRefHere;
  }

  lemma {:induction false} NodeRefsSkip(a: string, b: string)
    requires '$' !in a
    ensures NodeRefs(a + b) == NodeRefs(b)
  {
    if a == "" {
      assert a + b == b;
    } else {
      assert a[0] in a;
      hide NodeRefs;
      NodeRefsSkip(a[1..], b);
      assert a == [a[0]] + a[1..];
      Assoc([a[0]], a[1..], b);
      NodeRefsStep(a[0], a[1..] + b);
    }
  }

  lemma {:induction false} SplitMatch(s: string, n: nat)
    requires 1 <= n <= |s|
    ensures s[1..] == s[1..n] + s[n..]
  {
  }

  /** Each list comes from its own pass over the text, and finds what the one pass finds of its kind. */
  lemma {:induction false} PassesAgree(s: string)
    ensures Variables(s) == KeysOf(References(s), false)
    ensures Keys(NodeRefs(s)) == KeysOf(References(s), true)
    decreases |s|
  {
    if s != "" {
      NeverBoth(s);
      MatchHoldsOneDollar(s);
      hide NodeRefHere, VariableHere, NodeRefKey;
      match RefHere(s) {
        case None => PassesAgree(s[1..]);
        case Some(m) =>
          PassesAgree(s[m.len..]);
          SplitMatch(s, m.len);
          assert References(s)[1..] == References(s[m.len..]);
          if m.ref.node {
            VariablesSkip(s[1..m.len], s[m.len..]);
            KeysOfCons(NodeRefHere(s).value.0, NodeRefs(s[m.len..]));
          } else {
            NodeRefsSkip(s[1..m.len], s[m.len..]);
          }
      }
    }
  }

  lemma {:induction false} ReferencesStep(c: char, r: string)
    requires c != '$'
    ensures References([c] + r) == References(r)
  {
    assert ([c] + r)[1..] == r && ([c] + r)[0] == c;
    NoRefWithoutDollar([c] + r);
    hide RefHere;
  }

  lemma {:induction false} ReferencesSkip(a: string, b: string)
    requires '$' !in a
    ensures References(a + b) == References(b)
  {
    if a == "" {
      assert a + b == b;
    } else {
      assert a[0] in a;
      hide References;
      ReferencesSkip(a[1..], b);
      assert a == [a[0]] + a[1..];
      Assoc([a[0]], a[1..], b);
      ReferencesStep(a[0], a[1..] + b);
    }
  }

  lemma {:induction false} RefsInCons(x: Segment, segments: seq<Segment>)
    ensures RefsIn([x] + segments) == (if x.Ref? then [x.ref] else []) + RefsIn(segments)
  {
    assert ([x] + segments)[1..] == segments;
  }

  /** The references of the encoded text are those of its segments. */
  lemma {:induction false} ReferencesEncoded(es: seq<Elem>)
    ensures References(Written(es, Encoded)) == RefsIn(Segments(es))
    decreases |es|
  {
    if es != [] {
      var s, t := Written(es, Encoded), Written(es[1..], Encoded);
      RefEncoded(es);
      EncodedStarts(es[0]);
      WrittenFirst(es, Encoded);
      hide RefHere, RefIn, Written, Write, RefsIn;
      match RefIn(es) {
        case Some(m) =>
          WrittenParts(es, m.len, Encoded);
          assert s[|Written(es[..m.len], Encoded)|..] == Written(es[m.len..], Encoded);
          ReferencesEncoded(es[m.len..]);
          RefsInCons(Ref(m.ref, es[..m.len]), Segments(es[m.len..]));
        case None =>
          ReferencesEncoded(es[1..]);
          RefsInCons(Keep(es[0]), Segments(es[1..]));
          ReferencesElem(es[0], t);
      }
    }
  }

  lemma {:induction false} ReferencesElem(e: Elem, t: string)
    requires RefHere(Write(e, Encoded) + t).None?
    ensures References(Write(e, Encoded) + t) == References(t)
  {
    EncodedStarts(e);
    if e.C? {
      assert (Write(e, Encoded) + t)[1..] == t;
    } else {
      assert '$' !in Write(e, Encoded);
      ReferencesSkip(Write(e, Encoded), t);
    }
  }

  lemma {:induction false} DistinctHas(xs: seq<string>, seen: seq<string>, x: string)
    ensures x in Distinct(xs, seen) <==> x in xs || x in seen
  {
    if xs != [] {
      DistinctHas(xs[1..], if xs[0] in seen then seen else seen + [xs[0]], x);
    }
  }

  predicate NoRepeats(xs: seq<string>) {
    forall i, j :: 0 <= i < j < |xs| ==> xs[i] != xs[j]
  }

  lemma {:induction false} DistinctNoRepeats(xs: seq<string>, seen: seq<string>)
    requires NoRepeats(seen)
    ensures NoRepeats(Distinct(xs, seen)) && seen <= Distinct(xs, seen)
  {
    if xs != [] {
      DistinctNoRepeats(xs[1..], if xs[0] in seen then seen else seen + [xs[0]]);
    }
  }

  lemma {:induction false} KeysOfHas(refs: seq<Reference>, node: bool, key: string)
    ensures key in KeysOf(refs, node) <==> exists r :: r in refs && r.node == node && r.key == key
  {
    if refs != [] {
      KeysOfHas(refs[1..], node, key);
    }
  }

  /** The members of `xs`, in the order in which they first come. */
  predicate InFirstOrder(ys: seq<string>, xs: seq<string>) {
    && (forall i :: 0 <= i < |ys| ==> ys[i] in xs)
    && forall i, j :: 0 <= i < j < |ys| ==> ComesFirst(ys[i], ys[j], xs)
  }

  /** `x` stands before every `y`. */
  predicate ComesFirst(x: string, y: string, xs: seq<string>) {
    xs != [] && xs[0] != y && (xs[0] == x || ComesFirst(x, y, xs[1..]))
  }

  lemma {:induction false} ComesFirstNew(x: string, y: string, xs: seq<string>)
    requires x in xs && y !in xs
    ensures ComesFirst(x, y, xs)
  {
    if xs[0] != x {
      ComesFirstNew(x, y, xs[1..]);
    }
  }

  lemma {:induction false} ComesFirstMore(x: string, y: string, xs: seq<string>, z: string)
    requires ComesFirst(x, y, xs)
    ensures ComesFirst(x, y, xs + [z])
  {
    assert (xs + [z])[1..] == xs[1..] + [z];
    if xs[0] != x {
      ComesFirstMore(x, y, xs[1..], z);
    }
  }

  lemma {:induction false} OrderStep(done: seq<string>, seen: seq<string>, x: string)
    requires InFirstOrder(seen, done) && forall y :: y in done ==> y in seen
    ensures
      var next := if x in seen then seen else seen + [x];
      InFirstOrder(next, done + [x]) && forall y :: y in done + [x] ==> y in next
  {
    var next, more := if x in seen then seen else seen + [x], done + [x];
    hide ComesFirst;
    forall i, j | 0 <= i < j < |next| ensures ComesFirst(next[i], next[j], more) {
      assert next[i] == seen[i] && seen[i] in done;
      if j < |seen| {
        assert next[j] == seen[j];
      } else {
        assert x !in done;
        ComesFirstNew(next[i], x, done);
      }
      ComesFirstMore(next[i], next[j], done, x);
    }
  }

  lemma {:induction false} DistinctInOrder(done: seq<string>, xs: seq<string>, seen: seq<string>)
    requires InFirstOrder(seen, done) && forall x :: x in done ==> x in seen
    ensures InFirstOrder(Distinct(xs, seen), done + xs)
    decreases |xs|
  {
    hide InFirstOrder;
    if xs == [] {
      assert done + xs == done;
    } else {
      OrderStep(done, seen, xs[0]);
      DistinctInOrder(done + [xs[0]], xs[1..], if xs[0] in seen then seen else seen + [xs[0]]);
      assert (done + [xs[0]]) + xs[1..] == done + xs;
    }
  }

  /** What `extract` returns. */
  function VariableNames(text: string): seq<string> {
    if '$' in text then Distinct(Variables(Prepared(text)), []) else []
  }

  /** The keys of what `extractNodeRefs` returns. */
  function NodeRefNames(text: string): seq<string> {
    if '$' in text then Distinct(Keys(NodeRefs(Prepared(text))), []) else []
  }

  /** The two lists name exactly the keys that substitution looks up, each once. */
  lemma {:induction false} ListedKeysAreLookedUp(text: string, key: string)
    ensures
      key in VariableNames(text) + NodeRefNames(text)
      <==> exists r :: r in RefsIn(Segments(Elements(text, 0, 0))) && r.key == key
    ensures NoRepeats(VariableNames(text)) && NoRepeats(NodeRefNames(text))
  {
    var refs := RefsIn(Segments(Elements(text, 0, 0)));
    hide Elements, Segments, Prepared, Written, References, RefsIn, Variables, NodeRefs, Keys, KeysOf, Distinct;
    PreparedIsEncoded(text);
    ReferencesEncoded(Elements(text, 0, 0));
    PassesAgree(Prepared(text));
    DistinctHas(Variables(Prepared(text)), [], key);
    DistinctHas(Keys(NodeRefs(Prepared(text))), [], key);
    DistinctNoRepeats(Variables(Prepared(text)), []);
    DistinctNoRepeats(Keys(NodeRefs(Prepared(text))), []);
    KeysOfHas(refs, false, key);
    KeysOfHas(refs, true, key);
    if '$' !in text {
      NoDollarNoRefs(text);
    }
  }

  /** Both lists are in the order in which the keys first come in the text. */
  lemma {:induction false} ListedInOrder(text: string)
    ensures
      var refs := RefsIn(Segments(Elements(text, 0, 0)));
      InFirstOrder(VariableNames(text), KeysOf(refs, false)) && InFirstOrder(NodeRefNames(text), KeysOf(refs, true))
  {
    hide Elements, Segments, Prepared, Written, References, RefsIn, Variables, NodeRefs, Keys, KeysOf, Distinct, ComesFirst;
    PreparedIsEncoded(text);
    ReferencesEncoded(Elements(text, 0, 0));
    PassesAgree(Prepared(text));
    var names, keys := Variables(Prepared(text)), Keys(NodeRefs(Prepared(text)));
    DistinctInOrder([], names, []);
    DistinctInOrder([], keys, []);
    assert [] + names == names && [] + keys == keys;
  }

  lemma {:induction false} KeptNoRefs(es: seq<Elem>)
    ensures RefsIn(Kept(es)) == []
  {
    if es != [] {
      KeptNoRefs(es[1..]);
      RefsInCons(Keep(es[0]), Kept(es[1..]));
    }
  }

  lemma {:induction false} NoDollarNoRefs(text: string)
    requires '$' !in text
    ensures RefsIn(Segments(Elements(text, 0, 0))) == []
  {
    NoDollarNoDelimiter(text, 0);
    assert text[0..] == text && Elements(text, 0, 0) == Plain(text);
    hide Elements, Segments, RefsIn, Kept, Plain, Chars;
    PlainWithoutDollar(text);
    CharsAre(text);
    SegmentsWithoutDollar(Chars(text));
    KeptNoRefs(Chars(text));
  }

  // ---------------------------------------------------------------- nothing else matters

  predicate SameAt(v: map<string, Value>, w: map<string, Value>, key: string) {
    (key in v <==> key in w) && (key in v ==> v[key] == w[key])
  }

  lemma {:induction false} FillSame(segments: seq<Segment>, v: map<string, Value>, w: map<string, Value>, guard: bool, python: bool)
    requires forall r :: r in RefsIn(segments) ==> SameAt(v, w, r.key)
    ensures Fill(segments, v, guard, python) == Fill(segments, w, guard, python)
  {
    if segments != [] {
      FillSame(segments[1..], v, w, guard, python);
      if segments[0].Ref? {
        assert segments[0].ref in RefsIn(segments);
        assert Eval(segments[0].ref, v, guard, python) == Eval(segments[0].ref, w, guard, python);
      }
      hide Eval, SameAt;
    }
  }

  /** Values under keys that are not listed have no influence on what substitution returns. */
  lemma {:induction false} OnlyListedKeysMatter(text: string, v: map<string, Value>, w: map<string, Value>, context: Option<string>)
    requires forall key :: key in VariableNames(text) + NodeRefNames(text) ==> SameAt(v, w, key)
    ensures Substitute(text, v, context) == Substitute(text, w, context)
    ensures Meaning(text, v, context) == Meaning(text, w, context)
  {
    var es := Elements(text, 0, 0);
    var refs := RefsIn(Segments(es));
    hide Elements, Segments, RefsIn, VariableNames, NodeRefNames, Fill, SameAt, Prepared, Replaced, Written, ReplaceAll, Restore;
    forall r | r in refs ensures SameAt(v, w, r.key) {
      ListedKeysAreLookedUp(text, r.key);
    }
    var guard, python := IsSqlContext(context), IsPythonContext(context);
    FillSame(Segments(es), v, w, guard, python);
    PreparedIsEncoded(text);
    ReplacedEncoded(es, v, guard, python);
    ReplacedEncoded(es, w, guard, python);
  }

  lemma {:induction false} FillNeeds(segments: seq<Segment>, values: map<string, Value>, guard: bool, python: bool, r: Reference)
    requires r in RefsIn(segments) && (r.key !in values || values[r.key].Undefined?)
    ensures Fill(segments, values, guard, python).Err?
  {
    if !(segments[0].Ref? && segments[0].ref == r) {
      assert r in RefsIn(segments[1..]);
      FillNeeds(segments[1..], values, guard, python, r);
      hide Eval;
    }
  }

  /** A listed key without a value makes substitution fail. */
  lemma {:induction false} MissingValueFails(text: string, values: map<string, Value>, context: Option<string>, key: string)
    requires NUL !in text && NulFreeValues(values)
    requires key in VariableNames(text) + NodeRefNames(text) && (key !in values || values[key].Undefined?)
    ensures Substitute(text, values, context).Err?
  {
    var segments := Segments(Elements(text, 0, 0));
    hide Elements, Segments, RefsIn, VariableNames, NodeRefNames, Fill, Substitute;
    ListedKeysAreLookedUp(text, key);
    var r :| r in RefsIn(segments) && r.key == key;
    FillNeeds(segments, values, IsSqlContext(context), IsPythonContext(context), r);
    SubstituteIsMeaning(text, values, context);
  }

  // ---------------------------------------------------------------- bodies and escaped dollars

  /** The bodies and escaped dollars among elements. */
  function Fixed(es: seq<Elem>): seq<Elem> {
    if es == [] then [] else (if es[0].C? then [] else [es[0]]) + Fixed(es[1..])
  }

  function FixedIn(segments: seq<Segment>): seq<Elem> {
    if segments == [] then []
    else (if segments[0].Keep? && !segments[0].e.C? then [segments[0].e] else []) + FixedIn(segments[1..])
  }

  lemma {:induction false} FixedOfChar(c: char, es: seq<Elem>)
    ensures Fixed([C(c)] + es) == Fixed(es)
  {
    assert ([C(c)] + es)[1..] == es;
  }

  lemma {:induction false} FixedOfChars(s: string, es: seq<Elem>)
    ensures Fixed(Chars(s) + es) == Fixed(es)
  {
    if s == "" {
      assert Chars(s) + es == es;
    } else {
      hide Fixed;
      FixedOfChars(s[1..], es);
      Assoc([C(s[0])], Chars(s[1..]), es);
      FixedOfChar(s[0], Chars(s[1..]) + es);
    }
  }

  /** No value adds, removes or changes a quoted body or an escaped dollar. */
  lemma {:induction false} FixedKept(segments: seq<Segment>, values: map<string, Value>, guard: bool, python: bool)
    ensures
      var r := Fill(segments, values, guard, python);
      r.Ok? ==> Fixed(r.value) == FixedIn(segments)
  {
    if segments != [] {
      var rest := Fill(segments[1..], values, guard, python);
      FixedKept(segments[1..], values, guard, python);
      hide Eval;
      match segments[0] {
        case Keep(e) =>
          if rest.Ok? {
            assert ([e] + rest.value)[1..] == rest.value;
          }
        case Ref(r, _) =>
          if rest.Ok? && Eval(r, values, guard, python).Ok? {
            FixedOfChars(Eval(r, values, guard, python).value, rest.value);
          }
      }
    }
  }

  // ---------------------------------------------------------------- references printed and read back

  /** A name that the pattern can carry: not empty, no space around it, none of the reserved characters. */
  predicate Carried(s: string, reserved: string) {
    s != "" && Trim(s) == s && forall k :: 0 <= k < |s| ==> s[k] !in reserved
  }

  lemma {:induction false} TrimSame(s: string)
    requires s != "" && !IsSpace(s[|s| - 1])
    ensures TrimEnd(s) == s
  {
  }

  lemma {:induction false} NoBrackets(s: string)
    requires '[' !in s && ']' !in s
    ensures BeforeBrackets(s).None?
  {
    var t := TrimEnd(s);
    assert t != "" ==> t[|t| - 1] in s;
    hide TrimEnd;
  }

  lemma {:induction false} BracketsBehind(c: string)
    ensures BeforeBrackets(c + "[]") == Some(c)
  {
    var s := c + "[]";
    TrimSame(s);
    assert s[..|s| - 1] == c + "[";
    TrimSame(c + "[");
    assert (c + "[")[..|c|] == c;
    hide TrimEnd;
  }

  lemma {:induction false} LastDotIs(a: string, b: string)
    requires '.' !in b
    ensures LastDot(a + "." + b) == Some(|a|)
  {
    var s := a + "." + b;
    assert forall k :: |a| < k < |s| ==> s[k] == b[k - |a| - 1];
    assert s[|a|] == '.';
    hide LastDot;
    var r := LastDot(s);
    assert r.Some?;
  }

  lemma {:induction false} TrimKeepSame(s: string)
    requires s != "" && Trim(s) == s
    ensures TrimKeep(s) == Some(s)
  {
  }

  /** What stands behind the last dot of a key. */
  function Behind(r: NodeRef): string {
    r.column + (if r.many then "[]" else "")
  }

  lemma {:induction false} KeyParts(r: NodeRef)
    requires Carried(r.node, "{}$") && Carried(r.column, "{}$.[]")
    ensures NodeRefKey(r) == r.node + "." + Behind(r)
    ensures '.' !in Behind(r) && '[' !in r.column && ']' !in r.column
    ensures NodeRefKey(r)[..|r.node|] == r.node && NodeRefKey(r)[|r.node| + 1..] == Behind(r)
    ensures TrimKeep(r.node) == Some(r.node) && TrimKeep(r.column) == Some(r.column)
  {
    assert forall c :: c in r.column ==> c !in "{}$.[]";
    assert NodeRefKey(r) == r.node + "." + Behind(r);
    hide TrimKeep, Trim;
    TrimKeepSame(r.node);
    TrimKeepSame(r.column);
  }

  lemma {:induction false} ParsedBack(r: NodeRef)
    requires Carried(r.node, "{}$") && Carried(r.column, "{}$.[]")
    ensures ParseNodeRef(NodeRefKey(r)) == Some(r)
  {
    hide LastDot, BeforeBrackets, TrimKeep, Trim, NodeRefKey, Carried;
    KeyParts(r);
    LastDotIs(r.node, Behind(r));
    BracketsBehind(r.column);
    NoBrackets(r.column);
    assert !r.many ==> Behind(r) == r.column;
  }

  lemma {:induction false} BraceEndIs(s: string, i: nat, e: nat)
    requires i <= e < |s| && s[e] == '}'
    requires forall k :: i <= k < e ==> s[k] != '{' && s[k] != '}' && s[k] != '$'
    ensures BraceEnd(s, i) == e
    decreases e - i
  {
    if i < e {
      BraceEndIs(s, i + 1, e);
    }
  }

  lemma {:induction false} KeyInBraces(key: string, rest: string)
    requires forall k :: 0 <= k < |key| ==> key[k] != '{' && key[k] != '}' && key[k] != '$'
    ensures
      var s, e := "${" + key + "}" + rest, |key| + 2;
      "${" <= s && e < |s| && s[2..e] == key && s[e] == '}' && BraceEnd(s, 2) == e
  {
    var s, e := "${" + key + "}" + rest, |key| + 2;
    assert s[2..e] == key;
    forall k | 2 <= k < e ensures s[k] != '{' && s[k] != '}' && s[k] != '$' {
      assert s[k] == key[k - 2];
    }
    hide BraceEnd;
    BraceEndIs(s, 2, e);
  }

  /** What the editor inserts for a node reference is read back as that reference. */
  lemma {:induction false} NodeRefRoundTrip(r: NodeRef, rest: string)
    requires Carried(r.node, "{}$") && Carried(r.column, "{}$.[]")
    ensures RefHere(NodeRefText(r) + rest) == Some(Match(Reference(NodeRefKey(r), true, r.many), |NodeRefText(r)|))
  {
    hide *;
    KeyHasNoBrace(r);
    ParsedBack(r);
    KeyInBraces(NodeRefKey(r), rest);
    TextOfRef(r);
    BracedRef("${" + NodeRefKey(r) + "}" + rest);
    ParsedIs(NodeRefKey(r));
  }

  lemma {:induction false} TextOfRef(r: NodeRef)
    ensures NodeRefText(r) == "${" + NodeRefKey(r) + "}" && |NodeRefText(r)| == |NodeRefKey(r)| + 3
  {
    hide NodeRefKey;
  }

  lemma {:induction false} ParsedIs(content: string)
    ensures
      ParseNodeRef(content).Some? ==>
        var r := ParseNodeRef(content).value;
        ParseBraced(content) == Some(Reference(NodeRefKey(r), true, r.many))
  {
    hide ParseNodeRef, NodeRefKey;
  }

  lemma {:induction false} KeyHasNoBrace(r: NodeRef)
    requires Carried(r.node, "{}$") && Carried(r.column, "{}$.[]")
    ensures forall k :: 0 <= k < |NodeRefKey(r)| ==> NodeRefKey(r)[k] != '{' && NodeRefKey(r)[k] != '}' && NodeRefKey(r)[k] != '$'
  {
    assert forall c :: c in r.node ==> c !in "{}$";
    assert forall c :: c in r.column ==> c !in "{}$.[]";
    var key := NodeRefKey(r);
    forall k | 0 <= k < |key| ensures key[k] != '{' && key[k] != '}' && key[k] != '$' {
      assert key[k] in r.node || key[k] == '.' || key[k] in r.column || key[k] == '[' || key[k] == ']';
    }
  }
}
