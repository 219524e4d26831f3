/** What the passes of the template engine compute on the elements of a text, pass by pass. */
module SubstitutionLaws {
  import opened Text
  import opened SqlValues
  import opened Substitution

  // ---------------------------------------------------------------- texts as elements

  /** The four stages in which an element is written. */
  datatype Form = Original | Encoded | Unescaped | Final

  function Write(e: Elem, form: Form): string {
    match e
    case C(c) => [c]
    case Dollar => (match form case Original => "$$" case Encoded => SENTINEL case _ => "$")
    case Block(k, text) => if form == Original || form == Final then text else Mark(k)
  }

  function Written(es: seq<Elem>, form: Form): string {
    if es == [] then "" else Write(es[0], form) + Written(es[1..], form)
  }

  lemma {:induction false} WrittenAppend(a: seq<Elem>, b: seq<Elem>, form: Form)
    ensures Written(a + b, form) == Written(a, form) + Written(b, form)
  {
    if a == [] {
      assert a + b == b;
    } else {
      hide Write, Written;
      WrittenAppend(a[1..], b, form);
      assert a == [a[0]] + a[1..];
      Assoc([a[0]], a[1..], b);
      WrittenOne(a[0], a[1..], form);
      WrittenOne(a[0], a[1..] + b, form);
      Assoc(Write(a[0], form), Written(a[1..], form), Written(b, form));
    }
  }

  /** A text without bodies: pairs of dollars from the left, and characters. */
  function Plain(s: string): seq<Elem> {
    if s == "" then []
    else if "$$" <= s then [Dollar] + Plain(s[2..])
    else [C(s[0])] + Plain(s[1..])
  }

  /** The elements of `t` from `i` on; the next body has number `k`. */
  function Elements(t: string, i: nat, k: nat): seq<Elem>
    requires i <= |t|
    decreases |t| - i
  {
    match NextBlock(t, i)
    case None => Plain(t[i..])
    case Some(b) => Plain(t[i..b.from]) + [Block(k, t[b.from..b.to])] + Elements(t, b.to, k + 1)
  }

  lemma {:induction false} PlainSource(s: string)
    ensures Written(Plain(s), Original) == s
  {
    if s == "" {
    } else if "$$" <= s {
      PlainSource(s[2..]);
      assert ([Dollar] + Plain(s[2..]))[1..] == Plain(s[2..]);
      assert s == "$$" + s[2..];
    } else {
      PlainSource(s[1..]);
      assert ([C(s[0])] + Plain(s[1..]))[1..] == Plain(s[1..]);
    }
  }

  lemma {:induction false} WrittenOne(e: Elem, es: seq<Elem>, form: Form)
    ensures Written([e] + es, form) == Write(e, form) + Written(es, form)
    ensures Written([e], form) == Write(e, form)
  {
    assert ([e] + es)[1..] == es;
  }

  lemma {:induction false} WrittenThree(a: seq<Elem>, e: Elem, b: seq<Elem>, form: Form)
    ensures Written(a + [e] + b, form) == Written(a, form) + Write(e, form) + Written(b, form)
  {
    hide Written, Write;
    WrittenAppend(a + [e], b, form);
    WrittenAppend(a, [e], form);
    WrittenOne(e, [], form);
  }

  /** No character of the text is lost. */
  lemma {:induction false} ElementsSource(t: string, i: nat, k: nat)
    requires i <= |t|
    ensures Written(Elements(t, i, k), Original) == t[i..]
    decreases |t| - i
  {
    hide Written, NextBlock, Plain;
    match NextBlock(t, i)
    case None => PlainSource(t[i..]);
    case Some(b) =>
      PlainSource(t[i..b.from]);
      ElementsSource(t, b.to, k + 1);
      WrittenThree(Plain(t[i..b.from]), Block(k, t[b.from..b.to]), Elements(t, b.to, k + 1), Original);
      assert t[i..] == t[i..b.from] + t[b.from..b.to] + t[b.to..];
  }

  /** The bodies are numbered as the list that `maskDollarQuotes` returns, and everything comes from the text. */
  lemma {:induction false} ElementsOfText(t: string, i: nat, k: nat)
    requires i <= |t|
    ensures forall e :: e in Elements(t, i, k) && e.Block? ==>
      k <= e.index < k + |Blocks(t, i)| && Blocks(t, i)[e.index - k] == e.text
    ensures NUL !in t ==> NulFreeElems(Elements(t, i, k))
    decreases |t| - i
  {
    hide NextBlock;
    match NextBlock(t, i)
    case None => PlainChars(t[i..]);
    case Some(b) =>
      PlainChars(t[i..b.from]);
      ElementsOfText(t, b.to, k + 1);
  }

  predicate NulFreeElems(es: seq<Elem>) {
    forall e :: e in es ==> (e.C? ==> e.c != NUL) && (e.Block? ==> NUL !in e.text)
  }

  lemma {:induction false} PlainChars(s: string)
    ensures forall e :: e in Plain(s) ==> !e.Block? && (e.C? ==> e.c in s)
  {
    if s == "" {
    } else if "$$" <= s {
      PlainChars(s[2..]);
    } else {
      PlainChars(s[1..]);
    }
  }

  // ---------------------------------------------------------------- masking and escaping

  lemma {:induction false} PlainEncoded(s: string)
    ensures ReplaceAll(s, "$$", SENTINEL) == Written(Plain(s), Encoded)
  {
    if s == "" {
    } else if "$$" <= s {
      PlainEncoded(s[2..]);
      WrittenOne(Dollar, Plain(s[2..]), Encoded);
    } else {
      PlainEncoded(s[1..]);
      WrittenOne(C(s[0]), Plain(s[1..]), Encoded);
    }
  }

  lemma {:induction false} PairStep(pat: string, r: string, rep: string)
    requires pat != ""
    ensures ReplaceAll(pat + r, pat, rep) == rep + ReplaceAll(r, pat, rep)
  {
    assert (pat + r)[|pat|..] == r;
  }

  lemma {:induction false} SingleStep(c: char, r: string, pat: string, rep: string)
    requires pat != "" && !(pat <= [c] + r)
    ensures ReplaceAll([c] + r, pat, rep) == [c] + ReplaceAll(r, pat, rep)
  {
    assert ([c] + r)[1..] == r;
  }

  /** A text that starts with something else than a dollar does not join the pair before it. */
  lemma {:induction false} EscapeSplits(a: string, b: string)
    requires b == "" || b[0] != '$'
    ensures ReplaceAll(a + b, "$$", SENTINEL) == ReplaceAll(a, "$$", SENTINEL) + ReplaceAll(b, "$$", SENTINEL)
  {
    var done := ReplaceAll(b, "$$", SENTINEL);
    if a == "" {
      assert a + b == b;
    } else if "$$" <= a {
      var r := a[2..];
      assert a == "$$" + r;
      hide ReplaceAll;
      EscapeSplits(r, b);
      PairStep("$$", r, SENTINEL);
      PairStep("$$", r + b, SENTINEL);
      Assoc("$$", r, b);
      Assoc(SENTINEL, ReplaceAll(r, "$$", SENTINEL), done);
    } else {
      var r := a[1..];
      assert a == [a[0]] + r;
      Assoc([a[0]], r, b);
      NoPairAcross(a, b);
      hide ReplaceAll;
      EscapeSplits(r, b);
      SingleStep(a[0], r, "$$", SENTINEL);
      SingleStep(a[0], r + b, "$$", SENTINEL);
      Assoc([a[0]], ReplaceAll(r, "$$", SENTINEL), done);
    }
  }

  lemma {:induction false} NoPairAcross(a: string, b: string)
    requires a != "" && !("$$" <= a) && (b == "" || b[0] != '$')
    ensures !("$$" <= a + b)
  {
    assert (a + b)[0] == a[0];
    assert |a| > 1 ==> (a + b)[1] == a[1];
    assert |a| == 1 && b != "" ==> (a + b)[1] == b[0];
  }

  lemma {:induction false} MarkShape(k: nat)
    ensures '$' !in Mark(k) && |Mark(k)| >= 5 && Mark(k)[0] == NUL && Mark(k)[1] == 'D'
    ensures Mark(k)[|Mark(k)| - 1] == NUL && forall j :: 0 < j < |Mark(k)| - 1 ==> Mark(k)[j] != NUL
  {
    hide Dec;
  }

  lemma {:induction false} MarkSplits(k: nat, b: string)
    ensures ReplaceAll(Mark(k) + b, "$$", SENTINEL) == Mark(k) + ReplaceAll(b, "$$", SENTINEL)
  {
    MarkShape(k);
    hide Mark;
    FreeSplits(Mark(k), b, "$$", SENTINEL);
  }

  lemma {:induction false} FreeStep(c: char, r: string, pat: string, rep: string)
    requires pat != "" && pat[0] != c
    ensures ReplaceAll([c] + r, pat, rep) == [c] + ReplaceAll(r, pat, rep)
  {
    assert ([c] + r)[1..] == r;
  }

  /** Nothing is replaced in a part that does not contain the first character of the pattern. */
  lemma {:induction false} FreeSplits(a: string, b: string, pat: string, rep: string)
    requires pat != "" && pat[0] !in a
    ensures ReplaceAll(a + b, pat, rep) == a + ReplaceAll(b, pat, rep)
  {
    hide ReplaceAll;
    if a == "" {
      assert a + b == b;
    } else {
      FreeSplits(a[1..], b, pat, rep);
      FreeStep(a[0], a[1..] + b, pat, rep);
      assert a == [a[0]] + a[1..];
      Assoc([a[0]], a[1..], b);
      Assoc([a[0]], a[1..], ReplaceAll(b, pat, rep));
    }
  }

  lemma {:induction false} MaskedEncoded(t: string, i: nat, k: nat)
    requires i <= |t|
    ensures ReplaceAll(Masked(t, i, i, k), "$$", SENTINEL) == Written(Elements(t, i, k), Encoded)
    decreases |t| - i
  {
    hide NextBlock, Plain, Written, Mark, ReplaceAll;
    match NextBlock(t, i)
    case None => PlainEncoded(t[i..]);
    case Some(b) =>
      var a, e, rest := t[i..b.from], Block(k, t[b.from..b.to]), Masked(t, b.to, b.to, k + 1);
      MaskedEncoded(t, b.to, k + 1);
      PlainEncoded(a);
      MarkShape(k);
      Assoc(a, Mark(k), rest);
      EscapeSplits(a, Mark(k) + rest);
      MarkSplits(k, rest);
      WrittenThree(Plain(a), e, Elements(t, b.to, k + 1), Encoded);
      Assoc(Written(Plain(a), Encoded), Mark(k), Written(Elements(t, b.to, k + 1), Encoded));
  }

  /** Masking and escaping write the elements of the text in encoded form. */
  lemma {:induction false} PreparedIsEncoded(t: string)
    ensures Prepared(t) == Written(Elements(t, 0, 0), Encoded)
  {
    hide Masked, ReplaceAll, Written, Elements;
    MaskedEncoded(t, 0, 0);
  }

  // ---------------------------------------------------------------- references among elements

  predicate IsBrace(e: Elem) {
    e == C('{') || e == C('}') || e == C('$')
  }

  /** Where the text between braces stops. */
  function BraceStop(es: seq<Elem>): (n: nat)
    ensures n <= |es|
  {
    if es == [] || IsBrace(es[0]) then 0 else 1 + BraceStop(es[1..])
  }

  function WordLength(es: seq<Elem>): (n: nat)
    ensures n <= |es| && forall k :: 0 <= k < n ==> es[k].C?
  {
    if es != [] && es[0].C? && IsWord(es[0].c) then 1 + WordLength(es[1..]) else 0
  }

  predicate IsName(s: string) {
    s != "" && IsNameStart(s[0]) && forall k :: 0 <= k < |s| ==> IsWord(s[k])
  }

  /** What a pair of braces refers to. */
  function ParseBraced(content: string): Option<Reference> {
    match ParseNodeRef(content)
    case Some(r) => Some(Reference(NodeRefKey(r), true, r.many))
    case None => if IsName(content) then Some(Reference(content, false, false)) else None
  }

  /** The reference at the start of `es`, and how many elements it takes. */
  function RefIn(es: seq<Elem>): (r: Option<Match>)
    ensures r.Some? ==> 1 < r.value.len <= |es|
  {
    if es == [] || es[0] != C('$') then None
    else if 1 < |es| && es[1] == C('{') then
      var body := es[2..];
      var j := BraceStop(body);
      if j < |body| && body[j] == C('}') && ParseBraced(Written(body[..j], Encoded)).Some? then
        Some(Match(ParseBraced(Written(body[..j], Encoded)).value, j + 3))
      else None
    else
      var n := WordLength(es[1..]);
      if 0 < n && IsNameStart(es[1].c) then Some(Match(Reference(Written(es[1..n + 1], Encoded), false, false), n + 1))
      else None
  }

  /** A text in one pass: what is kept, and what refers to a value. No value plays a part in it. */
  datatype Segment = Keep(e: Elem) | Ref(ref: Reference, source: seq<Elem>)

  function Segments(es: seq<Elem>): seq<Segment>
    decreases |es|
  {
    if es == [] then []
    else match RefIn(es) {
      case Some(m) => [Ref(m.ref, es[..m.len])] + Segments(es[m.len..])
      case None => [Keep(es[0])] + Segments(es[1..])
    }
  }

  // ---------------------------------------------------------------- the patterns on encoded text

  lemma {:induction false} EncodedStarts(e: Elem)
    ensures Write(e, Encoded) != "" && (!e.C? ==> Write(e, Encoded)[0] == NUL)
    ensures !e.C? ==> forall c :: c in Write(e, Encoded) ==> c != '$' && c != '{' && c != '}'
  {
    if e.Block? {
      assert forall j :: 0 <= j < |Dec(e.index)| ==> IsDigit(Dec(e.index)[j]);
    }
  }

  lemma {:induction false} BraceEndSkips(a: string, b: string, i: nat)
    requires i <= |a| && forall k :: 0 <= k < |a| ==> a[k] != '{' && a[k] != '}' && a[k] != '$'
    ensures BraceEnd(a + b, i) == |a| + BraceEnd(b, 0)
    decreases |a| - i
  {
    if i < |a| {
      BraceEndSkips(a, b, i + 1);
    } else {
      BraceEndShift(a, b, 0);
    }
  }

  lemma {:induction false} BraceEndShift(a: string, b: string, i: nat)
    requires i <= |b|
    ensures BraceEnd(a + b, |a| + i) == |a| + BraceEnd(b, i)
    decreases |b| - i
  {
    if i < |b| {
      assert (a + b)[|a| + i] == b[i];
      BraceEndShift(a, b, i + 1);
    }
  }

  lemma {:induction false} WordEndShift(a: string, b: string, i: nat)
    requires i <= |b|
    ensures WordEnd(a + b, |a| + i) == |a| + WordEnd(b, i)
    decreases |b| - i
  {
    if i < |b| {
      assert (a + b)[|a| + i] == b[i];
      WordEndShift(a, b, i + 1);
    }
  }

  lemma {:induction false} WrittenParts(es: seq<Elem>, n: nat, form: Form)
    requires n <= |es|
    ensures Written(es, form) == Written(es[..n], form) + Written(es[n..], form)
  {
    hide Written;
    WrittenAppend(es[..n], es[n..], form);
    assert es == es[..n] + es[n..];
  }

  lemma {:induction false} WrittenFirst(es: seq<Elem>, form: Form)
    requires es != []
    ensures Written(es, form) == Write(es[0], form) + Written(es[1..], form)
  {
  }

  lemma {:induction false} TakeOne(es: seq<Elem>, n: nat)
    requires n < |es|
    ensures es[..n + 1] == [es[0]] + es[1..][..n]
  {
  }

  /** The braces are found in the encoded text where they are found among the elements. */
  lemma {:induction false} BraceEncoded(es: seq<Elem>)
    ensures BraceEnd(Written(es, Encoded), 0) == |Written(es[..BraceStop(es)], Encoded)|
  {
    if es == [] || IsBrace(es[0]) {
      assert es[..0] == [];
      if es != [] {
        assert Written(es, Encoded)[0] == es[0].c;
      }
    } else {
      var a, b, n := Write(es[0], Encoded), Written(es[1..], Encoded), BraceStop(es[1..]);
      EncodedStarts(es[0]);
      hide Written, Write, BraceEnd;
      WrittenFirst(es, Encoded);
      BraceEncoded(es[1..]);
      BraceFree(es[0]);
      BraceEndSkips(a, b, 0);
      TakeOne(es, n);
      WrittenOne(es[0], es[1..][..n], Encoded);
    }
  }

  lemma {:induction false} BraceFree(e: Elem)
    requires !IsBrace(e)
    ensures forall k :: 0 <= k < |Write(e, Encoded)| ==>
      Write(e, Encoded)[k] != '{' && Write(e, Encoded)[k] != '}' && Write(e, Encoded)[k] != '$'
  {
    EncodedStarts(e);
    var w := Write(e, Encoded);
    assert e.C? ==> w == [e.c];
    hide Write;
    forall k | 0 <= k < |w| ensures w[k] != '{' && w[k] != '}' && w[k] != '$' {
      assert w[k] in w;
    }
  }

  lemma {:induction false} WordEncoded(es: seq<Elem>)
    ensures WordEnd(Written(es, Encoded), 0) == WordLength(es) == |Written(es[..WordLength(es)], Encoded)|
  {
    if es == [] {
    } else {
      var a, b, n := Write(es[0], Encoded), Written(es[1..], Encoded), WordLength(es[1..]);
      EncodedStarts(es[0]);
      WrittenFirst(es, Encoded);
      if es[0].C? && IsWord(es[0].c) {
        assert a == [es[0].c];
        hide Written, Write;
        WordEncoded(es[1..]);
        WordEndShift(a, b, 0);
        assert WordEnd(a + b, 0) == WordEnd(a + b, 1);
        TakeOne(es, n);
        WrittenOne(es[0], es[1..][..n], Encoded);
      } else {
        assert Written(es, Encoded)[0] == a[0];
        assert !IsWord(a[0]);
        assert es[..0] == [];
      }
    }
  }

  /** A variable between braces. */
  lemma {:induction false} BracedVariable(s: string)
    requires "${" <= s
    ensures
      var e := BraceEnd(s, 2);
      VariableHere(s) == if e < |s| && s[e] == '}' && IsName(s[2..e]) then Some((s[2..e], e + 1)) else None
  {
    var e, w := BraceEnd(s, 2), WordEnd(s, 2);
    WordInBraces(s, 2);
    if e < |s| && s[e] == '}' && IsName(s[2..e]) {
      assert forall k :: 2 <= k < e ==> IsWord(s[2..e][k - 2]) && s[2..e][k - 2] == s[k];
      WordEndIs(s, 2, e);
    }
  }

  lemma {:induction false} WordInBraces(s: string, i: nat)
    requires i <= |s|
    ensures i <= WordEnd(s, i) <= BraceEnd(s, i)
    ensures forall k :: i <= k < WordEnd(s, i) ==> IsWord(s[k])
    ensures WordEnd(s, i) < |s| && s[WordEnd(s, i)] == '}' ==> BraceEnd(s, i) == WordEnd(s, i)
    decreases |s| - i
  {
    if i < |s| && IsWord(s[i]) {
      WordInBraces(s, i + 1);
    }
  }

  /** What the two patterns find between a pair of braces. */
  lemma {:induction false} BracedRef(s: string)
    requires "${" <= s
    ensures
      var e := BraceEnd(s, 2);
      RefHere(s) == if e < |s| && s[e] == '}' && ParseBraced(s[2..e]).Some?
                    then Some(Match(ParseBraced(s[2..e]).value, e + 1)) else None
  {
    BracedVariable(s);
    hide ParseNodeRef, VariableHere, NodeRefKey, BraceEnd;
  }

  /** A dollar that no brace follows. */
  lemma {:induction false} BareRef(s: string)
    requires s != "" && s[0] == '$' && !("${" <= s)
    ensures
      var e := WordEnd(s, 1);
      RefHere(s) == if 1 < e && IsNameStart(s[1]) then Some(Match(Reference(s[1..e], false, false), e)) else None
  {
    if 1 < |s| && IsNameStart(s[1]) {
      assert WordEnd(s, 1) == WordEnd(s, 2);
    }
  }

  lemma {:induction false} NoRefWithoutDollar(s: string)
    requires s != "" && s[0] != '$'
    ensures RefHere(s).None? && VariableHere(s).None? && NodeRefHere(s).None?
  {
  }

  lemma {:induction false} BracesAt(s: string, t: string)
    requires s == "$" + t
    ensures "${" <= s <==> t != "" && t[0] == '{'
  {
    assert s[0] == '$';
    assert t != "" ==> s[1] == t[0];
  }

  /** A match among elements as a match in the encoded text. */
  function InText(es: seq<Elem>, m: Option<Match>): Option<Match>
    requires m.Some? ==> m.value.len <= |es|
  {
    match m
    case None => None
    case Some(found) => Some(Match(found.ref, |Written(es[..found.len], Encoded)|))
  }

  /** A reference stands in the encoded text where it stands among the elements. */
  lemma {:induction false} RefEncoded(es: seq<Elem>)
    requires es != []
    ensures RefHere(Written(es, Encoded)) == InText(es, RefIn(es))
  {
    var s, t := Written(es, Encoded), Written(es[1..], Encoded);
    EncodedStarts(es[0]);
    WrittenFirst(es, Encoded);
    if es[0] != C('$') {
      assert s[0] == Write(es[0], Encoded)[0] != '$';
      NoRefWithoutDollar(s);
    } else {
      assert s == "$" + t;
      BracesAt(s, t);
      if 1 < |es| {
        EncodedStarts(es[1]);
        WrittenFirst(es[1..], Encoded);
      }
      assert t != "" && t[0] == '{' <==> 1 < |es| && es[1] == C('{');
      hide Written, Write, RefIn;
      if 1 < |es| && es[1] == C('{') {
        BracedEncoded(es);
      } else {
        BareEncoded(es);
      }
    }
  }

  lemma {:induction false} BareIn(es: seq<Elem>)
    requires es != [] && es[0] == C('$') && !(1 < |es| && es[1] == C('{'))
    ensures
      var n := WordLength(es[1..]);
      RefIn(es)
      == if 0 < n && IsNameStart(es[1].c) then Some(Match(Reference(Written(es[1..n + 1], Encoded), false, false), n + 1)) else None
  {
    hide WordLength, Written, BraceStop, ParseBraced;
  }

  lemma {:induction false} InTextIs(es: seq<Elem>, ref: Reference, len: nat)
    requires len <= |es|
    ensures InText(es, Some(Match(ref, len))) == Some(Match(ref, |Written(es[..len], Encoded)|))
    ensures InText(es, None) == None
  {
    hide Written;
  }

  lemma {:induction false} Behind(s: string, t: string, x: string)
    requires s == "$" + t && x <= t
    ensures s[1..1 + |x|] == x && (t != "" ==> s[1] == t[0])
  {
  }

  lemma {:induction false} BareEncoded(es: seq<Elem>)
    requires es != [] && es[0] == C('$') && !(1 < |es| && es[1] == C('{'))
    requires var s := Written(es, Encoded); s == "$" + Written(es[1..], Encoded) && !("${" <= s)
    ensures RefHere(Written(es, Encoded)) == InText(es, RefIn(es))
  {
    var s, t, n := Written(es, Encoded), Written(es[1..], Encoded), WordLength(es[1..]);
    hide *;
    BareIn(es);
    BareRef(s);
    WordEncoded(es[1..]);
    WordEndShift("$", t, 0);
    WrittenParts(es[1..], n, Encoded);
    Behind(s, t, Written(es[1..][..n], Encoded));
    if 0 < n {
      FirstWord(es[1..]);
      TakeOne(es, n);
      WrittenOne(es[0], es[1..][..n], Encoded);
      assert es[1..n + 1] == es[1..][..n];
      DollarWritten();
      InTextIs(es, Reference(Written(es[1..n + 1], Encoded), false, false), n + 1);
    }
    InTextIs(es, Reference("", false, false), 0);
  }

  lemma {:induction false} DollarWritten()
    ensures |Write(C('$'), Encoded)| == 1
  {
  }

  lemma {:induction false} FirstWord(es: seq<Elem>)
    requires 0 < WordLength(es)
    ensures Written(es, Encoded) != "" && Written(es, Encoded)[0] == es[0].c
  {
    WrittenFirst(es, Encoded);
  }

  lemma {:induction false} BracedEncoded(es: seq<Elem>)
    requires 1 < |es| && es[0] == C('$') && es[1] == C('{')
    ensures RefHere(Written(es, Encoded)) == InText(es, RefIn(es))
  {
    hide RefHere, ParseBraced, BraceEnd, BraceStop, Written;
    BracedText(es);
    BracedRef(Written(es, Encoded));
    if BraceStop(es[2..]) < |es[2..]| {
      BracedLength(es, BraceStop(es[2..]));
    }
  }

  lemma {:induction false} TwoMore(es: seq<Elem>)
    requires 1 < |es| && es[0] == C('$') && es[1] == C('{')
    ensures Written(es, Encoded) == "${" + Written(es[2..], Encoded)
  {
    WrittenFirst(es, Encoded);
    WrittenFirst(es[1..], Encoded);
    assert es[1..][1..] == es[2..];
  }

  /** The text between braces, encoded. */
  lemma {:induction false} BracedText(es: seq<Elem>)
    requires 1 < |es| && es[0] == C('$') && es[1] == C('{')
    ensures "${" <= Written(es, Encoded)
    ensures
      var s, body := Written(es, Encoded), es[2..];
      var j, e := BraceStop(body), BraceEnd(s, 2);
      && s[2..e] == Written(body[..j], Encoded)
      && e == |Written(body[..j], Encoded)| + 2
      && (e < |s| && s[e] == '}' <==> j < |body| && body[j] == C('}'))
  {
    var s, body := Written(es, Encoded), es[2..];
    var b, j := Written(body, Encoded), BraceStop(body);
    var inner := Written(body[..j], Encoded);
    hide Written, BraceEnd, BraceStop;
    TwoMore(es);
    BraceEncoded(body);
    BraceEndShift("${", b, 0);
    WrittenParts(body, j, Encoded);
    BraceCloses(body, j);
    assert b[..|inner|] == inner;
    InsideBraces(s, b, |inner|);
  }

  lemma {:induction false} InsideBraces(s: string, b: string, n: nat)
    requires s == "${" + b && n <= |b|
    ensures "${" <= s && s[2..2 + n] == b[..n] && (n < |b| ==> s[2 + n] == b[n]) && |s| == |b| + 2
  {
  }

  lemma {:induction false} BracedLength(es: seq<Elem>, j: nat)
    requires 1 < |es| && es[0] == C('$') && es[1] == C('{') && j < |es[2..]|
    ensures es[2..][j] == C('}') ==> |Written(es[..j + 3], Encoded)| == |Written(es[2..][..j], Encoded)| + 3
  {
    var us, body := es[..j + 3], es[2..];
    assert us[2..] == body[..j] + [body[j]];
    hide Written;
    TwoMore(us);
    WrittenAppend(body[..j], [body[j]], Encoded);
    WrittenOne(body[j], [], Encoded);
  }

  /** The character at which the text between braces stops. */
  lemma {:induction false} BraceCloses(body: seq<Elem>, j: nat)
    requires j == BraceStop(body)
    ensures
      var b, n := Written(body, Encoded), |Written(body[..j], Encoded)|;
      n <= |b| && (n < |b| && b[n] == '}' <==> j < |body| && body[j] == C('}'))
  {
    WrittenParts(body, j, Encoded);
    var rest := Written(body[j..], Encoded);
    if j < |body| {
      BraceStopIsBrace(body);
      WrittenFirst(body[j..], Encoded);
      assert rest[0] == body[j].c;
    } else {
      assert body[j..] == [];
    }
  }

  lemma {:induction false} BraceStopIsBrace(body: seq<Elem>)
    requires BraceStop(body) < |body|
    ensures IsBrace(body[BraceStop(body)])
  {
    if !IsBrace(body[0]) {
      BraceStopIsBrace(body[1..]);
    }
  }

  // ---------------------------------------------------------------- filling in the values

  function Chars(s: string): seq<Elem> {
    if s == "" then [] else [C(s[0])] + Chars(s[1..])
  }

  /** The meaning of a text: every reference replaced by its value, everything else kept. */
  function Fill(segments: seq<Segment>, values: map<string, Value>, guard: bool, python: bool): Result<seq<Elem>, Error> {
    if segments == [] then Ok([])
    else match segments[0] {
      case Keep(e) =>
        var rest :- Fill(segments[1..], values, guard, python);
        Ok([e] + rest)
      case Ref(r, _) =>
        var v :- Eval(r, values, guard, python);
        var rest :- Fill(segments[1..], values, guard, python);
        Ok(Chars(v) + rest)
    }
  }

  lemma {:induction false} CharsWritten(s: string, form: Form)
    ensures Written(Chars(s), form) == s
  {
    if s != "" {
      CharsWritten(s[1..], form);
      WrittenOne(C(s[0]), Chars(s[1..]), form);
    }
  }

  function Prefixed(a: string, r: Result<string, Error>): Result<string, Error> {
    match r
    case Ok(t) => Ok(a + t)
    case Err(e) => Err(e)
  }

  function Encode(r: Result<seq<Elem>, Error>): Result<string, Error> {
    match r
    case Ok(es) => Ok(Written(es, Encoded))
    case Err(e) => Err(e)
  }

  lemma {:induction false} ReplacedChar(c: char, t: string, values: map<string, Value>, guard: bool, python: bool)
    requires RefHere([c] + t).None?
    ensures Replaced([c] + t, values, guard, python) == Prefixed([c], Replaced(t, values, guard, python))
  {
    assert ([c] + t)[1..] == t;
    hide RefHere, Eval;
  }

  lemma {:induction false} ReplacedRef(s: string, m: Match, values: map<string, Value>, guard: bool, python: bool)
    requires s != "" && RefHere(s) == Some(m)
    ensures
      Replaced(s, values, guard, python)
      == match Eval(m.ref, values, guard, python) {
           case Err(e) => Err(e)
           case Ok(v) => Prefixed(v, Replaced(s[m.len..], values, guard, python))
         }
  {
    hide RefHere, Eval;
  }

  lemma {:induction false} PrefixedTwice(a: string, b: string, r: Result<string, Error>)
    ensures Prefixed(a, Prefixed(b, r)) == Prefixed(a + b, r)
    ensures Prefixed("", r) == r
  {
    if r.Ok? {
      Assoc(a, b, r.value);
      assert "" + r.value == r.value;
    }
  }

  /** Nothing is replaced in a part without dollars. */
  lemma {:induction false} ReplacedSkips(a: string, b: string, values: map<string, Value>, guard: bool, python: bool)
    requires '$' !in a
    ensures Replaced(a + b, values, guard, python) == Prefixed(a, Replaced(b, values, guard, python))
  {
    hide Replaced, RefHere, Prefixed;
    PrefixedTwice("", "", Replaced(b, values, guard, python));
    if a == "" {
      assert a + b == b;
    } else {
      ReplacedSkips(a[1..], b, values, guard, python);
      assert a == [a[0]] + a[1..];
      Assoc([a[0]], a[1..], b);
      NoRefWithoutDollar([a[0]] + (a[1..] + b));
      ReplacedChar(a[0], a[1..] + b, values, guard, python);
      PrefixedTwice([a[0]], a[1..], Replaced(b, values, guard, python));
    }
  }

  lemma {:induction false} EncodeKeep(e: Elem, r: Result<seq<Elem>, Error>)
    ensures
      Prefixed(Write(e, Encoded), Encode(r))
      == Encode(match r { case Ok(es) => Ok([e] + es) case Err(x) => Err(x) })
  {
    if r.Ok? {
      WrittenOne(e, r.value, Encoded);
    }
  }

  lemma {:induction false} EncodeValue(v: string, r: Result<seq<Elem>, Error>)
    ensures
      Prefixed(v, Encode(r)) == Encode(match r { case Ok(es) => Ok(Chars(v) + es) case Err(x) => Err(x) })
  {
    if r.Ok? {
      CharsWritten(v, Encoded);
      WrittenAppend(Chars(v), r.value, Encoded);
    }
  }

  lemma {:induction false} FillKeep(e: Elem, rest: seq<Segment>, values: map<string, Value>, guard: bool, python: bool)
    ensures
      Encode(Fill([Keep(e)] + rest, values, guard, python))
      == Prefixed(Write(e, Encoded), Encode(Fill(rest, values, guard, python)))
  {
    assert ([Keep(e)] + rest)[1..] == rest;
    EncodeKeep(e, Fill(rest, values, guard, python));
    hide Encode, Prefixed, Write;
  }

  lemma {:induction false} FillRef(r: Reference, source: seq<Elem>, rest: seq<Segment>, values: map<string, Value>, guard: bool, python: bool)
    ensures
      Encode(Fill([Ref(r, source)] + rest, values, guard, python))
      == match Eval(r, values, guard, python) {
           case Err(e) => Err(e)
           case Ok(v) => Prefixed(v, Encode(Fill(rest, values, guard, python)))
         }
  {
    assert ([Ref(r, source)] + rest)[1..] == rest;
    hide Eval, Prefixed;
    if Eval(r, values, guard, python).Ok? {
      EncodeValue(Eval(r, values, guard, python).value, Fill(rest, values, guard, python));
    }
  }

  /** The pass over the encoded text writes the filled segments. */
  lemma {:induction false} ReplacedEncoded(es: seq<Elem>, values: map<string, Value>, guard: bool, python: bool)
    ensures Replaced(Written(es, Encoded), values, guard, python) == Encode(Fill(Segments(es), values, guard, python))
    decreases |es|
  {
    if es != [] {
      var s := Written(es, Encoded);
      hide RefHere, RefIn, Eval, Replaced, Encode, Fill, Prefixed, Written, Write;
      RefEncoded(es);
      EncodedStarts(es[0]);
      WrittenFirst(es, Encoded);
      match RefIn(es) {
        case Some(m) =>
          WrittenParts(es, m.len, Encoded);
          var a, b := Written(es[..m.len], Encoded), Written(es[m.len..], Encoded);
          assert s[|a|..] == b;
          ReplacedEncoded(es[m.len..], values, guard, python);
          WriteNotEmpty(es);
          ReplacedRef(s, Match(m.ref, |a|), values, guard, python);
          FillRef(m.ref, es[..m.len], Segments(es[m.len..]), values, guard, python);
        case None =>
          ReplacedEncoded(es[1..], values, guard, python);
          FillKeep(es[0], Segments(es[1..]), values, guard, python);
          ReplacedElem(es[0], Written(es[1..], Encoded), values, guard, python);
      }
    }
  }

  lemma {:induction false} WriteNotEmpty(es: seq<Elem>)
    requires es != []
    ensures Written(es, Encoded) != ""
  {
    EncodedStarts(es[0]);
  }

  lemma {:induction false} ReplacedElem(e: Elem, t: string, values: map<string, Value>, guard: bool, python: bool)
    requires RefHere(Write(e, Encoded) + t).None?
    ensures
      Replaced(Write(e, Encoded) + t, values, guard, python)
      == Prefixed(Write(e, Encoded), Replaced(t, values, guard, python))
  {
    EncodedStarts(e);
    if e.C? {
      ReplacedChar(e.c, t, values, guard, python);
    } else {
      assert '$' !in Write(e, Encoded);
      hide Write;
      ReplacedSkips(Write(e, Encoded), t, values, guard, python);
    }
  }
}
