/** `substitute` against its meaning, and where it computes something else. */
module SubstitutionMeaning {
  import opened Text
  import opened SqlValues
  import opened Substitution
  import opened SubstitutionLaws

  // ---------------------------------------------------------------- values without NUL

  predicate NulFree(v: Value) {
    match v
    case Num(text) => NUL !in text
    case Str(text) => NUL !in text
    case List(items) => forall k :: 0 <= k < |items| ==> NulFree(items[k])
    case _ => true
  }

  predicate NulFreeValues(values: map<string, Value>) {
    forall k :: k in values ==> NulFree(values[k])
  }

  lemma {:induction false} StringOfNulFree(v: Value)
    requires NulFree(v)
    ensures NUL !in StringOf(v)
  {
    if v.List? {
      CommaJoinNulFree(v.items);
    }
  }

  lemma {:induction false} CommaJoinNulFree(items: seq<Value>)
    requires forall k :: 0 <= k < |items| ==> NulFree(items[k])
    ensures NUL !in CommaJoin(items)
  {
    if items != [] {
      assert NulFree(items[0]);
      StringOfNulFree(items[0]);
      assert forall k :: 0 <= k < |items[1..]| ==> items[1..][k] == items[k + 1];
      CommaJoinNulFree(items[1..]);
    }
  }

  lemma {:induction false} EscapeNulFree(c: char)
    ensures NUL !in PyEscape(c)
  {
  }

  lemma {:induction false} BodyNulFree(text: string)
    ensures NUL !in PyEscapeBody(text)
  {
    if text != "" {
      hide PyEscape;
      EscapeNulFree(text[0]);
      BodyNulFree(text[1..]);
    }
  }

  lemma {:induction false} QuotesNulFree(text: string)
    requires NUL !in text
    ensures NUL !in EscapeQuotes(text)
  {
    if text != "" {
      QuotesNulFree(text[1..]);
    }
  }

  lemma {:induction false} PyLiteralNulFree(v: Value)
    requires NulFree(v)
    ensures NUL !in PyLiteral(v)
  {
    if v.Str? || v.List? {
      BodyNulFree(StringOf(v));
      QuotesNulFree(PyEscapeBody(StringOf(v)));
    }
  }

  lemma {:induction false} ItemsNulFree(name: string, items: seq<Value>, guard: bool, python: bool)
    requires forall k :: 0 <= k < |items| ==> NulFree(items[k])
    ensures
      var r := RenderItems(name, items, guard, python);
      r.Ok? ==> NUL !in Join(r.value, ", ")
  {
    if items != [] {
      assert NulFree(items[0]);
      StringOfNulFree(items[0]);
      PyLiteralNulFree(items[0]);
      assert forall k :: 0 <= k < |items[1..]| ==> items[1..][k] == items[k + 1];
      ItemsNulFree(name, items[1..], guard, python);
      hide StringOf, PyLiteral, FirstUnsafe;
      var first, rest := RenderItem(name, items[0], guard, python), RenderItems(name, items[1..], guard, python);
      if first.Ok? && rest.Ok? {
        assert ([first.value] + rest.value)[1..] == rest.value;
      }
    }
  }

  lemma {:induction false} EvalNulFree(r: Reference, values: map<string, Value>, guard: bool, python: bool)
    requires NulFreeValues(values)
    ensures Eval(r, values, guard, python).Ok? ==> NUL !in Eval(r, values, guard, python).value
  {
    if r.key in values {
      var raw := values[r.key];
      assert NulFree(raw);
      StringOfNulFree(raw);
      PyLiteralNulFree(raw);
      if raw.List? {
        ItemsNulFree(r.key, raw.items, guard, python);
      }
      hide StringOf, PyLiteral, FirstUnsafe, RenderItems, Join, NulFree;
    }
  }

  // ---------------------------------------------------------------- what the passes keep

  /** No NUL in characters and bodies, and the bodies are those of the list. */
  predicate Sound(es: seq<Elem>, blocks: seq<string>) {
    forall e :: e in es ==> SoundElem(e, blocks)
  }

  predicate SoundElem(e: Elem, blocks: seq<string>) {
    match e
    case C(c) => c != NUL
    case Dollar => true
    case Block(k, text) => NUL !in text && k < |blocks| && blocks[k] == text
  }

  lemma {:induction false} TextIsSound(t: string)
    requires NUL !in t
    ensures Sound(Elements(t, 0, 0), Blocks(t, 0))
  {
    ElementsOfText(t, 0, 0);
    hide Elements, Blocks;
  }

  lemma {:induction false} SegmentsKeep(es: seq<Elem>, e: Elem)
    requires Keep(e) in Segments(es)
    ensures e in es
    decreases |es|
  {
    if es != [] {
      hide RefIn;
      match RefIn(es) {
        case Some(m) => SegmentsKeep(es[m.len..], e);
        case None =>
          if e != es[0] {
            assert Segments(es) == [Keep(es[0])] + Segments(es[1..]);
            SegmentsKeep(es[1..], e);
          }
      }
    }
  }

  lemma {:induction false} CharsSound(s: string, blocks: seq<string>)
    requires NUL !in s
    ensures Sound(Chars(s), blocks)
  {
    if s != "" {
      CharsSound(s[1..], blocks);
    }
  }

  lemma {:induction false} FillSound(
    segments: seq<Segment>, values: map<string, Value>, guard: bool, python: bool, blocks: seq<string>)
    requires NulFreeValues(values)
    requires forall s :: s in segments && s.Keep? ==> SoundElem(s.e, blocks)
    ensures
      var r := Fill(segments, values, guard, python);
      r.Ok? ==> Sound(r.value, blocks)
  {
    if segments != [] {
      FillSound(segments[1..], values, guard, python, blocks);
      hide Eval, SoundElem, NulFreeValues;
      match segments[0] {
        case Keep(e) => assert SoundElem(segments[0].e, blocks);
        case Ref(ref, _) =>
          EvalNulFree(ref, values, guard, python);
          if Eval(ref, values, guard, python).Ok? {
            CharsSound(Eval(ref, values, guard, python).value, blocks);
          }
      }
    }
  }

  // ---------------------------------------------------------------- back to dollars

  /** `es` starts with exactly the characters `w` and then an escaped dollar or a body. */
  predicate Spells(es: seq<Elem>, w: string) {
    es != [] && if w == "" then !es[0].C? else es[0] == C(w[0]) && Spells(es[1..], w[1..])
  }

  const SENTINEL_NAME := "EAI_DOLLAR"

  /** Somewhere a body is followed by exactly the name inside the sentinel and then by another encoded element. */
  predicate Collides(es: seq<Elem>) {
    es != [] && ((es[0].Block? && Spells(es[1..], SENTINEL_NAME)) || Collides(es[1..]))
  }

  lemma {:induction false} SpellsText(es: seq<Elem>, w: string)
    requires NUL !in w && forall e :: e in es && e.C? ==> e.c != NUL
    ensures w + [NUL] <= Written(es, Encoded) <==> Spells(es, w)
  {
    var s := Written(es, Encoded);
    if es == [] {
    } else {
      EncodedStarts(es[0]);
      WrittenFirst(es, Encoded);
      var a, b := Write(es[0], Encoded), Written(es[1..], Encoded);
      assert s[0] == a[0];
      if w == "" {
        assert es[0] in es;
        assert s[0] == NUL <==> !es[0].C?;
      } else {
        assert w[0] in w;
        SpellsText(es[1..], w[1..]);
        assert (w + [NUL])[0] == w[0] != NUL;
        if es[0] == C(w[0]) {
          assert s == [w[0]] + b && w + [NUL] == [w[0]] + (w[1..] + [NUL]);
          ConsPrefix(w[0], w[1..] + [NUL], b);
        }
      }
    }
  }

  lemma {:induction false} ConsPrefix(c: char, a: string, b: string)
    ensures [c] + a <= [c] + b <==> a <= b
  {
    assert [c] + a <= [c] + b ==> forall k :: 0 <= k < |a| ==> a[k] == ([c] + a)[k + 1] == ([c] + b)[k + 1] == b[k];
  }

  lemma {:induction false} SentinelAfterNul(r: string)
    ensures SENTINEL <= [NUL] + r <==> SENTINEL_NAME + [NUL] <= r
  {
    assert SENTINEL == [NUL] + (SENTINEL_NAME + [NUL]);
    ConsPrefix(NUL, SENTINEL_NAME + [NUL], r);
  }

  /** The first part of a mark, up to its last character. */
  function MarkHead(k: nat): string {
    "\0DQ" + Dec(k)
  }

  lemma {:induction false} DigitsNotNul(k: nat)
    ensures NUL !in Dec(k)
  {
    assert forall j :: 0 <= j < |Dec(k)| ==> IsDigit(Dec(k)[j]);
  }

  lemma {:induction false} HeadUnescaped(k: nat, r: string)
    ensures ReplaceAll(MarkHead(k) + r, SENTINEL, "$") == MarkHead(k) + ReplaceAll(r, SENTINEL, "$")
  {
    var body := "DQ" + Dec(k);
    DigitsNotNul(k);
    assert NUL !in body;
    assert MarkHead(k) == [NUL] + body;
    assert SENTINEL[0] == NUL && SENTINEL[1] == 'E';
    assert (body + r)[0] == 'D' && ([NUL] + (body + r))[1] == 'D';
    Assoc([NUL], body, r);
    Assoc([NUL], body, ReplaceAll(r, SENTINEL, "$"));
    hide ReplaceAll, Dec;
    FreeSplits(body, r, SENTINEL, "$");
    SingleStep(NUL, body + r, SENTINEL, "$");
  }

  lemma {:induction false} MarkIsHead(k: nat)
    ensures Mark(k) == MarkHead(k) + [NUL]
  {
  }

  /** A mark stays what it is unless its last character begins a sentinel. */
  lemma {:induction false} MarkUnescaped(k: nat, r: string)
    requires !(SENTINEL_NAME + [NUL] <= r)
    ensures ReplaceAll(Mark(k) + r, SENTINEL, "$") == Mark(k) + ReplaceAll(r, SENTINEL, "$")
  {
    MarkIsHead(k);
    hide ReplaceAll, Mark, MarkHead;
    Assoc(MarkHead(k), [NUL], r);
    Assoc(MarkHead(k), [NUL], ReplaceAll(r, SENTINEL, "$"));
    SentinelAfterNul(r);
    SingleStep(NUL, r, SENTINEL, "$");
    HeadUnescaped(k, [NUL] + r);
  }

  /** When it does, the mark loses its end. */
  lemma {:induction false} MarkSwallowed(k: nat, r: string)
    requires SENTINEL_NAME + [NUL] <= r
    ensures
      ReplaceAll(Mark(k) + r, SENTINEL, "$")
      == MarkHead(k) + ("$" + ReplaceAll(r[|SENTINEL_NAME| + 1..], SENTINEL, "$"))
  {
    MarkIsHead(k);
    hide ReplaceAll, Mark, MarkHead;
    var z := r[|SENTINEL_NAME| + 1..];
    assert r == SENTINEL_NAME + [NUL] + z;
    assert [NUL] + r == SENTINEL + z;
    Assoc(MarkHead(k), [NUL], r);
    PairStep(SENTINEL, z, "$");
    HeadUnescaped(k, [NUL] + r);
  }

  lemma {:induction false} CharUnescaped(c: char, r: string)
    requires c != NUL
    ensures ReplaceAll([c] + r, SENTINEL, "$") == [c] + ReplaceAll(r, SENTINEL, "$")
  {
    assert ([c] + r)[0] == c && SENTINEL[0] == NUL;
    hide ReplaceAll;
    SingleStep(c, r, SENTINEL, "$");
  }

  /** One element taken back from its encoded form. */
  lemma {:induction false} ElemUnescaped(e: Elem, r: string, blocks: seq<string>)
    requires SoundElem(e, blocks) && (e.Block? ==> !(SENTINEL_NAME + [NUL] <= r))
    ensures ReplaceAll(Write(e, Encoded) + r, SENTINEL, "$") == Write(e, Unescaped) + ReplaceAll(r, SENTINEL, "$")
  {
    hide ReplaceAll, Mark;
    match e
    case C(c) => CharUnescaped(c, r);
    case Dollar => PairStep(SENTINEL, r, "$");
    case Block(k, _) => MarkUnescaped(k, r);
  }

  lemma {:induction false} AllUnescaped(es: seq<Elem>, blocks: seq<string>)
    requires Sound(es, blocks) && !Collides(es)
    ensures ReplaceAll(Written(es, Encoded), SENTINEL, "$") == Written(es, Unescaped)
  {
    if es != [] {
      assert es[0] in es;
      hide ReplaceAll, Write, Written, SoundElem, Spells;
      WrittenFirst(es, Encoded);
      WrittenFirst(es, Unescaped);
      AllUnescaped(es[1..], blocks);
      CharsNotNul(es[1..], blocks);
      SpellsText(es[1..], SENTINEL_NAME);
      ElemUnescaped(es[0], Written(es[1..], Encoded), blocks);
    } else {
      assert Written(es, Encoded) == "" && Written(es, Unescaped) == "";
    }
  }

  lemma {:induction false} CharsNotNul(es: seq<Elem>, blocks: seq<string>)
    requires Sound(es, blocks)
    ensures forall e :: e in es && e.C? ==> e.c != NUL
  {
    forall e | e in es && e.C? ensures e.c != NUL {
      assert SoundElem(e, blocks);
    }
  }

  // ---------------------------------------------------------------- bodies back in place

  lemma {:induction false} DigitsEndIs(s: string, i: nat, e: nat)
    requires i <= e <= |s| && (forall k :: i <= k < e ==> IsDigit(s[k])) && (e < |s| ==> !IsDigit(s[e]))
    ensures DigitsEnd(s, i) == e
    decreases e - i
  {
    if i < e {
      DigitsEndIs(s, i + 1, e);
    }
  }

  lemma {:induction false} HeadDigits(k: nat, r: string)
    requires r != "" && !IsDigit(r[0])
    ensures
      var s := MarkHead(k) + r;
      && "\0DQ" <= s && 3 < |MarkHead(k)| < |s|
      && DigitsEnd(s, 3) == |MarkHead(k)| && s[3..|MarkHead(k)|] == Dec(k) && s[|MarkHead(k)|] == r[0]
  {
    var s, n := MarkHead(k) + r, |Dec(k)|;
    assert forall j :: 0 <= j < n ==> IsDigit(Dec(k)[j]) && s[3 + j] == Dec(k)[j];
    assert forall j :: 3 <= j < 3 + n ==> s[j] == Dec(k)[j - 3];
    assert s[3 + n] == r[0];
    hide Dec;
    DigitsEndIs(s, 3, 3 + n);
  }

  lemma {:induction false} MarkFound(k: nat, r: string)
    ensures MarkHere(Mark(k) + r) == Some((k, |Mark(k)|))
  {
    MarkIsHead(k);
    Assoc(MarkHead(k), [NUL], r);
    HeadDigits(k, [NUL] + r);
    ParseDecOfDec(k);
    hide Dec, ParseDec, DigitsEnd, Mark, MarkHead;
  }

  lemma {:induction false} MarkBroken(k: nat, z: string)
    ensures MarkHere(MarkHead(k) + ("$" + z)).None?
  {
    HeadDigits(k, "$" + z);
    hide Dec, ParseDec, DigitsEnd, MarkHead;
  }

  lemma {:induction false} RestoredChar(c: char, r: string, blocks: seq<string>)
    requires c != NUL
    ensures Restored([c] + r, blocks) == [c] + Restored(r, blocks)
  {
    assert ([c] + r)[1..] == r;
    assert ([c] + r)[0] == c;
    hide DigitsEnd, ParseDec;
  }

  lemma {:induction false} RestoredMark(k: nat, r: string, blocks: seq<string>)
    requires k < |blocks|
    ensures Restored(Mark(k) + r, blocks) == blocks[k] + Restored(r, blocks)
  {
    MarkFound(k, r);
    assert (Mark(k) + r)[|Mark(k)|..] == r;
    MarkShape(k);
    hide MarkHere, Mark;
  }

  lemma {:induction false} RestoredBroken(k: nat, z: string, blocks: seq<string>)
    ensures NUL in Restored(MarkHead(k) + ("$" + z), blocks)
  {
    var s := MarkHead(k) + ("$" + z);
    MarkBroken(k, z);
    assert s != "" && s[0] == NUL;
    hide MarkHere, MarkHead;
    assert Restored(s, blocks)[0] == NUL;
  }

  lemma {:induction false} ElemRestored(e: Elem, r: string, blocks: seq<string>)
    requires SoundElem(e, blocks)
    ensures Restored(Write(e, Unescaped) + r, blocks) == Write(e, Final) + Restored(r, blocks)
  {
    hide Restored, Mark;
    match e
    case C(c) => RestoredChar(c, r, blocks);
    case Dollar => RestoredChar('$', r, blocks);
    case Block(k, _) => RestoredMark(k, r, blocks);
  }

  lemma {:induction false} AllRestored(es: seq<Elem>, blocks: seq<string>)
    requires Sound(es, blocks)
    ensures Restored(Written(es, Unescaped), blocks) == Written(es, Final)
  {
    if es != [] {
      assert es[0] in es;
      hide Restored, Write, Written, SoundElem;
      WrittenFirst(es, Unescaped);
      WrittenFirst(es, Final);
      AllRestored(es[1..], blocks);
      ElemRestored(es[0], Written(es[1..], Unescaped), blocks);
    } else {
      assert Written(es, Unescaped) == "" && Written(es, Final) == "";
    }
  }

  lemma {:induction false} NoBlocksSame(es: seq<Elem>)
    requires Sound(es, [])
    ensures Written(es, Unescaped) == Written(es, Final)
  {
    if es != [] {
      assert SoundElem(es[0], []);
      NoBlocksSame(es[1..]);
    }
  }

  lemma {:induction false} FinalNulFree(es: seq<Elem>, blocks: seq<string>)
    requires Sound(es, blocks)
    ensures NUL !in Written(es, Final)
  {
    if es != [] {
      assert SoundElem(es[0], blocks);
      FinalNulFree(es[1..], blocks);
    }
  }

  /** After a collision a NUL character is left in the result. */
  lemma {:induction false} CollisionLeavesNul(es: seq<Elem>, blocks: seq<string>)
    requires Sound(es, blocks) && Collides(es)
    ensures NUL in Restored(ReplaceAll(Written(es, Encoded), SENTINEL, "$"), blocks)
  {
    var e, r := es[0], Written(es[1..], Encoded);
    assert e in es;
    CharsNotNul(es[1..], blocks);
    hide Restored, ReplaceAll, Write, Written, SoundElem, Spells, Mark, MarkHead;
    WrittenFirst(es, Encoded);
    SpellsText(es[1..], SENTINEL_NAME);
    if e.Block? && Spells(es[1..], SENTINEL_NAME) {
      BlockWritten(e);
      MarkSwallowed(e.index, r);
      RestoredBroken(e.index, ReplaceAll(r[|SENTINEL_NAME| + 1..], SENTINEL, "$"), blocks);
    } else {
      CollisionLeavesNul(es[1..], blocks);
      ElemUnescaped(e, r, blocks);
      ElemRestored(e, ReplaceAll(r, SENTINEL, "$"), blocks);
    }
  }

  lemma {:induction false} BlockWritten(e: Elem)
    requires e.Block?
    ensures Write(e, Encoded) == Mark(e.index)
  {
  }

  lemma {:induction false} CollisionNeedsBlock(es: seq<Elem>, blocks: seq<string>)
    requires Sound(es, blocks) && Collides(es)
    ensures blocks != []
  {
    assert SoundElem(es[0], blocks);
    if !es[0].Block? || !Spells(es[1..], SENTINEL_NAME) {
      CollisionNeedsBlock(es[1..], blocks);
    }
  }

  /** Unescaping and restoring give the final form exactly when no body swallows the sentinel behind it. */
  lemma {:induction false} RestoredExactly(es: seq<Elem>, blocks: seq<string>)
    requires Sound(es, blocks)
    ensures Restore(ReplaceAll(Written(es, Encoded), SENTINEL, "$"), blocks) == Written(es, Final) <==> !Collides(es)
  {
    hide Restored, ReplaceAll, Written, Sound;
    if Collides(es) {
      CollisionNeedsBlock(es, blocks);
      CollisionLeavesNul(es, blocks);
      FinalNulFree(es, blocks);
    } else {
      AllUnescaped(es, blocks);
      AllRestored(es, blocks);
      if blocks == [] {
        NoBlocksSame(es);
      }
    }
  }

  // ---------------------------------------------------------------- main result

  /** The meaning of a text under the values: its segments, filled in. */
  function Meaning(text: string, values: map<string, Value>, context: Option<string>): Result<seq<Elem>, Error> {
    Fill(Segments(Elements(text, 0, 0)), values, IsSqlContext(context), IsPythonContext(context))
  }

  function Kept(es: seq<Elem>): seq<Segment> {
    if es == [] then [] else [Keep(es[0])] + Kept(es[1..])
  }

  lemma {:induction false} SegmentsWithoutDollar(es: seq<Elem>)
    requires C('$') !in es
    ensures Segments(es) == Kept(es)
    decreases |es|
  {
    if es != [] {
      assert RefIn(es).None?;
      SegmentsWithoutDollar(es[1..]);
    }
  }

  lemma {:induction false} PlainWithoutDollar(s: string)
    requires '$' !in s
    ensures Plain(s) == Chars(s)
  {
    if s != "" {
      PlainWithoutDollar(s[1..]);
      assert s[0] in s;
    }
  }

  lemma {:induction false} CharsAre(s: string)
    ensures forall e :: e in Chars(s) ==> e.C? && e.c in s
  {
    if s != "" {
      CharsAre(s[1..]);
    }
  }

  lemma {:induction false} FillKept(es: seq<Elem>, values: map<string, Value>, guard: bool, python: bool)
    ensures Fill(Kept(es), values, guard, python) == Ok(es)
  {
    if es != [] {
      FillKept(es[1..], values, guard, python);
      assert Kept(es)[1..] == Kept(es[1..]);
      assert es == [es[0]] + es[1..];
    }
  }

  lemma {:induction false} NoBlockNoCollision(es: seq<Elem>)
    requires forall e :: e in es ==> !e.Block?
    ensures !Collides(es)
  {
    if es != [] {
      assert es[0] in es;
      NoBlockNoCollision(es[1..]);
    }
  }

  lemma {:induction false} NoDollarMeaning(text: string, values: map<string, Value>, context: Option<string>)
    requires '$' !in text
    ensures Meaning(text, values, context).Ok?
    ensures var es := Meaning(text, values, context).value; Written(es, Final) == text && !Collides(es)
  {
    NoDollarNoDelimiter(text, 0);
    assert text[0..] == text && Elements(text, 0, 0) == Plain(text);
    hide Elements, Fill, Segments, Collides, Written;
    PlainWithoutDollar(text);
    CharsAre(text);
    CharsWritten(text, Final);
    SegmentsWithoutDollar(Chars(text));
    FillKept(Chars(text), values, IsSqlContext(context), IsPythonContext(context));
    NoBlockNoCollision(Chars(text));
  }

  /**
   * `substitute` fails exactly where the meaning of the text fails, with the same error, and otherwise returns the
   * meaning written out, exactly when no quoted body is followed by the name in the sentinel and another encoded element.
   */
  lemma {:induction false} SubstituteIsMeaning(text: string, values: map<string, Value>, context: Option<string>)
    requires NUL !in text && NulFreeValues(values)
    ensures
      match Meaning(text, values, context)
      case Err(e) => Substitute(text, values, context) == Err(e)
      case Ok(es) =>
        && Substitute(text, values, context).Ok?
        && (Substitute(text, values, context).value == Written(es, Final) <==> !Collides(es))
  {
    var es, blocks := Elements(text, 0, 0), Blocks(text, 0);
    var guard, python := IsSqlContext(context), IsPythonContext(context);
    hide Elements, Blocks, Segments, Fill, Collides, Written, Replaced, ReplaceAll, Restore, Prepared, IsSqlContext, IsPythonContext;
    if '$' !in text {
      NoDollarMeaning(text, values, context);
    } else {
      TextIsSound(text);
      PreparedIsEncoded(text);
      ReplacedEncoded(es, values, guard, python);
      MeaningIsSound(es, values, guard, python, blocks);
      if Meaning(text, values, context).Ok? {
        RestoredExactly(Meaning(text, values, context).value, blocks);
      }
    }
  }

  lemma {:induction false} MeaningIsSound(es: seq<Elem>, values: map<string, Value>, guard: bool, python: bool, blocks: seq<string>)
    requires Sound(es, blocks) && NulFreeValues(values)
    ensures
      var r := Fill(Segments(es), values, guard, python);
      r.Ok? ==> Sound(r.value, blocks)
  {
    hide Segments, Fill, SoundElem;
    forall s | s in Segments(es) && s.Keep? ensures SoundElem(s.e, blocks) {
      SegmentsKeep(es, s.e);
    }
    FillSound(Segments(es), values, guard, python, blocks);
  }

  // ---------------------------------------------------------------- a text with a collision

  lemma {:induction false} NoDelimiterBehind(t: string, i: nat)
    requires forall p: nat :: i <= p ==> DelimiterEnd(t, p).None?
    ensures NextDelimiter(t, i).None?
    decreases |t| - i
  {
    if i < |t| {
      NoDelimiterBehind(t, i + 1);
    }
  }

  lemma {:induction false} SpellsChars(w: string, rest: seq<Elem>)
    requires rest != [] && !rest[0].C?
    ensures Spells(Chars(w) + rest, w)
  {
    if w != "" {
      SpellsChars(w[1..], rest);
      assert (Chars(w) + rest)[1..] == Chars(w[1..]) + rest;
    } else {
      assert Chars(w) + rest == rest;
    }
  }

  lemma {:induction false} PlainStep(c: char, r: string)
    requires c != '$'
    ensures Plain([c] + r) == [C(c)] + Plain(r)
  {
    assert ([c] + r)[1..] == r && ([c] + r)[0] == c;
  }

  lemma {:induction false} PlainOfChars(a: string, b: string)
    requires '$' !in a
    ensures Plain(a + b) == Chars(a) + Plain(b)
  {
    if a == "" {
      assert a + b == b && Chars(a) + Plain(b) == Plain(b);
    } else {
      assert a[0] in a;
      hide Plain;
      PlainOfChars(a[1..], b);
      assert a == [a[0]] + a[1..];
      Assoc([a[0]], a[1..], b);
      PlainStep(a[0], a[1..] + b);
      Assoc([C(a[0])], Chars(a[1..]), Plain(b));
    }
  }

  const BODY := "$a$x$a$"
  const COLLIDING := BODY + (SENTINEL_NAME + "$$")

  lemma {:induction false} CollidingBlocks()
    ensures NextBlock(COLLIDING, 0) == Some(Span(0, 7)) && NextBlock(COLLIDING, 7) == None
  {
    var t := COLLIDING;
    assert forall p: nat :: 7 <= p < 17 ==> t[p] == SENTINEL_NAME[p - 7] != '$';
    forall p: nat | 7 <= p ensures DelimiterEnd(t, p).None? {
    }
    assert DelimiterEnd(t, 0) == Some(3);
    assert t[0..3] == "$a$" && t[4..7] == "$a$" && t[3] == 'x';
    assert At(t, "$a$", 4);
    assert t[3..6][0] == 'x';
    hide IndexOf, DelimiterEnd;
    NoDelimiterBehind(t, 7);
    IndexOfIs(t, "$a$", 3, 4);
  }

  lemma {:induction false} CollidingElements()
    ensures Elements(COLLIDING, 0, 0) == [Block(0, BODY)] + (Chars(SENTINEL_NAME) + [Dollar])
  {
    var t := COLLIDING;
    CollidingBlocks();
    hide NextBlock, Chars;
    assert t[7..] == SENTINEL_NAME + "$$" && t[0..7] == BODY && t[0..0] == "";
    PlainOfChars(SENTINEL_NAME, "$$");
    PairAlone();
  }

  lemma {:induction false} PairAlone()
    ensures Plain("$$") == [Dollar]
  {
    assert "$$"[2..] == "";
  }

  function Swallowed(name: string): seq<Elem> {
    [Block(0, BODY)] + (Chars(name) + [Dollar])
  }

  lemma {:induction false} SwallowedCollides()
    ensures Collides(Swallowed(SENTINEL_NAME))
  {
    SpellsChars(SENTINEL_NAME, [Dollar]);
    var es := Swallowed(SENTINEL_NAME);
    hide Spells, Chars;
    assert es[0].Block? && es[1..] == Chars(SENTINEL_NAME) + [Dollar];
  }

  lemma {:induction false} SwallowedWritten(name: string)
    ensures Written(Swallowed(name), Final) == BODY + (name + "$")
  {
    hide Written, Chars;
    WrittenOne(Block(0, BODY), Chars(name) + [Dollar], Final);
    WrittenAppend(Chars(name), [Dollar], Final);
    CharsWritten(name, Final);
    WrittenOne(Dollar, [], Final);
  }

  lemma {:induction false} SwallowedFilled(name: string, values: map<string, Value>, guard: bool, python: bool)
    requires '$' !in name
    ensures Fill(Segments(Swallowed(name)), values, guard, python) == Ok(Swallowed(name))
  {
    CharsAre(name);
    hide Chars, Segments, Fill;
    assert C('$') !in Swallowed(name);
    SegmentsWithoutDollar(Swallowed(name));
    FillKept(Swallowed(name), values, guard, python);
  }

  lemma {:induction false} CollidingMeaning(values: map<string, Value>, context: Option<string>)
    ensures
      var es := Swallowed(SENTINEL_NAME);
      && Meaning(COLLIDING, values, context) == Ok(es) && Collides(es)
      && Written(es, Final) == BODY + (SENTINEL_NAME + "$")
  {
    assert '$' !in SENTINEL_NAME;
    hide Elements, Segments, Fill, Chars, Written, Collides, Spells;
    CollidingElements();
    SwallowedCollides();
    SwallowedWritten(SENTINEL_NAME);
    SwallowedFilled(SENTINEL_NAME, values, IsSqlContext(context), IsPythonContext(context));
  }

  /** The dollar behind the body is taken for a sentinel that was never written: the result is not the meaning. */
  lemma {:induction false} CollisionExample(values: map<string, Value>, context: Option<string>)
    requires NulFreeValues(values)
    ensures
      var r := Substitute(COLLIDING, values, context);
      r.Ok? && r.value != BODY + (SENTINEL_NAME + "$")
    ensures
      var m := Meaning(COLLIDING, values, context);
      m.Ok? && Written(m.value, Final) == BODY + (SENTINEL_NAME + "$")
  {
    assert forall k :: 0 <= k < |COLLIDING| ==> COLLIDING[k] != NUL;
    assert NUL !in COLLIDING;
    hide *;
    CollidingMeaning(values, context);
    SubstituteIsMeaning(COLLIDING, values, context);
  }
}
