/** What takes the place of a reference, value by value. */
module SubstitutionValues {
  import opened Text
  import opened SqlValues
  import L = SqlValuesLaws
  import opened NameCompare
  import opened Substitution
  import opened SubstitutionLaws
  import opened SubstitutionMeaning
  import opened SubstitutionKeys
  import opened TemplateMeaning
  import opened ReferenceMeaning

  // ---------------------------------------------------------------- where a text goes to

  datatype Place = AnyText | SqlText | PythonText

  /** The parameter is one of those that are put together to SQL or Python, whatever the case of its letters. */
  predicate GoesTo(context: Option<string>, place: Place) {
    var sql := context.Some? &&
      (SameLetters(context.value, "query") || SameLetters(context.value, "where")
       || SameLetters(context.value, "filter") || SameLetters(context.value, "sql"));
    var python := context.Some? && SameLetters(context.value, "code");
    match place
    case AnyText => !sql && !python
    case SqlText => sql
    case PythonText => python
  }

  lemma {:induction false} LowerWords()
    ensures LowerAll("query") == "query" && LowerAll("where") == "where" && LowerAll("filter") == "filter"
    ensures LowerAll("sql") == "sql" && LowerAll("code") == "code"
  {
    hide LowerAll;
    LowerWord("query");
    LowerWord("where");
    LowerWord("filter");
    LowerWord("sql");
    LowerWord("code");
  }

  lemma {:induction false} LowerWord(s: string)
    requires forall k :: 0 <= k < |s| ==> 'a' <= s[k] <= 'z'
    ensures LowerAll(s) == s
  {
    forall k | 0 <= k < |s| ensures LowerAll(s)[k] == s[k] {
      LowerAt(s, k);
    }
  }

  lemma {:induction false} ContextMeans(context: Option<string>, place: Place)
    ensures GoesTo(context, place) <==> IsSqlContext(context) == place.SqlText? && IsPythonContext(context) == place.PythonText?
  {
    LowerWords();
    if context.Some? {
      LowerSame(context.value, "query");
      LowerSame(context.value, "where");
      LowerSame(context.value, "filter");
      LowerSame(context.value, "sql");
      LowerSame(context.value, "code");
    }
    hide SameLetters, LowerAll;
  }

  // ---------------------------------------------------------------- what a value looks like

  /** A value in plain text or SQL. */
  ghost predicate Shows(v: Value, s: string)
    decreases v, 0
  {
    match v
    case Undefined => s == "null"
    case Null => s == "null"
    case Bool(b) => s == if b then "true" else "false"
    case Num(text) => s == text
    case Str(text) => s == text
    case List(items) => ShowsItems(items, s)
  }

  /** The items of a list with commas between them; one that is missing shows nothing. */
  ghost predicate ShowsItems(items: seq<Value>, s: string)
    decreases items, 0
  {
    if items == [] then s == ""
    else exists first, rest :: ShowsItem(items[0], first) && ShowsRest(items[1..], rest) && s == first + rest
  }

  ghost predicate ShowsItem(v: Value, s: string)
    decreases v, 1
  {
    if v.Null? || v.Undefined? then s == "" else Shows(v, s)
  }

  ghost predicate ShowsRest(items: seq<Value>, s: string)
    decreases items, 1
  {
    if items == [] then s == "" else exists rest :: ShowsItems(items, rest) && s == "," + rest
  }

  /** A value as a Python literal. */
  ghost predicate ShowsPython(v: Value, s: string) {
    match v
    case Undefined => s == "None"
    case Null => s == "None"
    case Bool(b) => s == if b then "True" else "False"
    case Num(text) => s == text
    case _ => exists text :: Shows(v, text) && PyDecode(s) == Some(text) && L.Printable(s)
  }

  lemma {:induction false} StringMeans(v: Value, s: string)
    requires !v.Null? && !v.Undefined?
    ensures Shows(v, s) <==> s == StringOf(v)
    decreases v, 1
  {
    if v.List? {
      ItemsMean(v.items, s);
    }
  }

  lemma {:induction false} ItemsMean(items: seq<Value>, s: string)
    ensures ShowsItems(items, s) <==> s == CommaJoin(items)
    decreases items, 0
  {
    if items != [] {
      var first, rest := FirstText(items[0]), RestText(items[1..]);
      forall x ensures ShowsItem(items[0], x) <==> x == first {
        ItemMeans(items[0], x);
      }
      forall x ensures ShowsRest(items[1..], x) <==> x == rest {
        RestMeans(items[1..], x);
      }
      CommaParts(items);
      hide ShowsItem, ShowsRest, CommaJoin, FirstText, RestText;
    }
  }

  function FirstText(v: Value): string {
    if v.Undefined? || v.Null? then "" else StringOf(v)
  }

  function RestText(items: seq<Value>): string {
    if items == [] then "" else "," + CommaJoin(items)
  }

  lemma {:induction false} CommaParts(items: seq<Value>)
    requires items != []
    ensures CommaJoin(items) == FirstText(items[0]) + RestText(items[1..])
  {
    hide StringOf;
    Assoc(FirstText(items[0]), ",", CommaJoin(items[1..]));
  }

  lemma {:induction false} ItemMeans(v: Value, s: string)
    ensures ShowsItem(v, s) <==> s == FirstText(v)
    decreases v, 2
  {
    if !v.Null? && !v.Undefined? {
      StringMeans(v, s);
    }
  }

  lemma {:induction false} RestMeans(items: seq<Value>, s: string)
    ensures ShowsRest(items, s) <==> s == RestText(items)
    decreases items, 1
  {
    if items != [] {
      forall x ensures ShowsItems(items, x) <==> x == CommaJoin(items) {
        ItemsMean(items, x);
      }
      hide ShowsItems, CommaJoin;
    }
  }

  /** Printing a value gives the one text that shows it. */
  lemma {:induction false} RenderMeans(v: Value, s: string)
    ensures Shows(v, s) <==> s == Render(v)
  {
    if !v.Null? && !v.Undefined? {
      StringMeans(v, s);
    }
  }

  lemma {:induction false} PyLiteralMeans(v: Value)
    ensures ShowsPython(v, PyLiteral(v))
  {
    if v.Str? || v.List? {
      StringMeans(v, StringOf(v));
      L.PyStringRoundTrip(StringOf(v));
      hide Shows, PyDecode, StringOf, L.Printable, PyString;
    }
  }

  // ---------------------------------------------------------------- what is put in

  /** A single value: as it shows, in SQL only if harmless; in Python a literal, unless it is text already. */
  ghost predicate Puts(v: Value, place: Place, s: string) {
    match place
    case AnyText => Shows(v, s)
    case SqlText => Shows(v, s) && Harmless(s)
    case PythonText => if v.Str? then s == v.text else ShowsPython(v, s)
  }

  /** One of several values; in SQL everything but null, truth values and numbers gets quotes. */
  ghost predicate PutsItem(v: Value, place: Place, s: string) {
    match place
    case AnyText => Shows(v, s)
    case SqlText =>
      exists shown :: Shows(v, shown) && Harmless(shown) && s == if v.Null? || v.Bool? || v.Num? then shown else "'" + shown + "'"
    case PythonText => ShowsPython(v, s)
  }

  ghost predicate PutsList(v: Value, place: Place, s: string) {
    v.List? && v.items != [] && exists parts :: PutsItems(v.items, place, parts) && s == Join(parts, ", ")
  }

  ghost predicate PutsItems(items: seq<Value>, place: Place, parts: seq<string>) {
    |parts| == |items| && forall k :: 0 <= k < |items| ==> PutsItem(items[k], place, parts[k])
  }

  predicate Missing(r: Reference, values: map<string, Value>) {
    r.key !in values || values[r.key].Undefined?
  }

  /** `s` takes the place of the reference. */
  ghost predicate PutsFor(r: Reference, values: map<string, Value>, place: Place, s: string) {
    && !Missing(r, values)
    && if r.node && r.many then PutsList(values[r.key], place, s) else Puts(values[r.key], place, s)
  }

  /** A value that shows a character or a pair the guard refuses. */
  ghost predicate Harmful(v: Value) {
    exists shown :: Shows(v, shown) && !Harmless(shown)
  }

  /** The reference cannot be filled in, for the reason the error gives. */
  ghost predicate Refused(r: Reference, values: map<string, Value>, place: Place, e: Error) {
    if Missing(r, values) then e == if r.node then NoNodeValue(r.key) else NoVarValue(r.key)
    else
      var v := values[r.key];
      if r.node && r.many then
        if !v.List? then e == MustBeList(r.key)
        else if v.items == [] then e == EmptyList(r.key)
        else place.SqlText? && About(e, r.key) && SomeHarmful(v.items)
      else place.SqlText? && About(e, r.key) && Harmful(v)
  }

  /** The guard on a value that is shown. */
  lemma {:induction false} GuardMeans(name: string, v: Value)
    ensures
      var r := FirstUnsafe(name, Render(v), 0);
      && (r.None? <==> Harmless(Render(v))) && (r.Some? <==> Harmful(v)) && (r.Some? ==> About(r.value, name))
  {
    GuardIsSqlSafe(name, Render(v), 0);
    SafeIsHarmless(Render(v));
    hide Shows, Harmless, SqlSafe, FirstUnsafe, Render;
    forall s ensures Shows(v, s) <==> s == Render(v) {
      RenderMeans(v, s);
    }
  }

  lemma {:induction false} ItemPut(name: string, v: Value, place: Place)
    ensures
      match RenderItem(name, v, place.SqlText?, place.PythonText?)
      case Ok(s) => PutsItem(v, place, s)
      case Err(e) => place.SqlText? && About(e, name) && Harmful(v)
  {
    RenderMeans(v, Render(v));
    GuardMeans(name, v);
    PyLiteralMeans(v);
    hide Shows, Harmless, FirstUnsafe, Render, PyLiteral, Harmful, ShowsPython;
  }

  ghost predicate SomeHarmful(items: seq<Value>) {
    exists k :: 0 <= k < |items| && Harmful(items[k])
  }

  lemma {:induction false} HarmfulCons(items: seq<Value>)
    requires items != [] && (Harmful(items[0]) || SomeHarmful(items[1..]))
    ensures SomeHarmful(items)
  {
    hide Harmful;
    if !Harmful(items[0]) {
      var k :| 0 <= k < |items[1..]| && Harmful(items[1..][k]);
      assert Harmful(items[k + 1]);
    }
  }

  lemma {:induction false} PutsCons(items: seq<Value>, place: Place, s: string, parts: seq<string>)
    requires items != [] && PutsItem(items[0], place, s) && PutsItems(items[1..], place, parts)
    ensures PutsItems(items, place, [s] + parts)
  {
    hide PutsItem;
    forall k | 0 <= k < |items| ensures PutsItem(items[k], place, ([s] + parts)[k]) {
      if k > 0 {
        assert items[k] == items[1..][k - 1];
      }
    }
  }

  lemma {:induction false} ItemsStep(name: string, items: seq<Value>, guard: bool, python: bool)
    requires items != []
    ensures
      var first, rest := RenderItem(name, items[0], guard, python), RenderItems(name, items[1..], guard, python);
      RenderItems(name, items, guard, python)
      == if first.Err? then first.PropagateFailure() else if rest.Err? then rest else Ok([first.value] + rest.value)
  {
    hide RenderItem;
  }

  lemma {:induction false} ItemsPut(name: string, items: seq<Value>, place: Place)
    ensures
      match RenderItems(name, items, place.SqlText?, place.PythonText?)
      case Ok(parts) => PutsItems(items, place, parts)
      case Err(e) => place.SqlText? && About(e, name) && SomeHarmful(items)
  {
    if items != [] {
      hide *;
      ItemsStep(name, items, place.SqlText?, place.PythonText?);
      ItemPut(name, items[0], place);
      ItemsPut(name, items[1..], place);
      var first := RenderItem(name, items[0], place.SqlText?, place.PythonText?);
      var rest := RenderItems(name, items[1..], place.SqlText?, place.PythonText?);
      if first.Ok? && rest.Ok? {
        PutsCons(items, place, first.value, rest.value);
      } else {
        HarmfulCons(items);
      }
    }
  }

  lemma {:induction false} ListPut(name: string, v: Value, place: Place)
    ensures
      match RenderList(name, v, place.SqlText?, place.PythonText?)
      case Ok(s) => PutsList(v, place, s)
      case Err(e) =>
        if !v.List? then e == MustBeList(name)
        else if v.items == [] then e == EmptyList(name)
        else place.SqlText? && About(e, name) && SomeHarmful(v.items)
  {
    if v.List? {
      ItemsPut(name, v.items, place);
    }
    hide RenderItems, PutsItems, SomeHarmful, Join, About;
  }

  lemma {:induction false} ValuePut(r: Reference, values: map<string, Value>, place: Place)
    requires !Missing(r, values) && !(r.node && r.many)
    ensures
      match Eval(r, values, place.SqlText?, place.PythonText?)
      case Ok(s) => Puts(values[r.key], place, s)
      case Err(e) => place.SqlText? && About(e, r.key) && Harmful(values[r.key])
  {
    var v := values[r.key];
    RenderMeans(v, Render(v));
    GuardMeans(r.key, v);
    PyLiteralMeans(v);
    if v.Str? {
      StringMeans(v, v.text);
    }
    hide Shows, Harmless, FirstUnsafe, PyLiteral, Harmful, ShowsPython, StringOf, RenderList;
  }

  /** What the pass makes of one reference. */
  lemma {:induction false} EvalMeans(r: Reference, values: map<string, Value>, place: Place)
    ensures
      match Eval(r, values, place.SqlText?, place.PythonText?)
      case Ok(s) => PutsFor(r, values, place, s)
      case Err(e) => Refused(r, values, place, e)
  {
    if !Missing(r, values) {
      if r.node && r.many {
        ListPut(r.key, values[r.key], place);
      } else {
        ValuePut(r, values, place);
        hide Eval;
      }
    }
    hide RenderList, PutsList, Puts, Harmful, SomeHarmful, FirstUnsafe, PyLiteral, Render, About;
  }

  lemma {:induction false} HarmfulMeans(v: Value, shown: string)
    requires Shows(v, shown)
    ensures Harmful(v) <==> !Harmless(shown)
  {
    forall s ensures Shows(v, s) <==> s == Render(v) {
      RenderMeans(v, s);
    }
    hide Shows, Harmless, Render;
  }

  lemma {:induction false} ItemNotHarmful(v: Value, s: string)
    requires PutsItem(v, SqlText, s)
    ensures !Harmful(v)
  {
    var shown :| Shows(v, shown) && Harmless(shown);
    hide Shows, Harmless;
    HarmfulMeans(v, shown);
  }

  lemma {:induction false} ListNotHarmful(v: Value, s: string)
    requires PutsList(v, SqlText, s)
    ensures !SomeHarmful(v.items)
  {
    var parts :| PutsItems(v.items, SqlText, parts);
    hide PutsItem, Harmful;
    forall k | 0 <= k < |v.items| ensures !Harmful(v.items[k]) {
      ItemNotHarmful(v.items[k], parts[k]);
    }
  }

  /** A reference that can be filled in is not refused. */
  lemma {:induction false} NotBoth(r: Reference, values: map<string, Value>, place: Place, s: string, e: Error)
    requires PutsFor(r, values, place, s)
    ensures !Refused(r, values, place, e)
  {
    if place.SqlText? {
      if r.node && r.many {
        ListNotHarmful(values[r.key], s);
      } else {
        HarmfulMeans(values[r.key], s);
      }
    }
    hide Shows, ShowsPython, Harmless, Harmful, SomeHarmful, PutsItems, About;
  }

  // ---------------------------------------------------------------- the text as a whole

  /** What each segment of a text turns into. */
  ghost predicate Fills(segments: seq<Segment>, values: map<string, Value>, place: Place, parts: seq<string>) {
    |parts| == |segments| && forall k :: 0 <= k < |segments| ==> FillsOne(segments[k], values, place, parts[k])
  }

  ghost predicate FillsOne(x: Segment, values: map<string, Value>, place: Place, s: string) {
    match x
    case Keep(C(c)) => s == [c]
    case Keep(Dollar) => s == "$"
    case Keep(Block(_, text)) => s == text
    case Ref(r, _) => PutsFor(r, values, place, s)
  }

  ghost predicate CanFill(x: Segment, values: map<string, Value>, place: Place) {
    exists s :: FillsOne(x, values, place, s)
  }

  /** The reference that stops the pass: those before it can be filled in. */
  ghost predicate FailsAt(segments: seq<Segment>, values: map<string, Value>, place: Place, e: Error, k: nat) {
    && k < |segments| && segments[k].Ref? && Refused(segments[k].ref, values, place, e)
    && forall j :: 0 <= j < k ==> CanFill(segments[j], values, place)
  }

  ghost predicate Fails(segments: seq<Segment>, values: map<string, Value>, place: Place, e: Error) {
    exists k: nat :: FailsAt(segments, values, place, e, k)
  }

  function Glued(parts: seq<string>): string {
    if parts == [] then "" else parts[0] + Glued(parts[1..])
  }

  lemma {:induction false} FillsCons(x: Segment, segments: seq<Segment>, values: map<string, Value>, place: Place, s: string, parts: seq<string>)
    requires FillsOne(x, values, place, s) && Fills(segments, values, place, parts)
    ensures Fills([x] + segments, values, place, [s] + parts) && Glued([s] + parts) == s + Glued(parts)
  {
    hide FillsOne;
    assert ([s] + parts)[1..] == parts;
  }

  lemma {:induction false} FailsCons(x: Segment, segments: seq<Segment>, values: map<string, Value>, place: Place, e: Error)
    requires CanFill(x, values, place) && Fails(segments, values, place, e)
    ensures Fails([x] + segments, values, place, e)
  {
    hide CanFill, Refused;
    var k: nat :| FailsAt(segments, values, place, e, k);
    var all := [x] + segments;
    forall j | 0 <= j < k + 1 ensures CanFill(all[j], values, place) {
      assert j > 0 ==> all[j] == segments[j - 1];
    }
    assert FailsAt(all, values, place, e, k + 1);
  }

  lemma {:induction false} FailsFirst(r: Reference, source: seq<Elem>, segments: seq<Segment>, values: map<string, Value>, place: Place, e: Error)
    requires Refused(r, values, place, e)
    ensures Fails([Ref(r, source)] + segments, values, place, e)
  {
    hide Refused;
    assert FailsAt([Ref(r, source)] + segments, values, place, e, 0);
  }

  lemma {:induction false} FillKeep(e: Elem, segments: seq<Segment>, values: map<string, Value>, guard: bool, python: bool)
    ensures
      var rest := Fill(segments, values, guard, python);
      Fill([Keep(e)] + segments, values, guard, python) == if rest.Ok? then Ok([e] + rest.value) else rest
  {
    assert ([Keep(e)] + segments)[1..] == segments;
  }

  lemma {:induction false} FillRef(r: Reference, source: seq<Elem>, segments: seq<Segment>, values: map<string, Value>, guard: bool, python: bool)
    ensures
      var v, rest := Eval(r, values, guard, python), Fill(segments, values, guard, python);
      Fill([Ref(r, source)] + segments, values, guard, python)
      == if v.Err? then Err(v.error) else if rest.Ok? then Ok(Chars(v.value) + rest.value) else rest
  {
    assert ([Ref(r, source)] + segments)[1..] == segments;
    hide Eval;
  }

  /** What the one pass makes of the segments. */
  ghost predicate FillIs(segments: seq<Segment>, values: map<string, Value>, place: Place, r: Result<seq<Elem>, Error>) {
    match r
    case Ok(es) => exists parts :: Fills(segments, values, place, parts) && Written(es, Final) == Glued(parts)
    case Err(e) => Fails(segments, values, place, e)
  }

  lemma {:induction false} FillIsStep(
    x: Segment, segments: seq<Segment>, values: map<string, Value>, place: Place, s: string, added: seq<Elem>,
    r: Result<seq<Elem>, Error>)
    requires FillsOne(x, values, place, s) && FillIs(segments, values, place, r) && Written(added, Final) == s
    ensures FillIs([x] + segments, values, place, if r.Ok? then Ok(added + r.value) else r)
  {
    hide FillsOne, Fills, Fails, Written, Glued;
    if r.Ok? {
      var parts :| Fills(segments, values, place, parts) && Written(r.value, Final) == Glued(parts);
      FillsCons(x, segments, values, place, s, parts);
      WrittenAppend(added, r.value, Final);
    } else {
      FailsCons(x, segments, values, place, r.error);
    }
  }

  lemma {:induction false} FillMeans(segments: seq<Segment>, values: map<string, Value>, place: Place)
    ensures FillIs(segments, values, place, Fill(segments, values, place.SqlText?, place.PythonText?))
  {
    if segments == [] {
      assert Fills([], values, place, []);
    } else {
      var x, rest := segments[0], segments[1..];
      assert segments == [x] + rest;
      FillMeans(rest, values, place);
      hide FillIs, Fill, Eval, Fails, PutsFor, Refused, Written, Write, Chars;
      match x {
        case Keep(e) =>
          FillKeep(e, rest, values, place.SqlText?, place.PythonText?);
          WrittenSingle(e);
          FillIsStep(x, rest, values, place, Write(e, Final), [e], Fill(rest, values, place.SqlText?, place.PythonText?));
        case Ref(r, source) =>
          FillRef(r, source, rest, values, place.SqlText?, place.PythonText?);
          EvalMeans(r, values, place);
          var v := Eval(r, values, place.SqlText?, place.PythonText?);
          if v.Ok? {
            CharsWritten(v.value, Final);
            FillIsStep(x, rest, values, place, v.value, Chars(v.value), Fill(rest, values, place.SqlText?, place.PythonText?));
          } else {
            FailsFirst(r, source, rest, values, place, v.error);
            FillIsErr([x] + rest, values, place, v.error);
          }
      }
    }
  }

  lemma {:induction false} FillIsErr(segments: seq<Segment>, values: map<string, Value>, place: Place, e: Error)
    requires Fails(segments, values, place, e)
    ensures FillIs(segments, values, place, Err(e))
  {
  }

  lemma {:induction false} WrittenSingle(e: Elem)
    ensures Written([e], Final) == Write(e, Final)
  {
  }

  function Parts(text: string): seq<Segment> {
    Segments(Elements(text, 0, 0))
  }

  /**
   * `substitute` fails with the error of the first reference that cannot be filled in. Otherwise every reference is
   * filled in, and the text is put together from what is kept and what is put in, exactly when no quoted body is followed
   * by the name in the sentinel and another encoded element.
   */
  lemma {:induction false} SubstituteMeans(text: string, values: map<string, Value>, context: Option<string>, place: Place)
    requires GoesTo(context, place)
    ensures
      match Substitute(text, values, context)
      case Err(e) => Fails(Parts(text), values, place, e)
      case Ok(out) =>
        && Meaning(text, values, context).Ok?
        && exists parts ::
             && Fills(Parts(text), values, place, parts)
             && (NUL !in text && NulFreeValues(values) ==>
                   (out == Glued(parts) <==> !Collides(Meaning(text, values, context).value)))
  {
    ContextMeans(context, place);
    FillMeans(Parts(text), values, place);
    hide Elements, Segments, Fill, Collides, Written, Fails, Fills, Substitute, GoesTo, Glued, NulFreeValues, IsSqlContext, IsPythonContext;
    SubstituteFails(text, values, context);
    if NUL !in text && NulFreeValues(values) {
      SubstituteIsMeaning(text, values, context);
    }
  }

  /** Substitution fails with the meaning, whatever the text and the values hold. */
  lemma {:induction false} SubstituteFails(text: string, values: map<string, Value>, context: Option<string>)
    ensures Substitute(text, values, context).Ok? <==> Meaning(text, values, context).Ok?
    ensures Substitute(text, values, context).Err? ==> Substitute(text, values, context).error == Meaning(text, values, context).error
  {
    var es := Elements(text, 0, 0);
    hide Elements, Blocks, Segments, Fill, Written, Replaced, ReplaceAll, Restore, Prepared, IsSqlContext, IsPythonContext;
    if '$' !in text {
      NoDollarMeaning(text, values, context);
    } else {
      PreparedIsEncoded(text);
      ReplacedEncoded(es, values, IsSqlContext(context), IsPythonContext(context));
    }
  }

  lemma {:induction false} FilledRef(segments: seq<Segment>, values: map<string, Value>, place: Place, parts: seq<string>, r: Reference)
    requires Fills(segments, values, place, parts) && r in RefsIn(segments)
    ensures exists s :: PutsFor(r, values, place, s)
  {
    hide PutsFor;
    if segments[0].Ref? && segments[0].ref == r {
      assert FillsOne(segments[0], values, place, parts[0]);
    } else {
      var rest := segments[1..];
      forall k | 0 <= k < |rest| ensures FillsOne(rest[k], values, place, parts[1..][k]) {
        assert rest[k] == segments[k + 1];
      }
      FilledRef(rest, values, place, parts[1..], r);
    }
  }

  /** Where substitution succeeds, every reference of the text has been filled in. */
  lemma {:induction false} EveryRefFilled(text: string, values: map<string, Value>, context: Option<string>, place: Place, r: Reference)
    requires GoesTo(context, place) && Substitute(text, values, context).Ok? && r in RefsIn(Parts(text))
    ensures exists s :: PutsFor(r, values, place, s)
  {
    hide *;
    SubstituteMeans(text, values, context, place);
    var parts :| Fills(Parts(text), values, place, parts);
    FilledRef(Parts(text), values, place, parts, r);
  }

  lemma {:induction false} NodeRefListed(s: string, n: NodeRef)
    requires n in NodeRefs(s)
    ensures Reference(NodeRefKey(n), true, n.many) in References(s)
    decreases |s|
  {
    NeverBoth(s);
    MatchHoldsOneDollar(s);
    hide NodeRefHere, VariableHere, NodeRefKey;
    match RefHere(s) {
      case None => NodeRefListed(s[1..], n);
      case Some(m) =>
        SplitMatch(s, m.len);
        if m.ref.node {
          if n != NodeRefHere(s).value.0 {
            NodeRefListed(s[m.len..], n);
          }
        } else {
          NodeRefsSkip(s[1..m.len], s[m.len..]);
          NodeRefListed(s[m.len..], n);
        }
    }
  }

  /** What `extractNodeRefs` returns is among the references that are filled in. */
  lemma {:induction false} ListedNodeIsRef(text: string, n: NodeRef)
    requires n in NodeRefs(Prepared(text))
    ensures Reference(NodeRefKey(n), true, n.many) in RefsIn(Parts(text))
  {
    hide Elements, Segments, Prepared, Written, References, RefsIn, NodeRefs;
    PreparedIsEncoded(text);
    ReferencesEncoded(Elements(text, 0, 0));
    NodeRefListed(Prepared(text), n);
  }

  /** What `extract` returns is among the references that are filled in. */
  lemma {:induction false} ListedVariableIsRef(text: string, name: string)
    requires name in VariableNames(text)
    ensures exists r :: r in RefsIn(Parts(text)) && !r.node && r.key == name
  {
    hide Elements, Segments, Prepared, Written, References, RefsIn, Variables, Keys, NodeRefs, KeysOf, Distinct;
    PreparedIsEncoded(text);
    ReferencesEncoded(Elements(text, 0, 0));
    PassesAgree(Prepared(text));
    DistinctHas(Variables(Prepared(text)), [], name);
    KeysOfHas(RefsIn(Parts(text)), false, name);
  }

  /** In SQL the value of every listed variable is harmless, whatever it is. */
  lemma {:induction false} VariablesHarmlessInSql(text: string, values: map<string, Value>, context: Option<string>, name: string)
    requires GoesTo(context, SqlText) && Substitute(text, values, context).Ok? && name in VariableNames(text)
    ensures name in values && !Harmful(values[name]) && !values[name].Undefined?
  {
    hide GoesTo, Substitute, VariableNames, RefsIn, Parts, Puts, PutsList, Harmful;
    ListedVariableIsRef(text, name);
    var r :| r in RefsIn(Parts(text)) && !r.node && r.key == name;
    RefHarmless(text, values, context, r);
  }

  /** In SQL the value of every listed node reference is harmless, and so is every item of a list of values. */
  lemma {:induction false} NodeRefsHarmlessInSql(text: string, values: map<string, Value>, context: Option<string>, n: NodeRef)
    requires GoesTo(context, SqlText) && Substitute(text, values, context).Ok? && n in NodeRefs(Prepared(text))
    ensures NodeRefKey(n) in values && !values[NodeRefKey(n)].Undefined?
    ensures !n.many ==> !Harmful(values[NodeRefKey(n)])
    ensures n.many ==> var v := values[NodeRefKey(n)]; v.List? && v.items != [] && !SomeHarmful(v.items)
  {
    hide GoesTo, Substitute, NodeRefs, RefsIn, Parts, Puts, PutsList, Harmful, SomeHarmful;
    ListedNodeIsRef(text, n);
    RefHarmless(text, values, context, Reference(NodeRefKey(n), true, n.many));
  }

  lemma {:induction false} RefHarmless(text: string, values: map<string, Value>, context: Option<string>, r: Reference)
    requires GoesTo(context, SqlText) && Substitute(text, values, context).Ok? && r in RefsIn(Parts(text))
    ensures !Missing(r, values)
    ensures if r.node && r.many then values[r.key].List? && values[r.key].items != [] && !SomeHarmful(values[r.key].items) else !Harmful(values[r.key])
  {
    hide GoesTo, Substitute, RefsIn, Parts, Harmful, SomeHarmful, Shows, Harmless, PutsItems;
    EveryRefFilled(text, values, context, SqlText, r);
    var s :| PutsFor(r, values, SqlText, s);
    if r.node && r.many {
      ListNotHarmful(values[r.key], s);
    } else {
      HarmfulMeans(values[r.key], s);
    }
  }

  /** Substitution succeeds exactly when every reference of the text can be filled in. */
  lemma {:induction false} SucceedsExactly(text: string, values: map<string, Value>, context: Option<string>, place: Place)
    requires GoesTo(context, place)
    ensures Substitute(text, values, context).Ok? <==> forall r :: r in RefsIn(Parts(text)) ==> exists s :: PutsFor(r, values, place, s)
  {
    hide Substitute, PutsFor, Refused, GoesTo, RefsIn, Parts, Fills, Fails;
    SubstituteMeans(text, values, context, place);
    if Substitute(text, values, context).Ok? {
      forall r | r in RefsIn(Parts(text)) ensures exists s :: PutsFor(r, values, place, s) {
        EveryRefFilled(text, values, context, place, r);
      }
    } else {
      RefusedRef(Parts(text), values, place, Substitute(text, values, context).error);
    }
  }

  lemma {:induction false} RefusedRef(segments: seq<Segment>, values: map<string, Value>, place: Place, e: Error)
    requires Fails(segments, values, place, e)
    ensures exists r :: r in RefsIn(segments) && forall s :: !PutsFor(r, values, place, s)
  {
    hide Refused, PutsFor, CanFill;
    var k: nat :| FailsAt(segments, values, place, e, k);
    SegmentRef(segments, k);
    var r := segments[k].ref;
    forall s ensures !PutsFor(r, values, place, s) {
      if PutsFor(r, values, place, s) {
        NotBoth(r, values, place, s, e);
      }
    }
  }

  lemma {:induction false} SegmentRef(segments: seq<Segment>, k: nat)
    requires k < |segments| && segments[k].Ref?
    ensures segments[k].ref in RefsIn(segments)
  {
    if k > 0 {
      SegmentRef(segments[1..], k - 1);
    }
  }

  /**
   * The result of `substitute` for a text spelled by `xs` and taken apart into `segments`, in characters: the segments
   * filled in one by one, or the error of the first that cannot be.
   */
  lemma {:induction false} SubstituteSpelled(
    text: string, xs: seq<Item>, segments: seq<Segment>, values: map<string, Value>, context: Option<string>, place: Place)
    requires GoesTo(context, place) && SpelledBy(xs, text) && TakenApart(segments, Spelled(xs, 0))
    ensures
      match Substitute(text, values, context)
      case Err(e) => Fails(segments, values, place, e)
      case Ok(out) =>
        && Meaning(text, values, context).Ok?
        && exists parts ::
             && Fills(segments, values, place, parts)
             && (NUL !in text && NulFreeValues(values) ==>
                   (out == Glued(parts) <==> !Collides(Meaning(text, values, context).value)))
  {
    hide *;
    TextSpelled(text);
    SegmentsMean(segments, Spelled(xs, 0));
    PartsAre(text);
    SubstituteMeans(text, values, context, place);
  }

  lemma {:induction false} PartsAre(text: string)
    ensures Parts(text) == Segments(Elements(text, 0, 0))
  {
  }
}
