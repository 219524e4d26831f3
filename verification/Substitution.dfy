/** The template engine: references in a text are replaced by values; quoted bodies and escaped dollars are not. */
module Substitution {
  import opened Text
  import opened SqlValues

  /** What a text consists of for the engine: characters, escaped dollars, and dollar-quoted bodies, numbered. */
  datatype Elem = C(c: char) | Dollar | Block(index: nat, text: string)

  /** A reference, with the key under which its value is looked up. */
  datatype Reference = Reference(key: string, node: bool, many: bool)

  /** A reference and the length of its text. */
  datatype Match = Match(ref: Reference, len: nat)

  const NUL: char := '\0'
  const SENTINEL: string := "\0EAI_DOLLAR\0"

  function Mark(k: nat): string {
    "\0DQ" + Dec(k) + "\0"
  }

  /** `s.split(pat).join(rep)`: the occurrences of `pat`, from the left, without overlaps. */
  function ReplaceAll(s: string, pat: string, rep: string): string
    requires pat != ""
  {
    if s == "" then ""
    else if pat <= s then rep + ReplaceAll(s[|pat|..], pat, rep)
    else [s[0]] + ReplaceAll(s[1..], pat, rep)
  }

  // ---------------------------------------------------------------- dollar-quoted bodies

  /** The end of the delimiter `$name$` that starts at `p`. */
  function DelimiterEnd(t: string, p: nat): (r: Option<nat>)
    ensures r.Some? ==> p + 2 < r.value <= |t|
  {
    if p + 1 < |t| && t[p] == '$' && IsNameStart(t[p + 1]) then
      var q := WordEnd(t, p + 2);
      if q < |t| && t[q] == '$' then Some(q + 1) else None
    else None
  }

  function NextDelimiter(t: string, i: nat): (r: Option<nat>)
    ensures r.Some? ==> i <= r.value < |t| && DelimiterEnd(t, r.value).Some?
    decreases |t| - i
  {
    if i >= |t| then None
    else if DelimiterEnd(t, i).Some? then Some(i)
    else NextDelimiter(t, i + 1)
  }

  datatype Span = Span(from: nat, to: nat)

  /** The next quoted body at or behind `i`; a delimiter without a partner is stepped over. */
  function NextBlock(t: string, i: nat): (r: Option<Span>)
    ensures r.Some? ==> i <= r.value.from < r.value.to <= |t|
    decreases |t| - i
  {
    match NextDelimiter(t, i)
    case None => None
    case Some(p) =>
      var e := DelimiterEnd(t, p).value;
      match IndexOf(t, t[p..e], e)
      case Some(close) => Some(Span(p, close + (e - p)))
      case None => NextBlock(t, e)
  }

  /** The text from `last` on with every body found from `i` on replaced by its mark. */
  function Masked(t: string, last: nat, i: nat, k: nat): string
    requires last <= i <= |t|
    decreases |t| - i
  {
    match NextBlock(t, i)
    case None => t[last..]
    case Some(b) => t[last..b.from] + Mark(k) + Masked(t, b.to, b.to, k + 1)
  }

  function Blocks(t: string, i: nat): seq<string>
    requires i <= |t|
    decreases |t| - i
  {
    match NextBlock(t, i)
    case None => []
    case Some(b) => [t[b.from..b.to]] + Blocks(t, b.to)
  }

  lemma {:induction false} NoDollarNoDelimiter(t: string, i: nat)
    requires '$' !in t
    ensures NextDelimiter(t, i).None?
    decreases |t| - i
  {
    if i < |t| {
      NoDollarNoDelimiter(t, i + 1);
    }
  }

  /** Nothing is found from `i` on. */
  lemma {:induction false} MaskEnds(t: string, last: nat, i: nat, k: nat)
    requires last <= i <= |t| && NextDelimiter(t, i).None?
    ensures Masked(t, last, i, k) == t[last..] && Blocks(t, i) == []
  {
  }

  lemma {:induction false} MaskSteps(t: string, last: nat, i: nat, k: nat, p: nat, e: nat)
    requires last <= i <= p <= e <= |t| && NextDelimiter(t, i) == Some(p) && DelimiterEnd(t, p) == Some(e)
    ensures
      var close := IndexOf(t, t[p..e], e);
      close.None? ==> Masked(t, last, i, k) == Masked(t, last, e, k) && Blocks(t, i) == Blocks(t, e)
    ensures
      var close := IndexOf(t, t[p..e], e);
      close.Some? ==>
        var end := close.value + (e - p);
        && Masked(t, last, i, k) == t[last..p] + Mark(k) + Masked(t, end, end, k + 1)
        && Blocks(t, i) == [t[p..end]] + Blocks(t, end)
  {
    hide IndexOf, NextDelimiter, DelimiterEnd, Mark;
  }

  method MaskDollarQuotes(text: string) returns (masked: string, blocks: seq<string>)
    ensures masked == Masked(text, 0, 0, 0) && blocks == Blocks(text, 0)
  {
    hide Masked, Blocks, NextBlock, NextDelimiter, DelimiterEnd, IndexOf, Mark;
    if '$' !in text {
      NoDollarNoDelimiter(text, 0);
      MaskEnds(text, 0, 0, 0);
      return text, [];
    }
    var out, last, i := "", 0, 0;
    blocks := [];
    var m := NextDelimiter(text, 0);
    while m.Some?
      invariant last <= i <= |text| && m == NextDelimiter(text, i)
      invariant out + Masked(text, last, i, |blocks|) == Masked(text, 0, 0, 0)
      invariant blocks + Blocks(text, i) == Blocks(text, 0)
      invariant blocks == [] ==> out == "" && last == 0
      decreases |text| - i
    {
      var from := m.value;
      var e := DelimiterEnd(text, from).value;
      var close := IndexOf(text, text[from..e], e);
      MaskSteps(text, last, i, |blocks|, from, e);
      if close.None? {
        i := e;
      } else {
        var end := close.value + (e - from);
        Regroup(out, text[last..from], Mark(|blocks|), Masked(text, end, end, |blocks| + 1));
        Assoc(blocks, [text[from..end]], Blocks(text, end));
        out := out + text[last..from] + Mark(|blocks|);
        blocks := blocks + [text[from..end]];
        last, i := end, end;
      }
      m := NextDelimiter(text, i);
    }
    MaskEnds(text, last, i, |blocks|);
    assert blocks + [] == blocks;
    if blocks == [] {
      masked := text;
    } else {
      masked := out + text[last..];
    }
  }

  lemma {:induction false} Regroup(a: string, b: string, c: string, d: string)
    ensures a + (b + c + d) == a + b + c + d
  {
  }

  /** The mark of a body at the start of `s`: its number and its length. */
  function MarkHere(s: string): Option<(nat, nat)> {
    if "\0DQ" <= s then
      var e := DigitsEnd(s, 3);
      if 3 < e < |s| && s[e] == NUL then DigitsBelow(s, 3); Some((ParseDec(s[3..e]), e + 1)) else None
    else None
  }

  function DigitsEnd(s: string, i: nat): (e: nat)
    requires i <= |s|
    ensures i <= e <= |s|
    decreases |s| - i
  {
    if i < |s| && IsDigit(s[i]) then DigitsEnd(s, i + 1) else i
  }

  lemma {:induction false} DigitsBelow(s: string, i: nat)
    requires i <= |s|
    ensures forall k :: i <= k < DigitsEnd(s, i) ==> IsDigit(s[k])
    decreases |s| - i
  {
    if i < |s| && IsDigit(s[i]) {
      DigitsBelow(s, i + 1);
    }
  }

  /** Puts the bodies back in the place of their marks. */
  function Restored(s: string, blocks: seq<string>): string
    decreases |s|
  {
    if s == "" then ""
    else match MarkHere(s) {
      case Some((k, len)) => (if k < |blocks| then blocks[k] else "undefined") + Restored(s[len..], blocks)
      case None => [s[0]] + Restored(s[1..], blocks)
    }
  }

  function Restore(s: string, blocks: seq<string>): string {
    if blocks == [] then s else Restored(s, blocks)
  }

  // ---------------------------------------------------------------- references

  /** The first of the characters `{`, `}` and `$` at or behind `i`. */
  function BraceEnd(s: string, i: nat): (e: nat)
    requires i <= |s|
    ensures i <= e <= |s|
    decreases |s| - i
  {
    if i < |s| && s[i] != '{' && s[i] != '}' && s[i] != '$' then BraceEnd(s, i + 1) else i
  }

  /** A part between optional space; a part that is nothing but space gives up its last character. */
  function TrimKeep(s: string): Option<string> {
    if s == "" then None
    else if Trim(s) == "" then Some([s[|s| - 1]])
    else Some(Trim(s))
  }

  function LastDot(s: string): (r: Option<nat>)
    ensures r.Some? ==> r.value < |s| && s[r.value] == '.'
    ensures forall k :: 0 <= k < |s| && (r.Some? ==> r.value < k) ==> s[k] != '.'
  {
    if s == "" then None
    else if s[|s| - 1] == '.' then Some(|s| - 1)
    else LastDot(s[..|s| - 1])
  }

  /** What stands before a closing `[]`, if the text ends with one. */
  function BeforeBrackets(s: string): Option<string> {
    var t := TrimEnd(s);
    if t != "" && t[|t| - 1] == ']' then
      var u := TrimEnd(t[..|t| - 1]);
      if u != "" && u[|u| - 1] == '[' then Some(u[..|u| - 1]) else None
    else None
  }

  datatype NodeRef = NodeRef(node: string, column: string, many: bool)

  function NodeRefKey(r: NodeRef): string {
    r.node + "." + r.column + (if r.many then "[]" else "")
  }

  function NodeRefText(r: NodeRef): string {
    "${" + NodeRefKey(r) + "}"
  }

  /** What stands between the braces, read as a node reference: split at the last dot. */
  function ParseNodeRef(content: string): Option<NodeRef> {
    match LastDot(content)
    case None => None
    case Some(d) =>
      var after := content[d + 1..];
      var many := BeforeBrackets(after).Some?;
      var name := if many then BeforeBrackets(after).value else after;
      if TrimKeep(content[..d]).None? || TrimKeep(name).None? || '[' in name || ']' in name then None
      else Some(NodeRef(TrimKeep(content[..d]).value, TrimKeep(name).value, many))
  }

  /** A node reference at the start of `s`. */
  function NodeRefHere(s: string): (r: Option<(NodeRef, nat)>)
    ensures r.Some? ==> 2 < r.value.1 <= |s|
  {
    if "${" <= s then
      var e := BraceEnd(s, 2);
      if e < |s| && s[e] == '}' && ParseNodeRef(s[2..e]).Some? then Some((ParseNodeRef(s[2..e]).value, e + 1)) else None
    else None
  }

  /** A variable at the start of `s`, with or without braces. */
  function VariableHere(s: string): (r: Option<(string, nat)>)
    ensures r.Some? ==> 1 < r.value.1 <= |s|
  {
    if "${" <= s then
      var e := WordEnd(s, 2);
      if 2 < e < |s| && IsNameStart(s[2]) && s[e] == '}' then Some((s[2..e], e + 1)) else None
    else if 1 < |s| && s[0] == '$' && IsNameStart(s[1]) then Some((s[1..WordEnd(s, 2)], WordEnd(s, 2)))
    else None
  }

  function RefHere(s: string): (r: Option<Match>)
    ensures r.Some? ==> 1 < r.value.len <= |s|
  {
    match NodeRefHere(s)
    case Some((ref, len)) => Some(Match(Reference(NodeRefKey(ref), true, ref.many), len))
    case None =>
      match VariableHere(s)
      case Some((name, len)) => Some(Match(Reference(name, false, false), len))
      case None => None
  }

  /** The text that takes the place of a reference. */
  function Eval(r: Reference, values: map<string, Value>, guard: bool, python: bool): Result<string, Error> {
    if r.key !in values || values[r.key].Undefined? then Err(if r.node then NoNodeValue(r.key) else NoVarValue(r.key))
    else
      var raw := values[r.key];
      if r.node && r.many then RenderList(r.key, raw, guard, python)
      else
        var rendered := if python && !raw.Str? then PyLiteral(raw) else Render(raw);
        if guard && FirstUnsafe(r.key, rendered, 0).Some? then Err(FirstUnsafe(r.key, rendered, 0).value)
        else Ok(rendered)
  }

  /** One pass over the text: every reference replaced, values not looked at again. */
  function Replaced(s: string, values: map<string, Value>, guard: bool, python: bool): Result<string, Error>
    decreases |s|
  {
    if s == "" then Ok("")
    else match RefHere(s) {
      case Some(m) =>
        var v :- Eval(m.ref, values, guard, python);
        var rest :- Replaced(s[m.len..], values, guard, python);
        Ok(v + rest)
      case None =>
        var rest :- Replaced(s[1..], values, guard, python);
        Ok([s[0]] + rest)
    }
  }

  predicate IsSqlContext(context: Option<string>) {
    context.Some? && LowerAll(context.value) in ["query", "where", "filter", "sql"]
  }

  predicate IsPythonContext(context: Option<string>) {
    context.Some? && LowerAll(context.value) == "code"
  }

  /** The text in which the references are looked for: bodies masked, `$$` replaced by the sentinel. */
  function Prepared(text: string): string {
    ReplaceAll(Masked(text, 0, 0, 0), "$$", SENTINEL)
  }

  /** `substitute`. */
  function Substitute(text: string, values: map<string, Value>, context: Option<string>): Result<string, Error> {
    if '$' !in text then Ok(text)
    else
      var out :- Replaced(Prepared(text), values, IsSqlContext(context), IsPythonContext(context));
      Ok(Restore(ReplaceAll(out, SENTINEL, "$"), Blocks(text, 0)))
  }

  // ---------------------------------------------------------------- the keys a text refers to

  /** All matches of the variable pattern, as `matchAll` finds them. */
  function Variables(s: string): seq<string>
    decreases |s|
  {
    if s == "" then []
    else match VariableHere(s) {
      case Some((name, len)) => [name] + Variables(s[len..])
      case None => Variables(s[1..])
    }
  }

  function NodeRefs(s: string): seq<NodeRef>
    decreases |s|
  {
    if s == "" then []
    else match NodeRefHere(s) {
      case Some((ref, len)) => [ref] + NodeRefs(s[len..])
      case None => NodeRefs(s[1..])
    }
  }

  /** The members of `xs` in order of their first occurrence, after those of `seen`. */
  function Distinct(xs: seq<string>, seen: seq<string>): seq<string> {
    if xs == [] then seen
    else Distinct(xs[1..], if xs[0] in seen then seen else seen + [xs[0]])
  }

  function Keys(refs: seq<NodeRef>): seq<string> {
    if refs == [] then [] else [NodeRefKey(refs[0])] + Keys(refs[1..])
  }

  /** `extract`. */
  method Extract(text: string) returns (names: seq<string>)
    ensures names == (if '$' in text then Distinct(Variables(Prepared(text)), []) else [])
  {
    names := [];
    if '$' !in text {
      return;
    }
    var masked, blocks := MaskDollarQuotes(text);
    var s := ReplaceAll(masked, "$$", SENTINEL);
    while s != ""
      invariant Distinct(Variables(s), names) == Distinct(Variables(Prepared(text)), [])
      decreases |s|
    {
      match VariableHere(s) {
        case Some((name, len)) =>
          if name !in names {
            names := names + [name];
          }
          s := s[len..];
        case None => s := s[1..];
      }
    }
  }

  /** `extractNodeRefs`. */
  method ExtractNodeRefs(text: string) returns (refs: seq<NodeRef>)
    ensures Keys(refs) == (if '$' in text then Distinct(Keys(NodeRefs(Prepared(text))), []) else [])
    ensures forall r :: r in refs ==> r in NodeRefs(Prepared(text))
  {
    refs := [];
    if '$' !in text {
      return;
    }
    var masked, blocks := MaskDollarQuotes(text);
    var s := ReplaceAll(masked, "$$", SENTINEL);
    while s != ""
      invariant Distinct(Keys(NodeRefs(s)), Keys(refs)) == Distinct(Keys(NodeRefs(Prepared(text))), [])
      invariant forall r :: r in refs || r in NodeRefs(s) ==> r in NodeRefs(Prepared(text))
      decreases |s|
    {
      match NodeRefHere(s) {
        case Some((ref, len)) =>
          assert NodeRefs(s) == [ref] + NodeRefs(s[len..]);
          KeysOfCons(ref, NodeRefs(s[len..]));
          var known := KeyKnown(refs, NodeRefKey(ref));
          if !known {
            KeysAppend(refs, ref);
            refs := refs + [ref];
          }
          s := s[len..];
        case None => s := s[1..];
      }
    }
  }

  /** `refs.some(...)` with the key of a reference. */
  method KeyKnown(refs: seq<NodeRef>, key: string) returns (known: bool)
    ensures known <==> key in Keys(refs)
  {
    known := false;
    for i := 0 to |refs|
      invariant known <==> key in Keys(refs[..i])
    {
      assert refs[..i + 1] == refs[..i] + [refs[i]];
      KeysAppend(refs[..i], refs[i]);
      if NodeRefKey(refs[i]) == key {
        known := true;
      }
    }
    assert refs[..|refs|] == refs;
  }

  lemma {:induction false} KeysAppend(refs: seq<NodeRef>, r: NodeRef)
    ensures Keys(refs + [r]) == Keys(refs) + [NodeRefKey(r)]
  {
    if refs != [] {
      KeysAppend(refs[1..], r);
      assert (refs + [r])[1..] == refs[1..] + [r];
    }
  }

  lemma {:induction false} KeysOfCons(r: NodeRef, refs: seq<NodeRef>)
    ensures Keys([r] + refs) == [NodeRefKey(r)] + Keys(refs)
  {
    assert ([r] + refs)[1..] == refs;
  }
}
