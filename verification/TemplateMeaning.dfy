/** Templates, in characters. */
module TemplateMeaning {
  import opened Text
  import opened Substitution
  import opened SubstitutionLaws
  import opened Lexemes
  import opened SplitterMeaning

  // ---------------------------------------------------------------- quoted bodies

  /** A body between two equal delimiters, a delimiter that comes no more, or any other character. */
  datatype Item = Quote(tag: string, body: string) | Stray(tag: string) | Other(c: char)

  predicate Name(s: string) {
    s != "" && WordOnly(s) && !('0' <= s[0] <= '9')
  }

  function SpellItem(x: Item): string {
    match x
    case Quote(tag, body) => Delimiter(tag) + body + Delimiter(tag)
    case Stray(tag) => Delimiter(tag)
    case Other(c) => [c]
  }

  /** The text starts with a dollar sign, a name and a dollar sign. */
  predicate StartsDelimiter(s: string) {
    s != "" && s[0] == '$' && exists k :: 1 < k < |s| && s[k] == '$' && Name(s[1..k])
  }

  predicate ProperItem(x: Item, rest: string) {
    match x
    case Quote(tag, body) => Name(tag) && FirstAt(body + Delimiter(tag), Delimiter(tag), |body|)
    case Stray(tag) => Name(tag) && Absent(rest, Delimiter(tag))
    case Other(c) => !StartsDelimiter([c] + rest)
  }

  function SpellItems(xs: seq<Item>): string {
    if xs == [] then "" else SpellItem(xs[0]) + SpellItems(xs[1..])
  }

  predicate ProperItems(xs: seq<Item>) {
    xs == [] || (ProperItem(xs[0], SpellItems(xs[1..])) && ProperItems(xs[1..]))
  }

  predicate SpelledBy(xs: seq<Item>, t: string) {
    ProperItems(xs) && SpellItems(xs) == t
  }

  /** What stands before the first quoted body. */
  function Gap(xs: seq<Item>): string {
    if xs == [] || xs[0].Quote? then "" else SpellItem(xs[0]) + Gap(xs[1..])
  }

  /** The items from the first quoted body on. */
  function FromQuote(xs: seq<Item>): (ys: seq<Item>)
    ensures |ys| <= |xs| && (ys != [] ==> ys[0].Quote?)
  {
    if xs == [] || xs[0].Quote? then xs else FromQuote(xs[1..])
  }

  /** The elements of a spelled text: bodies are numbered from `k`, dollar signs between them are paired. */
  function Spelled(xs: seq<Item>, k: nat): seq<Elem>
    decreases |xs|
  {
    var ys := FromQuote(xs);
    Plain(Gap(xs)) + if ys == [] then [] else [Block(k, SpellItem(ys[0]))] + Spelled(ys[1..], k + 1)
  }

  lemma {:induction false} NameIsWord(s: string)
    ensures Name(s) <==> s != "" && IsNameStart(s[0]) && forall k :: 0 <= k < |s| ==> IsWord(s[k])
  {
  }

  /** Where a delimiter stands, the scan finds its end. */
  lemma {:induction false} DelimiterFound(t: string, d: nat, tag: string, rest: string)
    requires d <= |t| && t[d..] == Delimiter(tag) + rest && Name(tag)
    ensures d < |t| && DelimiterEnd(t, d) == Some(d + |tag| + 2) && t[d..d + |tag| + 2] == Delimiter(tag)
    ensures t[d + |tag| + 2..] == rest
  {
    var q := Delimiter(tag);
    StartChars(t, d, q + rest);
    assert forall k :: 0 <= k < |q| ==> t[d + k] == q[k];
    forall k | d + 1 <= k < d + 1 + |tag| ensures IsWord(t[k]) {
      assert t[k] == q[k - d] == tag[k - d - 1];
    }
    assert t[d + 1] == tag[0] && t[d + 1 + |tag|] == '$';
    WordEndIs(t, d + 2, d + 1 + |tag|);
    SuffixSplit(t, d, q, rest);
  }

  lemma {:induction false} DelimiterStands(t: string, d: nat)
    requires d <= |t| && DelimiterEnd(t, d).Some?
    ensures
      var e := DelimiterEnd(t, d).value;
      && d + 2 < e <= |t| && Name(t[d + 1..e - 1]) && t[d..e] == Delimiter(t[d + 1..e - 1]) && StartsDelimiter(t[d..])
  {
    var e := DelimiterEnd(t, d).value;
    WordEndLaws(t, d + 2);
    hide WordEnd;
    var tag := t[d + 1..e - 1];
    assert forall k :: 0 <= k < |tag| ==> tag[k] == t[d + 1 + k];
    assert t[d..e] == [t[d]] + tag + [t[e - 1]];
    var s := t[d..];
    assert s[1..e - 1 - d] == tag && s[e - 1 - d] == '$';
  }

  lemma {:induction false} NoDelimiterFound(t: string, d: nat)
    requires d <= |t| && !StartsDelimiter(t[d..])
    ensures DelimiterEnd(t, d).None?
  {
    if DelimiterEnd(t, d).Some? {
      DelimiterStands(t, d);
    }
  }

  lemma {:induction false} BlockHere(t: string, d: nat, e: nat)
    requires d < e <= |t| && DelimiterEnd(t, d) == Some(e)
    ensures
      match IndexOf(t, t[d..e], e)
      case Some(close) => NextBlock(t, d) == Some(Span(d, close + (e - d)))
      case None => NextBlock(t, d) == NextBlock(t, e)
  {
    hide IndexOf, DelimiterEnd;
  }

  lemma {:induction false} BlockLater(t: string, d: nat)
    requires d < |t| && DelimiterEnd(t, d).None?
    ensures NextBlock(t, d) == NextBlock(t, d + 1)
  {
    hide IndexOf, DelimiterEnd;
  }

  lemma {:induction false} QuoteFound(t: string, d: nat, tag: string, body: string, rest: string)
    requires d <= |t| && t[d..] == SpellItem(Quote(tag, body)) + rest && ProperItem(Quote(tag, body), rest)
    ensures NextBlock(t, d) == Some(Span(d, d + |body| + 2 * |tag| + 4))
  {
    hide *;
    QuoteShape(tag, body, rest);
    FourParts(Delimiter(tag), body, rest);
    DelimiterFound(t, d, tag, body + (Delimiter(tag) + rest));
    ClosingFound(t, d, d + |tag| + 2, body, Delimiter(tag), rest);
    BlockHere(t, d, d + |tag| + 2);
  }

  lemma {:induction false} ClosingFound(t: string, d: nat, e: nat, body: string, q: string, rest: string)
    requires d <= e <= |t| && t[d..e] == q && t[e..] == body + (q + rest) && FirstAt(body + q, q, |body|)
    ensures IndexOf(t, t[d..e], e) == Some(e + |body|)
  {
    hide *;
    FoundFirst(t, e, body, q, rest);
  }

  lemma {:induction false} QuoteShape(tag: string, body: string, rest: string)
    requires ProperItem(Quote(tag, body), rest)
    ensures Name(tag) && FirstAt(body + Delimiter(tag), Delimiter(tag), |body|)
    ensures SpellItem(Quote(tag, body)) == Delimiter(tag) + body + Delimiter(tag) && |Delimiter(tag)| == |tag| + 2
  {
    hide FirstAt, Name;
  }

  lemma {:induction false} StrayPassed(t: string, d: nat, tag: string, rest: string)
    requires d <= |t| && t[d..] == Delimiter(tag) + rest && Name(tag) && Absent(rest, Delimiter(tag))
    ensures NextBlock(t, d) == NextBlock(t, d + |tag| + 2)
  {
    hide NextBlock, DelimiterEnd, IndexOf, Absent, Name, Delimiter;
    DelimiterFound(t, d, tag, rest);
    BlockHere(t, d, d + |tag| + 2);
    NeverFound(t, d + |tag| + 2, rest, Delimiter(tag));
  }

  lemma {:induction false} OtherPassed(t: string, d: nat, c: char, rest: string)
    requires d <= |t| && t[d..] == [c] + rest && !StartsDelimiter([c] + rest)
    ensures d < |t| && NextBlock(t, d) == NextBlock(t, d + 1)
  {
    hide NextBlock, DelimiterEnd, StartsDelimiter;
    StartChars(t, d, [c] + rest);
    NoDelimiterFound(t, d);
    BlockLater(t, d);
  }

  lemma {:induction false} NoBlockAtEnd(t: string)
    ensures NextBlock(t, |t|).None?
  {
  }

  lemma {:induction false} ItemsCons(xs: seq<Item>)
    requires xs != [] && ProperItems(xs)
    ensures SpellItems(xs) == SpellItem(xs[0]) + SpellItems(xs[1..])
    ensures ProperItem(xs[0], SpellItems(xs[1..])) && ProperItems(xs[1..])
  {
    hide ProperItem, SpellItem;
  }

  lemma {:induction false} SpellOne(x: Item)
    ensures |SpellItem(x)| == if x.Quote? then |x.body| + 2 * |x.tag| + 4 else if x.Stray? then |x.tag| + 2 else 1
  {
  }

  /** An item that is not a quoted body is stepped over. */
  lemma {:induction false} ItemPassed(t: string, d: nat, x: Item, rest: string)
    requires d <= |t| && t[d..] == SpellItem(x) + rest && ProperItem(x, rest) && !x.Quote?
    ensures d + |SpellItem(x)| <= |t| && t[d + |SpellItem(x)|..] == rest && SpellItem(x) != ""
    ensures NextBlock(t, d) == NextBlock(t, d + |SpellItem(x)|)
  {
    hide *;
    SpellOne(x);
    SuffixSplit(t, d, SpellItem(x), rest);
    match x
    case Stray(tag) =>
      StrayShape(tag, rest);
      StrayPassed(t, d, tag, rest);
    case Other(c) =>
      OtherShape(c, rest);
      OtherPassed(t, d, c, rest);
  }

  lemma {:induction false} GapSteps(xs: seq<Item>)
    ensures xs == [] || xs[0].Quote? ==> Gap(xs) == "" && FromQuote(xs) == xs
    ensures xs != [] && !xs[0].Quote? ==> Gap(xs) == SpellItem(xs[0]) + Gap(xs[1..]) && FromQuote(xs) == FromQuote(xs[1..])
  {
    hide SpellItem;
  }

  /** The next quoted body behind the gap. */
  lemma {:induction false} NextQuote(t: string, d: nat, xs: seq<Item>)
    requires d <= |t| && t[d..] == SpellItems(xs) && ProperItems(xs)
    ensures ProperItems(FromQuote(xs)) && SpellItems(xs) == Gap(xs) + SpellItems(FromQuote(xs))
    ensures
      var ys := FromQuote(xs);
      NextBlock(t, d) == if ys == [] then None else Some(Span(d + |Gap(xs)|, d + |Gap(xs)| + |SpellItem(ys[0])|))
    decreases |xs|
  {
    hide *;
    GapSteps(xs);
    if xs == [] {
      NoItems();
      NoBlockAtEnd(t);
    } else {
      var x, rest := xs[0], SpellItems(xs[1..]);
      ItemsCons(xs);
      if x.Quote? {
        SpellOne(x);
        QuoteFound(t, d, x.tag, x.body, rest);
      } else {
        ItemPassed(t, d, x, rest);
        NextQuote(t, d + |SpellItem(x)|, xs[1..]);
        Assoc(SpellItem(x), Gap(xs[1..]), SpellItems(FromQuote(xs[1..])));
      }
    }
  }

  lemma {:induction false} NoItems()
    ensures SpellItems([]) == "" && ProperItems([])
  {
  }

  lemma {:induction false} StrayShape(tag: string, rest: string)
    requires ProperItem(Stray(tag), rest)
    ensures Name(tag) && Absent(rest, Delimiter(tag)) && SpellItem(Stray(tag)) == Delimiter(tag)
  {
  }

  lemma {:induction false} OtherShape(c: char, rest: string)
    requires ProperItem(Other(c), rest)
    ensures !StartsDelimiter([c] + rest) && SpellItem(Other(c)) == [c]
  {
  }

  /** However a text is spelled, its elements are those of the spelling. */
  lemma {:induction false} ElementsSpelled(t: string, d: nat, k: nat, xs: seq<Item>)
    requires d <= |t| && t[d..] == SpellItems(xs) && ProperItems(xs)
    ensures Elements(t, d, k) == Spelled(xs, k)
    decreases |xs|
  {
    var ys := FromQuote(xs);
    hide NextBlock, ProperItem, ProperItems, SpellItem, SpellItems, Gap, FromQuote, Plain;
    NextQuote(t, d, xs);
    if ys == [] {
      NoItems();
      assert Gap(xs) + "" == Gap(xs);
      assert Plain(Gap(xs)) + [] == Plain(Gap(xs));
    } else {
      var a, b := Gap(xs), SpellItem(ys[0]);
      ItemsCons(ys);
      SuffixSplit(t, d, a, SpellItems(ys));
      SuffixSplit(t, d + |a|, b, SpellItems(ys[1..]));
      ElementsSpelled(t, d + |a| + |b|, k + 1, ys[1..]);
      Assoc(Plain(a), [Block(k, b)], Spelled(ys[1..], k + 1));
    }
  }

  lemma {:induction false} OneMoreItem(x: Item, xs: seq<Item>)
    requires ProperItem(x, SpellItems(xs)) && ProperItems(xs)
    ensures ProperItems([x] + xs) && SpellItems([x] + xs) == SpellItem(x) + SpellItems(xs)
  {
    assert ([x] + xs)[1..] == xs;
    hide ProperItem, SpellItem;
  }

  lemma {:induction false} SliceInside(t: string, a: nat, b: nat, i: nat, j: nat)
    requires a <= b <= |t| && i <= j <= b - a
    ensures t[a..b][i..j] == t[a + i..a + j]
  {
    var x, y := t[a..b][i..j], t[a + i..a + j];
    assert |x| == |y| && forall k :: 0 <= k < |x| ==> x[k] == t[a + i + k] == y[k];
  }

  lemma {:induction false} FirstFound(t: string, pat: string, e: nat)
    requires e <= |t|
    ensures
      match IndexOf(t, pat, e)
      case None => Absent(t[e..], pat)
      case Some(p) => e <= p && p + |pat| <= |t| && t[p..p + |pat|] == pat && FirstAt(t[e..p] + pat, pat, p - e)
  {
    IndexOfFirst(t, pat, e);
    hide IndexOf;
    match IndexOf(t, pat, e)
    case None =>
      forall j | 0 <= j <= |t[e..]| ensures !Occurs(t[e..], pat, j) {
        assert !At(t, pat, e + j);
        if j + |pat| <= |t[e..]| {
          SliceInside(t, e, |t|, j, j + |pat|);
        }
      }
    case Some(p) =>
      var s := t[e..p] + pat;
      assert s == t[e..p + |pat|];
      forall j | 0 <= j < p - e ensures !Occurs(s, pat, j) {
        assert !At(t, pat, e + j);
        if j + |pat| <= |s| {
          SliceInside(t, e, p + |pat|, j, j + |pat|);
        }
      }
      assert s[p - e..p - e + |pat|] == pat;
  }

  /** Every text is spelled by items. */
  lemma {:induction false} EveryText(t: string, d: nat) returns (xs: seq<Item>)
    requires d <= |t|
    ensures SpelledBy(xs, t[d..])
    decreases |t| - d
  {
    hide *;
    if d == |t| {
      xs := [];
      NoItems();
      SpellsFrom(xs, t, d);
    } else if DelimiterEnd(t, d).Some? {
      DelimiterStands(t, d);
      var e := DelimiterEnd(t, d).value;
      var q, tag := t[d..e], t[d + 1..e - 1];
      FirstFound(t, q, e);
      match IndexOf(t, q, e) {
        case None =>
          var rest := EveryText(t, e);
          SpellsParts(rest, t, e);
          StrayIs(tag, t[e..]);
          xs := [Stray(tag)] + rest;
          OneMoreItem(Stray(tag), rest);
          assert t[d..] == q + t[e..];
          SpellsFrom(xs, t, d);
        case Some(p) =>
          var f := p + (e - d);
          var rest := EveryText(t, f);
          SpellsParts(rest, t, f);
          QuoteIs(tag, t[e..p], t[f..]);
          xs := [Quote(tag, t[e..p])] + rest;
          OneMoreItem(Quote(tag, t[e..p]), rest);
          assert t[d..] == t[d..e] + t[e..p] + t[p..f] + t[f..];
          SpellsFrom(xs, t, d);
      }
    } else {
      var rest := EveryText(t, d + 1);
      SpellsParts(rest, t, d + 1);
      assert t[d..] == [t[d]] + t[d + 1..];
      DelimiterMissed(t, d);
      OtherIs(t[d], t[d + 1..]);
      xs := [Other(t[d])] + rest;
      OneMoreItem(Other(t[d]), rest);
      SpellsFrom(xs, t, d);
    }
  }

  lemma {:induction false} SpellsFrom(xs: seq<Item>, t: string, d: nat)
    requires d <= |t| && ProperItems(xs) && SpellItems(xs) == t[d..]
    ensures SpelledBy(xs, t[d..])
  {
  }

  lemma {:induction false} SpellsParts(xs: seq<Item>, t: string, d: nat)
    requires d <= |t| && SpelledBy(xs, t[d..])
    ensures ProperItems(xs) && SpellItems(xs) == t[d..]
  {
  }

  lemma {:induction false} StrayIs(tag: string, rest: string)
    requires Name(tag) && Absent(rest, Delimiter(tag))
    ensures ProperItem(Stray(tag), rest) && SpellItem(Stray(tag)) == Delimiter(tag)
  {
  }

  lemma {:induction false} QuoteIs(tag: string, body: string, rest: string)
    requires Name(tag) && FirstAt(body + Delimiter(tag), Delimiter(tag), |body|)
    ensures ProperItem(Quote(tag, body), rest) && SpellItem(Quote(tag, body)) == Delimiter(tag) + body + Delimiter(tag)
  {
  }

  lemma {:induction false} OtherIs(c: char, rest: string)
    requires !StartsDelimiter([c] + rest)
    ensures ProperItem(Other(c), rest) && SpellItem(Other(c)) == [c]
  {
  }

  lemma {:induction false} DelimiterMissed(t: string, d: nat)
    requires d < |t| && DelimiterEnd(t, d).None?
    ensures !StartsDelimiter(t[d..])
  {
    var s := t[d..];
    if StartsDelimiter(s) {
      var k :| 1 < k < |s| && s[k] == '$' && Name(s[1..k]);
      var tag := s[1..k];
      assert s == Delimiter(tag) + s[k + 1..];
      hide DelimiterEnd, StartsDelimiter, Name, Delimiter;
      DelimiterFound(t, d, tag, s[k + 1..]);
    }
  }

  /** The bodies and the characters between them, whatever spells the text; and something does. */
  lemma {:induction false} TextSpelled(t: string)
    ensures exists xs :: SpelledBy(xs, t)
    ensures forall xs :: SpelledBy(xs, t) ==> Elements(t, 0, 0) == Spelled(xs, 0)
  {
    hide *;
    assert t[0..] == t;
    var xs := EveryText(t, 0);
    forall ys | SpelledBy(ys, t) ensures Elements(t, 0, 0) == Spelled(ys, 0) {
      SpellsParts(ys, t, 0);
      ElementsSpelled(t, 0, 0, ys);
    }
  }
}
