/** Characters, numbers, searches and other operations on text that several components of the model share. */
module Text {

  datatype Option<+T> = None | Some(value: T)

  datatype Result<+T, +E> = Ok(value: T) | Err(error: E) {
    predicate IsFailure() {
      Err?
    }

    function PropagateFailure<U>(): Result<U, E>
      requires Err?
    {
      Err(error)
    }

    function Extract(): T
      requires Ok?
    {
      value
    }
  }

  predicate IsDigit(c: char) {
    '0' <= c <= '9'
  }

  predicate IsNameStart(c: char) {
    'A' <= c <= 'Z' || 'a' <= c <= 'z' || c == '_'
  }

  /** The class `\w`. */
  predicate IsWord(c: char) {
    IsNameStart(c) || IsDigit(c)
  }

  predicate IsBlank(c: char) {
    c == ' ' || c == '\t'
  }

  /** The class `\s` of JavaScript, which is also what `trim` removes. */
  predicate IsSpace(c: char) {
    || IsBlank(c)
    || c == '\n' || c == '\r' || c == '\U{0B}' || c == '\U{0C}' || c == '\U{A0}' || c == '\U{FEFF}'
    || c == '\U{1680}' || '\U{2000}' <= c <= '\U{200A}' || c == '\U{2028}' || c == '\U{2029}'
    || c == '\U{202F}' || c == '\U{205F}' || c == '\U{3000}'
  }

  predicate AllSpace(s: string) {
    forall k :: 0 <= k < |s| ==> IsSpace(s[k])
  }

  /** `pat` occurs in `s` at position `p`. */
  predicate At(s: string, pat: string, p: nat) {
    p + |pat| <= |s| && s[p..p + |pat|] == pat
  }

  /** The first occurrence of `pat` at or after `i`; `IndexOfFirst` says what that means. */
  function IndexOf(s: string, pat: string, i: nat): (r: Option<nat>)
    ensures r.Some? ==> i <= r.value && r.value + |pat| <= |s|
    decreases |s| - i
  {
    if i + |pat| > |s| then None
    else if At(s, pat, i) then Some(i)
    else IndexOf(s, pat, i + 1)
  }

  lemma {:induction false} IndexOfFirst(s: string, pat: string, i: nat)
    ensures
      match IndexOf(s, pat, i)
      case Some(p) => i <= p && At(s, pat, p) && forall k :: i <= k < p ==> !At(s, pat, k)
      case None => forall k :: i <= k ==> !At(s, pat, k)
    decreases |s| - i
  {
    if i + |pat| <= |s| && !At(s, pat, i) {
      IndexOfFirst(s, pat, i + 1);
    }
  }

  lemma {:induction false} AtOne(s: string, c: char)
    ensures forall p: nat :: At(s, [c], p) <==> p < |s| && s[p] == c
  {
    forall p: nat ensures At(s, [c], p) <==> p < |s| && s[p] == c {
      assert p < |s| ==> s[p..p + 1] == [s[p]];
    }
  }

  lemma {:induction false} AtTwo(s: string, c: char, d: char)
    ensures forall p: nat :: At(s, [c, d], p) <==> p + 1 < |s| && s[p] == c && s[p + 1] == d
  {
    forall p: nat ensures At(s, [c, d], p) <==> p + 1 < |s| && s[p] == c && s[p + 1] == d {
      assert p + 1 < |s| ==> s[p..p + 2] == [s[p], s[p + 1]];
    }
  }

  /** `s` is the part of `t` that starts at `d`. */
  predicate Window(t: string, d: nat, s: string) {
    d + |s| <= |t| && t[d..d + |s|] == s
  }

  lemma {:induction false} WindowAt(t: string, d: nat, s: string, pat: string, p: nat)
    requires Window(t, d, s) && p + |pat| <= |s|
    ensures At(s, pat, p) <==> At(t, pat, p + d)
  {
    assert forall k :: 0 <= k < |s| ==> s[k] == t[d..d + |s|][k] == t[d + k];
    assert s[p..p + |pat|] == t[p + d..p + d + |pat|];
  }

  lemma {:induction false} IndexOfIs(s: string, pat: string, i: nat, p: nat)
    requires i <= p && At(s, pat, p) && forall k :: i <= k < p ==> !At(s, pat, k)
    ensures IndexOf(s, pat, i) == Some(p)
    decreases p - i
  {
    if i < p {
      IndexOfIs(s, pat, i + 1, p);
    }
  }

  /** A search inside a window finds what the search in the whole text finds, as long as that lies inside. */
  lemma {:induction false} WindowIndexOf(t: string, d: nat, s: string, pat: string, i: nat)
    requires Window(t, d, s)
    ensures IndexOf(s, pat, i).Some? ==> IndexOf(t, pat, i + d) == Some(IndexOf(s, pat, i).value + d)
    ensures
      var r := IndexOf(t, pat, i + d);
      r.Some? && r.value + |pat| <= d + |s| ==> IndexOf(s, pat, i) == Some(r.value - d)
  {
    hide At, IndexOf, Window;
    var r, q := IndexOf(s, pat, i), IndexOf(t, pat, i + d);
    IndexOfFirst(s, pat, i);
    IndexOfFirst(t, pat, i + d);
    if r.Some? {
      WindowAt(t, d, s, pat, r.value);
      forall k | i + d <= k < r.value + d ensures !At(t, pat, k) {
        WindowAt(t, d, s, pat, k - d);
      }
      IndexOfIs(t, pat, i + d, r.value + d);
    } else if q.Some? && q.value + |pat| <= d + |s| {
      WindowAt(t, d, s, pat, q.value - d);
      assert false;
    }
  }

  /** The end of the run of word characters that starts at `i`. */
  function WordEnd(s: string, i: nat): (j: nat)
    requires i <= |s|
    ensures i <= j <= |s|
    decreases |s| - i
  {
    if i < |s| && IsWord(s[i]) then WordEnd(s, i + 1) else i
  }

  lemma {:induction false} WordEndIs(s: string, i: nat, e: nat)
    requires i <= e <= |s| && (forall k :: i <= k < e ==> IsWord(s[k])) && (e < |s| ==> !IsWord(s[e]))
    ensures WordEnd(s, i) == e
    decreases e - i
  {
    if i < e {
      WordEndIs(s, i + 1, e);
    }
  }

  lemma {:induction false} WordEndLaws(s: string, i: nat)
    requires i <= |s|
    ensures forall k :: i <= k < WordEnd(s, i) ==> IsWord(s[k])
    ensures WordEnd(s, i) < |s| ==> !IsWord(s[WordEnd(s, i)])
    decreases |s| - i
  {
    if i < |s| && IsWord(s[i]) {
      WordEndLaws(s, i + 1);
    }
  }

  /** Number of leading space characters. */
  function Lead(s: string): (k: nat)
    ensures k <= |s| && AllSpace(s[..k])
    ensures k < |s| ==> !IsSpace(s[k])
  {
    if s != "" && IsSpace(s[0]) then 1 + Lead(s[1..]) else 0
  }

  /** Where the trailing space characters start. */
  function Trail(s: string): (e: nat)
    ensures e <= |s| && AllSpace(s[e..])
    ensures 0 < e ==> !IsSpace(s[e - 1])
  {
    if s != "" && IsSpace(s[|s| - 1]) then Trail(s[..|s| - 1]) else |s|
  }

  function TrimEnd(s: string): (r: string)
    ensures r <= s
  {
    s[..Trail(s)]
  }

  function Trim(s: string): string {
    TrimEnd(s[Lead(s)..])
  }

  lemma {:induction false} TrailOfSpace(x: string, w: string)
    requires (x != "" ==> !IsSpace(x[|x| - 1])) && AllSpace(w)
    ensures Trail(x + w) == |x|
  {
    if w == "" {
      assert x + w == x;
    } else {
      var v := w[..|w| - 1];
      TrailOfSpace(x, v);
      assert (x + w)[..|x + w| - 1] == x + v;
    }
  }

  lemma {:induction false} TrimEndUnique(x: string, w: string)
    requires (x != "" ==> !IsSpace(x[|x| - 1])) && AllSpace(w)
    ensures TrimEnd(x + w) == x
  {
    TrailOfSpace(x, w);
    assert (x + w)[..|x|] == x;
  }

  function LowerChar(c: char): char {
    if 'A' <= c <= 'Z' then c - 'A' + 'a' else c
  }

  function LowerAll(s: string): (r: string)
    ensures |r| == |s|
  {
    if s == "" then "" else [LowerChar(s[0])] + LowerAll(s[1..])
  }

  function Upper(s: string): string {
    if s == "" then "" else [if 'a' <= s[0] <= 'z' then s[0] - 'a' + 'A' else s[0]] + Upper(s[1..])
  }

  /** The parts with `sep` between neighbours. */
  function Join(parts: seq<string>, sep: string): string {
    if parts == [] then ""
    else if |parts| == 1 then parts[0]
    else parts[0] + (sep + Join(parts[1..], sep))
  }

  /** Names compare without case and surrounding space. */
  function Norm(s: string): string {
    LowerAll(Trim(s))
  }

  lemma {:induction false} Assoc<T>(x: seq<T>, y: seq<T>, z: seq<T>)
    ensures x + (y + z) == x + y + z
  {
  }

  /** A suffix made of two parts, taken apart. */
  lemma {:induction false} SuffixSplit(t: string, d: nat, a: string, b: string)
    requires d <= |t| && t[d..] == a + b
    ensures d + |a| <= |t| && t[d..d + |a|] == a && t[d + |a|..] == b
    ensures b != "" ==> d + |a| < |t| && t[d + |a|] == b[0]
  {
    assert t[d..d + |a|] == (a + b)[..|a|];
    assert t[d + |a|..] == (a + b)[|a|..];
    assert b != "" ==> t[d + |a|] == t[d + |a|..][0];
  }

  function Digit(d: nat): char
    requires d < 10
  {
    '0' + d as char
  }

  function DigitValue(c: char): nat
    requires IsDigit(c)
  {
    (c - '0') as nat
  }

  /** Decimal digits of `n`. */
  function Dec(n: nat): (r: string)
    ensures r != "" && forall k :: 0 <= k < |r| ==> IsDigit(r[k])
  {
    if n < 10 then [Digit(n)] else Dec(n / 10) + [Digit(n % 10)]
  }

  function ParseDec(s: string): nat
    requires forall k :: 0 <= k < |s| ==> IsDigit(s[k])
  {
    if s == "" then 0 else 10 * ParseDec(s[..|s| - 1]) + DigitValue(s[|s| - 1])
  }

  lemma {:induction false} ParseDecOfDec(n: nat)
    ensures ParseDec(Dec(n)) == n
  {
    if n >= 10 {
      ParseDecOfDec(n / 10);
      assert Dec(n)[..|Dec(n)| - 1] == Dec(n / 10);
    } else {
      assert Dec(n)[..0] == "";
    }
  }
}
