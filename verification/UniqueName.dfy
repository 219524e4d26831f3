/** The name generator: the next free number behind a stem. */
module UniqueName {
  import opened Text
  import opened Decimals
  import opened NameCompare

  /** Where the run of digits at the end starts. */
  function DigitTail(s: string): (k: nat)
    ensures k <= |s| && forall j :: k <= j < |s| ==> IsDigit(s[j])
  {
    if s != "" && IsDigit(s[|s| - 1]) then DigitTail(s[..|s| - 1]) else |s|
  }

  predicate IsLineBreak(c: char) {
    c == '\n' || c == '\r' || c == '\U{2028}' || c == '\U{2029}'
  }

  /** The match of `^(.*\S)\s+(\d+)$`: a stem on one line, space, and a number. */
  function Numbered(s: string): Option<(string, nat)> {
    var k := DigitTail(s);
    var e := Trail(s[..k]);
    if k < |s| && 0 < e < k && forall j :: 0 <= j < e ==> !IsLineBreak(s[j]) then Some((s[..e], ParseDec(s[k..]))) else None
  }

  function Candidate(stem: string, n: nat): string {
    stem + " " + Dec(n)
  }

  /** `new Set([...taken].map(...))`. */
  function Used(taken: seq<string>): set<string> {
    if taken == [] then {} else {Norm(taken[0])} + Used(taken[1..])
  }

  lemma {:induction false} UsedSize(taken: seq<string>)
    ensures |Used(taken)| <= |taken|
    ensures forall t :: t in taken ==> Norm(t) in Used(taken)
  {
    if taken != [] {
      UsedSize(taken[1..]);
      hide Norm;
    }
  }

  /** The numbers from `from` up to `end` behind the stem, as the comparison sees them. */
  function Tried(stem: string, from: nat, end: nat): set<string>
    requires from <= end
    decreases end
  {
    if from == end then {} else Tried(stem, from, end - 1) + {LowerAll(Candidate(stem, end - 1))}
  }

  lemma {:induction false} LowerParts(a: string, b: string)
    ensures LowerAll(a + b) == LowerAll(a) + LowerAll(b)
  {
    if a == "" {
      assert a + b == b;
    } else {
      LowerParts(a[1..], b);
      assert (a + b)[1..] == a[1..] + b;
      assert [LowerChar(a[0])] + (LowerAll(a[1..]) + LowerAll(b)) == [LowerChar(a[0])] + LowerAll(a[1..]) + LowerAll(b);
    }
  }

  lemma {:induction false} LowerDigits(s: string)
    requires forall j :: 0 <= j < |s| ==> IsDigit(s[j])
    ensures LowerAll(s) == s
  {
    if s != "" {
      LowerDigits(s[1..]);
      assert s == [s[0]] + s[1..];
    }
  }

  lemma {:induction false} CandidateLower(stem: string, n: nat)
    ensures LowerAll(Candidate(stem, n)) == LowerAll(stem + " ") + Dec(n)
  {
    LowerParts(stem + " ", Dec(n));
    LowerDigits(Dec(n));
    hide LowerAll, Dec;
  }

  lemma {:induction false} CancelHead(a: string, b: string, c: string)
    requires a + b == a + c
    ensures b == c
  {
    assert b == (a + b)[|a|..] && c == (a + c)[|a|..];
  }

  /** Different numbers give names that differ also without case. */
  lemma {:induction false} CandidatesDiffer(stem: string, m: nat, n: nat)
    requires LowerAll(Candidate(stem, m)) == LowerAll(Candidate(stem, n))
    ensures m == n
  {
    CandidateLower(stem, m);
    CandidateLower(stem, n);
    ParseDecOfDec(m);
    ParseDecOfDec(n);
    hide LowerAll, Dec, ParseDec, Candidate;
    CancelHead(LowerAll(stem + " "), Dec(m), Dec(n));
  }

  lemma {:induction false} TriedHas(stem: string, from: nat, end: nat, x: string)
    requires from <= end
    ensures x in Tried(stem, from, end) <==> (exists n :: from <= n < end && x == LowerAll(Candidate(stem, n)))
    decreases end
  {
    hide LowerAll, Candidate;
    if from < end {
      TriedHas(stem, from, end - 1, x);
    }
  }

  lemma {:induction false} TriedSize(stem: string, from: nat, end: nat)
    requires from <= end
    ensures |Tried(stem, from, end)| == end - from
    decreases end
  {
    hide LowerAll, Candidate;
    if from < end {
      TriedSize(stem, from, end - 1);
      var x := LowerAll(Candidate(stem, end - 1));
      TriedHas(stem, from, end - 1, x);
      if x in Tried(stem, from, end - 1) {
        var n :| from <= n < end - 1 && x == LowerAll(Candidate(stem, n));
        CandidatesDiffer(stem, n, end - 1);
      }
    }
  }

  lemma {:induction false} SubsetSize<T>(a: set<T>, b: set<T>)
    requires a <= b
    ensures |a| <= |b|
  {
    assert b == a + (b - a);
    assert |b| == |a| + |b - a|;
  }

  /** A name that starts and ends with something else than space. */
  predicate Tight(s: string) {
    s != "" && !IsSpace(s[0]) && !IsSpace(s[|s| - 1])
  }

  /** What a number can follow: a text that starts with something else than space. */
  predicate Stem(s: string) {
    s != "" && !IsSpace(s[0])
  }

  lemma {:induction false} TightTrims(s: string)
    requires Tight(s)
    ensures Trim(s) == s
  {
    assert s[0..] == s && s[..|s|] == s;
  }

  lemma {:induction false} TrimmedIsTight(s: string)
    requires Trim(s) != ""
    ensures Tight(Trim(s))
  {
    var t := s[Lead(s)..];
    assert Trail(t) <= |t|;
  }

  lemma {:induction false} CandidateTight(stem: string, n: nat)
    requires Stem(stem)
    ensures Tight(Candidate(stem, n))
  {
    assert IsDigit(Dec(n)[|Dec(n)| - 1]);
    hide Dec;
  }

  /** The stem and the number behind which the search starts. */
  function Start(base: string): (string, nat) {
    match Numbered(base)
    case Some((stem, n)) => (stem, n)
    case None => (base, 1)
  }

  lemma {:induction false} StemStarts(base: string)
    requires Tight(base)
    ensures Stem(Start(base).0)
  {
    hide ParseDec;
  }

  /** `uniqueName`; `untitled` is the name that stands in for an empty one. */
  method MakeUnique(desired: string, taken: seq<string>, untitled: string) returns (name: string, ghost tries: nat)
    requires Tight(untitled)
    ensures forall t :: t in taken ==> Norm(t) != Norm(name) && !SameName(t, name)
    ensures
      var base := if Trim(desired) != "" then Trim(desired) else untitled;
      && (Norm(base) !in Used(taken) ==> name == base && tries == 0)
      && (Norm(base) in Used(taken) ==>
            var (stem, n) := Start(base);
            && 0 < tries <= |taken| + 1 && name == Candidate(stem, n + tries)
            && forall m :: n < m < n + tries ==> Norm(Candidate(stem, m)) in Used(taken))
  {
    hide *;
    var used := Used(taken);
    UsedSize(taken);
    var base := if Trim(desired) != "" then Trim(desired) else untitled;
    if Trim(desired) != "" {
      TrimmedIsTight(desired);
    }
    NormOfTight(base);
    tries := 0;
    if LowerAll(base) !in used {
      NotSame(taken, base);
      return base, tries;
    }
    var (stem, first) := Start(base);
    StemStarts(base);
    var n := first + 1;
    name := Candidate(stem, n);
    tries := 1;
    ghost var low := n;
    NoneTried(stem, low);
    while LowerAll(name) in used
      invariant low == first + 1 && n == first + tries && 0 < tries && name == Candidate(stem, n)
      invariant Tried(stem, low, n) <= used
      invariant forall m :: first < m < n ==> LowerAll(Candidate(stem, m)) in used
      decreases |used - Tried(stem, low, n)|
    {
      TriedGrows(stem, low, n, used);
      n := n + 1;
      name := Candidate(stem, n);
      tries := tries + 1;
    }
    TriedSize(stem, low, n);
    SubsetSize(Tried(stem, low, n), used);
    CandidateNorm(stem, n);
    NotSame(taken, name);
    forall m | first < m < first + tries ensures Norm(Candidate(stem, m)) in used {
      CandidateNorm(stem, m);
    }
  }

  lemma {:induction false} NormOfTight(s: string)
    requires Tight(s)
    ensures Norm(s) == LowerAll(s)
  {
    TightTrims(s);
  }

  lemma {:induction false} CandidateNorm(stem: string, n: nat)
    requires Stem(stem)
    ensures Norm(Candidate(stem, n)) == LowerAll(Candidate(stem, n))
  {
    CandidateTight(stem, n);
    NormOfTight(Candidate(stem, n));
  }

  lemma {:induction false} NoneTried(stem: string, n: nat)
    ensures Tried(stem, n, n) == {}
  {
  }

  /** One more number is tried: it is new among those tried, so fewer used names are left. */
  lemma {:induction false} TriedGrows(stem: string, from: nat, n: nat, used: set<string>)
    requires from <= n && Tried(stem, from, n) <= used && LowerAll(Candidate(stem, n)) in used
    ensures Tried(stem, from, n + 1) <= used
    ensures |used - Tried(stem, from, n + 1)| < |used - Tried(stem, from, n)|
  {
    var x := LowerAll(Candidate(stem, n));
    hide LowerAll, Candidate;
    TriedHas(stem, from, n, x);
    assert x !in Tried(stem, from, n) by {
      forall m | from <= m < n ensures x != LowerAll(Candidate(stem, m)) {
        if x == LowerAll(Candidate(stem, m)) {
          CandidatesDiffer(stem, m, n);
        }
      }
    }
    assert used - Tried(stem, from, n + 1) == used - Tried(stem, from, n) - {x};
  }

  lemma {:induction false} NotSame(taken: seq<string>, name: string)
    requires Norm(name) !in Used(taken)
    ensures forall t :: t in taken ==> Norm(t) != Norm(name) && !SameName(t, name)
  {
    UsedSize(taken);
    hide Norm, SameName, Used;
    forall t | t in taken ensures !SameName(t, name) {
      NormMeans(t, name);
    }
  }

  // ---------------------------------------------------------------- the number at the end, in characters

  /** The number in decimal digits without zeros in front. */
  predicate PlainNumber(digits: string, n: nat) {
    digits != "" && SpellsNumber(digits, n) && if n == 0 then |digits| == 1 else digits[0] != '0'
  }

  /** The name is the stem, a blank and the number. */
  lemma {:induction false} CandidateMeans(stem: string, n: nat, name: string)
    ensures
      name == Candidate(stem, n)
      <==> exists digits :: PlainNumber(digits, n) && name == stem + " " + digits
  {
    DecSpells(n);
    hide SpellsNumber;
    assert n == 0 ==> |Dec(n)| == 1;
    hide Dec;
    forall digits | PlainNumber(digits, n) ensures digits == Dec(n) {
      if |digits| <= |Dec(n)| {
        OneSpelling(digits, Dec(n), n);
      } else {
        OneSpelling(Dec(n), digits, n);
      }
    }
  }

  /** The name ends in space and a number; what stands before them is one line that does not end in space. */
  ghost predicate EndsInNumber(s: string, stem: string, n: nat) {
    exists gap, digits ::
      && s == stem + gap + digits && gap != "" && AllSpace(gap) && SpellsNumber(digits, n)
      && stem != "" && !IsSpace(stem[|stem| - 1]) && forall k :: 0 <= k < |stem| ==> !IsLineBreak(stem[k])
  }

  lemma {:induction false} DigitTailIs(a: string, digits: string)
    requires (a == "" || !IsDigit(a[|a| - 1])) && forall k :: 0 <= k < |digits| ==> IsDigit(digits[k])
    ensures DigitTail(a + digits) == |a|
  {
    var s := a + digits;
    if digits == "" {
      assert s == a;
    } else {
      var t := digits[..|digits| - 1];
      assert s[..|s| - 1] == a + t && s[|s| - 1] == digits[|digits| - 1];
      DigitTailIs(a, t);
    }
  }

  lemma {:induction false} NumberedSplit(s: string) returns (stem: string, gap: string, digits: string)
    requires Numbered(s).Some?
    ensures
      var (x, n) := Numbered(s).value;
      && x == stem && s == stem + gap + digits && gap != "" && AllSpace(gap) && stem != "" && !IsSpace(stem[|stem| - 1])
      && (forall k :: 0 <= k < |stem| ==> !IsLineBreak(stem[k]))
      && digits != "" && (forall k :: 0 <= k < |digits| ==> IsDigit(digits[k])) && n == ParseDec(digits)
  {
    hide ParseDec, DigitTail, Trail, IsSpace, IsLineBreak, IsDigit;
    var k := DigitTail(s);
    var u := s[..k];
    var e := Trail(u);
    stem, gap, digits := s[..e], u[e..], s[k..];
    assert stem == u[..e] && u == stem + gap && s == u + digits;
  }

  /** A name is taken for numbered exactly where it ends in a number, and the search starts behind it. */
  lemma {:induction false} NumberedMeans(s: string, stem: string, n: nat)
    ensures Numbered(s) == Some((stem, n)) <==> EndsInNumber(s, stem, n)
  {
    hide Numbered, SpellsNumber, IsSpace, IsLineBreak, ParseDec;
    if Numbered(s) == Some((stem, n)) {
      var x, gap, digits := NumberedSplit(s);
      ParseSpells(digits, n);
    }
    forall gap, digits |
      && s == stem + gap + digits && gap != "" && AllSpace(gap) && SpellsNumber(digits, n)
      && stem != "" && !IsSpace(stem[|stem| - 1]) && forall k :: 0 <= k < |stem| ==> !IsLineBreak(stem[k])
      ensures Numbered(s) == Some((stem, n))
    {
      NumberedFound(s, stem, gap, digits, n);
    }
  }

  lemma {:induction false} NumberedFound(s: string, stem: string, gap: string, digits: string, n: nat)
    requires s == stem + gap + digits && gap != "" && AllSpace(gap) && SpellsNumber(digits, n)
    requires stem != "" && !IsSpace(stem[|stem| - 1]) && forall k :: 0 <= k < |stem| ==> !IsLineBreak(stem[k])
    ensures Numbered(s) == Some((stem, n))
  {
    SpellsDigits(digits, n);
    ParseSpells(digits, n);
    GapEnds(stem, gap);
    hide SpellsNumber, IsSpace, IsLineBreak, ParseDec, DigitTail, Trail, AllSpace, IsDigit;
    DigitTailIs(stem + gap, digits);
    TrailOfSpace(stem, gap);
    var k := |stem + gap|;
    assert s[..k] == stem + gap && s[k..] == digits && s[..|stem|] == stem;
    assert forall j :: 0 <= j < |stem| ==> s[j] == stem[j];
  }

  lemma {:induction false} GapEnds(stem: string, gap: string)
    requires gap != "" && AllSpace(gap)
    ensures !IsDigit((stem + gap)[|stem + gap| - 1])
  {
    assert IsSpace(gap[|gap| - 1]);
  }

  /** The search goes on from the number of the name, or from one. */
  lemma {:induction false} StartMeans(base: string, stem: string, n: nat)
    ensures
      Start(base) == (stem, n)
      <==> EndsInNumber(base, stem, n) || (stem == base && n == 1 && forall x, m: nat :: !EndsInNumber(base, x, m))
  {
    var found := Numbered(base);
    hide Numbered, EndsInNumber;
    forall x, m: nat ensures found == Some((x, m)) <==> EndsInNumber(base, x, m) {
      NumberedMeans(base, x, m);
    }
  }

  /** A name is in use exactly when one of the taken names is the same up to space and case. */
  lemma {:induction false} UsedMeans(taken: seq<string>, name: string)
    ensures Norm(name) in Used(taken) <==> exists t :: t in taken && SameName(t, name)
  {
    if taken != [] {
      UsedMeans(taken[1..], name);
      NormMeans(taken[0], name);
      hide Norm, SameName;
      assert taken == [taken[0]] + taken[1..];
    }
  }
}
