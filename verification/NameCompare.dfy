/** When two names are the same up to surrounding space and letter case. */
module NameCompare {
  import opened Text

  /** `s[i..j]` is what is left without the space around it. */
  predicate Core(s: string, i: nat, j: nat) {
    && i <= j <= |s|
    && (forall k :: 0 <= k < i ==> IsSpace(s[k])) && (forall k :: j <= k < |s| ==> IsSpace(s[k]))
    && (i < j ==> !IsSpace(s[i]) && !IsSpace(s[j - 1]))
  }

  /** The same character, or the two forms of one letter. */
  predicate SameLetter(c: char, d: char) {
    || c == d
    || ('A' <= c <= 'Z' && d as int == c as int + 32)
    || ('a' <= c <= 'z' && d as int == c as int - 32)
  }

  predicate SameLetters(s: string, t: string) {
    |s| == |t| && forall k :: 0 <= k < |s| ==> SameLetter(s[k], t[k])
  }

  ghost predicate SameName(s: string, t: string) {
    exists i: nat, j: nat, k: nat, l: nat :: Core(s, i, j) && Core(t, k, l) && SameLetters(s[i..j], t[k..l])
  }

  lemma {:induction false} LowerAt(s: string, k: nat)
    requires k < |s|
    ensures LowerAll(s)[k] == LowerChar(s[k])
  {
    if k > 0 {
      LowerAt(s[1..], k - 1);
    }
  }

  lemma {:induction false} LowerSame(s: string, t: string)
    ensures LowerAll(s) == LowerAll(t) <==> SameLetters(s, t)
  {
    if |s| == |t| {
      forall k | 0 <= k < |s| ensures LowerAll(s)[k] == LowerAll(t)[k] <==> SameLetter(s[k], t[k]) {
        LowerAt(s, k);
        LowerAt(t, k);
        CharSame(s[k], t[k]);
      }
    }
  }

  lemma {:induction false} CharSame(c: char, d: char)
    ensures LowerChar(c) == LowerChar(d) <==> SameLetter(c, d)
  {
  }

  /** What `Trim` leaves is the core of the text. */
  lemma {:induction false} TrimIsCore(s: string)
    ensures var i := Lead(s); var j := i + Trail(s[i..]); Core(s, i, j) && Trim(s) == s[i..j]
  {
    var i := Lead(s);
    var r := s[i..];
    var e := Trail(r);
    forall k | 0 <= k < i ensures IsSpace(s[k]) {
      assert s[..i][k] == s[k];
    }
    forall k | i + e <= k < |s| ensures IsSpace(s[k]) {
      assert r[e..][k - i - e] == s[k];
    }
    assert r[..e] == s[i..i + e];
    if e > 0 {
      assert r[e - 1] == s[i + e - 1];
    }
  }

  /** A text has one core, up to where an empty one stands. */
  lemma {:induction false} OneCore(s: string, i: nat, j: nat, k: nat, l: nat)
    requires Core(s, i, j) && Core(s, k, l)
    ensures s[i..j] == s[k..l]
  {
    if i < j {
      assert k <= i && j <= l;
    }
  }

  lemma {:induction false} SameNameIs(s: string, t: string, i: nat, j: nat, k: nat, l: nat)
    requires Core(s, i, j) && Core(t, k, l)
    ensures SameName(s, t) <==> SameLetters(s[i..j], t[k..l])
  {
    if SameName(s, t) {
      var a: nat, b: nat, c: nat, d: nat :| Core(s, a, b) && Core(t, c, d) && SameLetters(s[a..b], t[c..d]);
      OneCore(s, a, b, i, j);
      OneCore(t, c, d, k, l);
    }
    hide Core, SameLetters;
  }

  /** Comparing in lower case without surrounding space is comparing names. */
  lemma {:induction false} NormMeans(s: string, t: string)
    ensures Norm(s) == Norm(t) <==> SameName(s, t)
  {
    TrimIsCore(s);
    TrimIsCore(t);
    LowerSame(Trim(s), Trim(t));
    hide SameName, Core, SameLetters, Trim, LowerAll, Lead, Trail;
    var i, k := Lead(s), Lead(t);
    SameNameIs(s, t, i, i + Trail(s[i..]), k, k + Trail(t[k..]));
  }

  /** `upper` is the text with its small letters made great. */
  predicate UpperOf(text: string, upper: string) {
    && |upper| == |text|
    && forall k :: 0 <= k < |text| ==> upper[k] as int == if 'a' <= text[k] <= 'z' then text[k] as int - 32 else text[k] as int
  }

  lemma {:induction false} UpperAt(s: string)
    ensures |Upper(s)| == |s|
    ensures forall k :: 0 <= k < |s| ==> Upper(s)[k] == if 'a' <= s[k] <= 'z' then s[k] - 'a' + 'A' else s[k]
  {
    if s != "" {
      UpperAt(s[1..]);
    }
  }

  lemma {:induction false} UpperMeans(s: string, t: string)
    ensures t == Upper(s) <==> UpperOf(s, t)
  {
    UpperAt(s);
    hide Upper;
    if UpperOf(s, t) {
      assert forall k :: 0 <= k < |s| ==> t[k] == Upper(s)[k];
    }
  }
}
