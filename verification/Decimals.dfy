/** Numbers written in decimal digits, spelled out from the last digit on. */
module Decimals {
  import opened Text

  /** The text spells the number in decimal digits, perhaps with zeros in front. */
  predicate SpellsNumber(s: string, n: nat) {
    && s != "" && '0' <= s[|s| - 1] <= '9' && (s[|s| - 1] - '0') as nat == n % 10
    && if |s| == 1 then n < 10 else SpellsNumber(s[..|s| - 1], n / 10)
  }

  lemma {:induction false} DecSpells(n: nat)
    ensures SpellsNumber(Dec(n), n) && (n > 0 ==> Dec(n)[0] != '0')
  {
    if n >= 10 {
      DecSpells(n / 10);
      assert Dec(n)[..|Dec(n)| - 1] == Dec(n / 10);
    }
  }

  lemma {:induction false} SpellsZero(s: string)
    requires SpellsNumber(s, 0)
    ensures s[0] == '0'
  {
    if |s| > 1 {
      SpellsZero(s[..|s| - 1]);
      assert s[..|s| - 1][0] == s[0];
    }
  }

  /** Of two spellings the longer starts with a zero; of the same length they are the same. */
  lemma {:induction false} OneSpelling(s: string, t: string, n: nat)
    requires SpellsNumber(s, n) && SpellsNumber(t, n) && |s| <= |t|
    ensures if |s| == |t| then s == t else t[0] == '0'
  {
    var a, b := s[..|s| - 1], t[..|t| - 1];
    assert s == a + [s[|s| - 1]] && t == b + [t[|t| - 1]];
    if |s| == 1 {
      if |t| > 1 {
        SpellsZero(b);
        assert b[0] == t[0];
      }
    } else {
      OneSpelling(a, b, n / 10);
      assert b[0] == t[0];
    }
  }

  /** Reading digits gives the number they spell. */
  lemma {:induction false} ParseSpells(s: string, n: nat)
    requires s != "" && forall k :: 0 <= k < |s| ==> IsDigit(s[k])
    ensures ParseDec(s) == n <==> SpellsNumber(s, n)
  {
    if |s| > 1 {
      ParseSpells(s[..|s| - 1], n / 10);
    }
  }

  lemma {:induction false} SpellsDigits(s: string, n: nat)
    requires SpellsNumber(s, n)
    ensures s != "" && forall k :: 0 <= k < |s| ==> IsDigit(s[k])
  {
    if |s| > 1 {
      var t := s[..|s| - 1];
      SpellsDigits(t, n / 10);
      assert forall k :: 0 <= k < |t| ==> s[k] == t[k];
    }
  }
}
