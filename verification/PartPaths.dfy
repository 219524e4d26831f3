/** The names of parts and runs, spelled out in characters. */
module PartPaths {
  import opened Text
  import opened Decimals
  import opened PartWriters

  // ---------------------------------------------------------------- numbers

  /** Five digits or, for a greater number, as many as it takes. */
  predicate PartNumber(s: string, n: nat) {
    SpellsNumber(s, n) && |s| >= 5 && (|s| > 5 ==> s[0] != '0')
  }

  lemma {:induction false} ZerosSpell(k: nat)
    requires k > 0
    ensures SpellsNumber(Zeros(k), 0)
  {
    assert forall j :: 0 <= j < |Zeros(k)| ==> Zeros(k)[j] == '0' by {
      ZerosAre(k);
    }
    ZerosAre(k);
    AllZero(Zeros(k));
  }

  lemma {:induction false} ZerosAre(k: nat)
    ensures |Zeros(k)| == k && forall j :: 0 <= j < k ==> Zeros(k)[j] == '0'
  {
    if k > 0 {
      ZerosAre(k - 1);
    }
  }

  lemma {:induction false} AllZero(s: string)
    requires s != "" && forall j :: 0 <= j < |s| ==> s[j] == '0'
    ensures SpellsNumber(s, 0)
  {
    if |s| > 1 {
      AllZero(s[..|s| - 1]);
    }
  }

  /** Zeros in front do not change the number. */
  lemma {:induction false} PaddedSpells(k: nat, s: string, n: nat)
    requires SpellsNumber(s, n)
    ensures SpellsNumber(Zeros(k) + s, n)
    decreases |s|
  {
    var t := Zeros(k) + s;
    ZerosAre(k);
    if k == 0 {
      assert t == s;
    } else if |s| == 1 {
      assert t[..|t| - 1] == Zeros(k);
      ZerosSpell(k);
    } else {
      PaddedSpells(k, s[..|s| - 1], n / 10);
      assert t[..|t| - 1] == Zeros(k) + s[..|s| - 1];
    }
  }

  /** The number in a part name. */
  lemma {:induction false} Dec5Means(s: string, n: nat)
    ensures s == Dec5(n) <==> PartNumber(s, n)
  {
    Dec5IsNumber(n);
    hide Dec5, SpellsNumber;
    if PartNumber(s, n) {
      if |s| <= |Dec5(n)| {
        OneSpelling(s, Dec5(n), n);
      } else {
        OneSpelling(Dec5(n), s, n);
      }
    }
  }

  lemma {:induction false} Dec5IsNumber(n: nat)
    ensures PartNumber(Dec5(n), n)
  {
    DecSpells(n);
    hide Dec, SpellsNumber;
    if |Dec(n)| < 5 {
      PaddedSpells(5 - |Dec(n)|, Dec(n), n);
      ZerosAre(5 - |Dec(n)|);
    } else if n == 0 {
      DecOfZero();
    }
  }

  lemma {:induction false} DecOfZero()
    ensures |Dec(0)| == 1
  {
  }

  /** The path of a part: its directory, its number and the ending of its format. */
  lemma {:induction false} KeyMeans(path: string, n: nat, f: Format, key: string)
    ensures
      key == Key(path, n, f)
      <==> exists s ::
        && PartNumber(s, n)
        && key == path + "/part-" + s + (if f.Parquet? then ".parquet" else if f.Jsonl? then ".jsonl" else ".csv")
  {
    Dec5IsNumber(n);
    var tail := "." + Extension(f);
    assert tail == if f.Parquet? then ".parquet" else if f.Jsonl? then ".jsonl" else ".csv";
    KeyIs(path, n, f);
    hide Key, Dec5, PartNumber, Extension;
    forall s | PartNumber(s, n) ensures s == Dec5(n) {
      Dec5Means(s, n);
    }
  }

  lemma {:induction false} KeyIs(path: string, n: nat, f: Format)
    ensures Key(path, n, f) == path + "/part-" + Dec5(n) + ("." + Extension(f))
  {
    hide Dec5, Extension;
    var x, z := Dec5(n), "." + Extension(f);
    assert "part-" + x + "." + Extension(f) == "part-" + x + z;
    assert path + "/" + ("part-" + x + z) == path + "/part-" + x + z;
  }

  // ---------------------------------------------------------------- directories

  predicate Slashes(s: string) {
    forall k :: 0 <= k < |s| ==> s[k] == '/'
  }

  /** `t` is `s` without the slashes at its ends. */
  ghost predicate WithoutSlashes(s: string, t: string) {
    && (t != "" ==> t[0] != '/' && t[|t| - 1] != '/')
    && exists a, b :: Slashes(a) && Slashes(b) && s == a + t + b
  }

  lemma {:induction false} StripOf(a: string, t: string, b: string)
    requires Slashes(a) && Slashes(b) && (t != "" ==> t[0] != '/' && t[|t| - 1] != '/')
    ensures StripSlashes(a + t + b) == t
    decreases |a| + |b|
  {
    var s := a + t + b;
    if a != "" {
      assert s[1..] == a[1..] + t + b;
      StripOf(a[1..], t, b);
    } else if t == "" && b != "" {
      assert s[1..] == "" + t + b[1..];
      StripOf("", t, b[1..]);
    } else if b != "" {
      assert s[0] == t[0];
      assert s[..|s| - 1] == a + t + b[..|b| - 1];
      StripOf(a, t, b[..|b| - 1]);
    } else {
      assert s == t;
    }
  }

  lemma {:induction false} MoreSlashes(a: string, t: string, b: string)
    requires Slashes(a) && Slashes(b)
    ensures Slashes(['/'] + a) && ['/'] + (a + t + b) == (['/'] + a) + t + b
    ensures Slashes(b + ['/']) && (a + t + b) + ['/'] == a + t + (b + ['/'])
  {
  }

  lemma {:induction false} StrippedParts(s: string) returns (a: string, b: string)
    ensures Slashes(a) && Slashes(b) && s == a + StripSlashes(s) + b
    ensures StripSlashes(s) != "" ==> StripSlashes(s)[0] != '/' && StripSlashes(s)[|StripSlashes(s)| - 1] != '/'
    decreases |s|
  {
    hide Slashes;
    NoSlashes();
    if s != "" && s[0] == '/' {
      a, b := StrippedParts(s[1..]);
      MoreSlashes(a, StripSlashes(s), b);
      assert s == ['/'] + s[1..];
      a := ['/'] + a;
    } else if s != "" && s[|s| - 1] == '/' {
      a, b := StrippedParts(s[..|s| - 1]);
      MoreSlashes(a, StripSlashes(s), b);
      assert s == s[..|s| - 1] + ['/'];
      b := b + ['/'];
    } else {
      a, b := "", "";
      assert s == "" + s + "";
    }
  }

  lemma {:induction false} NoSlashes()
    ensures Slashes("")
  {
  }

  lemma {:induction false} StripMeans(s: string, t: string)
    ensures t == StripSlashes(s) <==> WithoutSlashes(s, t)
  {
    var x, y := StrippedParts(s);
    if WithoutSlashes(s, t) {
      var a, b :| Slashes(a) && Slashes(b) && s == a + t + b;
      StripOf(a, t, b);
    }
  }

  function NotEmpty(parts: seq<string>): seq<string> {
    if parts == [] then [] else (if parts[0] == "" then [] else [parts[0]]) + NotEmpty(parts[1..])
  }

  lemma {:induction false} NotEmptyAppend(parts: seq<string>, last: string)
    ensures NotEmpty(parts + [last]) == NotEmpty(parts) + if last == "" then [] else [last]
  {
    if parts == [] {
      assert [] + [last] == [last];
    } else {
      NotEmptyAppend(parts[1..], last);
      assert (parts + [last])[1..] == parts[1..] + [last];
    }
  }

  lemma {:induction false} JoinLast(parts: seq<string>, last: string)
    requires parts != []
    ensures Join(parts + [last], "/") == Join(parts, "/") + "/" + last
  {
    if |parts| == 1 {
      assert (parts + [last])[1..] == [last];
    } else {
      JoinLast(parts[1..], last);
      assert (parts + [last])[1..] == parts[1..] + [last];
    }
  }

  lemma {:induction false} JoinOfNone(parts: seq<string>)
    ensures Join(NotEmpty(parts), "/") == "" <==> NotEmpty(parts) == []
  {
    if parts != [] {
      JoinOfNone(parts[1..]);
      if parts[0] != "" {
        assert NotEmpty(parts)[0] == parts[0];
      }
    }
  }

  /** A path is its parts that are not empty, with a slash between neighbours. */
  lemma {:induction false} PathMeans(parts: seq<string>)
    ensures JoinPath(parts) == Join(NotEmpty(parts), "/")
    decreases |parts|
  {
    if parts != [] {
      var init, last := parts[..|parts| - 1], parts[|parts| - 1];
      assert parts == init + [last];
      PathMeans(init);
      NotEmptyAppend(init, last);
      JoinOfNone(init);
      hide NotEmpty;
      if last == "" {
        assert NotEmpty(init) + [] == NotEmpty(init);
      } else if NotEmpty(init) != [] {
        JoinLast(NotEmpty(init), last);
      } else {
        assert NotEmpty(init) + [last] == [last];
      }
    }
  }

  /** The path of a run in the bucket and on disk: prefix without outer slashes, table, run, as far as they are given. */
  lemma {:induction false} RunPathsMean(root: string, base: string, spec: WriteSpec, prefix: string)
    requires WithoutSlashes(spec.pathPrefix, prefix)
    ensures
      var run := if spec.runId == "" then "" else "run_id=" + spec.runId;
      && RunPrefix(spec) == Join(NotEmpty([prefix, spec.table, run]), "/")
      && RunDir(root, base, spec) == Join(NotEmpty([root, base, prefix, spec.table, run]), "/")
  {
    StripMeans(spec.pathPrefix, prefix);
    PathMeans([prefix, spec.table, RunPart(spec)]);
    PathMeans([root, base, prefix, spec.table, RunPart(spec)]);
    hide JoinPath, Join, NotEmpty, StripSlashes;
  }

  lemma {:induction false} MiddleFound(head: string, tail: string, key: string)
    requires head <= key && |head| + |tail| <= |key| && key[|key| - |tail|..] == tail
    ensures key == head + (key[|head|..|key| - |tail|] + tail)
  {
  }

  lemma {:induction false} MiddleStands(head: string, x: string, tail: string)
    ensures
      var key := head + (x + tail);
      head <= key && |head| + |tail| <= |key| && key[|key| - |tail|..] == tail && key[|head|..] == x + tail
  {
    var key := head + (x + tail);
    assert key == head + x + tail;
  }

  lemma {:induction false} NoSlashIn(x: string, tail: string)
    requires '/' !in tail
    ensures '/' !in x + tail <==> '/' !in x
  {
    assert forall k :: 0 <= k < |x| ==> (x + tail)[k] == x[k];
  }

  lemma {:induction false} EndingHasNoSlash(f: Format)
    ensures '/' !in "." + Extension(f)
  {
  }

  lemma {:induction false} IsPartIs(dir: string, f: Format, key: string)
    ensures
      var head, tail := dir + "/part-", "." + Extension(f);
      IsPart(dir, f, key) <==> head <= key && |head| + |tail| <= |key| && key[|key| - |tail|..] == tail && '/' !in key[|head|..]
  {
    hide Extension;
  }

  /** What the pattern for the parts of a format matches: any text without a slash in the place of the number. */
  lemma {:induction false} IsPartMeans(dir: string, f: Format, key: string)
    ensures IsPart(dir, f, key) <==> exists x :: '/' !in x && key == (dir + "/part-") + (x + ("." + Extension(f)))
  {
    hide *;
    var head, tail := dir + "/part-", "." + Extension(f);
    EndingHasNoSlash(f);
    IsPartIs(dir, f, key);
    if IsPart(dir, f, key) {
      MiddleFound(head, tail, key);
      var x := key[|head|..|key| - |tail|];
      MiddleStands(head, x, tail);
      NoSlashIn(x, tail);
    }
    if x :| '/' !in x && key == head + (x + tail) {
      MiddleStands(head, x, tail);
      NoSlashIn(x, tail);
    }
  }
}
