/** Incremental reading: watermarks, and what two runs read together. */
module Incremental {
  import opened Text
  import opened Greedy
  import opened Batches

  /** `_max_watermark`: the largest key that is not null. */
  function MaxKey<R>(rows: seq<R>, key: R -> Option<int>): (m: Option<int>)
    ensures m.None? <==> forall k :: 0 <= k < |rows| ==> key(rows[k]).None?
    ensures m.Some? ==> exists k :: 0 <= k < |rows| && key(rows[k]) == m
    ensures m.Some? ==> forall k :: 0 <= k < |rows| && key(rows[k]).Some? ==> key(rows[k]).value <= m.value
  {
    if rows == [] then None
    else
      var n := |rows| - 1;
      var rest := MaxKey(rows[..n], key);
      if key(rows[n]).None? then
        assert rest.Some? ==> forall k :: 0 <= k < n ==> rows[..n][k] == rows[k];
        rest
      else if rest.None? then
        assert forall k :: 0 <= k < n ==> rows[..n][k] == rows[k];
        key(rows[n])
      else
        assert forall k :: 0 <= k < n ==> rows[..n][k] == rows[k];
        if rest.value <= key(rows[n]).value then key(rows[n]) else rest
  }

  /** The condition `key > watermark`; a null key never passes it. */
  predicate Passes<R>(r: R, mark: Option<int>, key: R -> Option<int>) {
    mark.Some? ==> key(r).Some? && key(r).value > mark.value
  }

  function Filter<R>(rows: seq<R>, mark: Option<int>, key: R -> Option<int>): seq<R> {
    if rows == [] then []
    else (if Passes(rows[0], mark, key) then [rows[0]] else []) + Filter(rows[1..], mark, key)
  }

  /** The rows whose key is not null. */
  function Keyed<R>(rows: seq<R>, key: R -> Option<int>): seq<R> {
    if rows == [] then []
    else (if key(rows[0]).Some? then [rows[0]] else []) + Keyed(rows[1..], key)
  }

  /** In ascending order of the key; rows without a key may stand anywhere. */
  predicate Ascending<R>(rows: seq<R>, key: R -> Option<int>) {
    forall i, j :: 0 <= i < j < |rows| && key(rows[i]).Some? && key(rows[j]).Some? ==> key(rows[i]).value <= key(rows[j]).value
  }

  /** A result of the query that `_build_select` makes; the database chooses the order among equal keys. */
  ghost predicate Answers<R>(result: seq<R>, table: seq<R>, mark: Option<int>, key: R -> Option<int>) {
    multiset(result) == multiset(Filter(table, mark, key)) && Ascending(result, key)
  }

  // ---------------------------------------------------------------- watermarks of batches

  lemma {:induction false} RowsOfAt<R, W>(bs: seq<Batch<R, W>>, k: nat)
    requires k < |bs|
    ensures |RowsOf(bs)| == |bs| && RowsOf(bs)[k] == bs[k].rows
  {
    if k > 0 {
      RowsOfAt(bs[1..], k - 1);
    } else {
      RowsOfAppend(bs, bs[0]);
    }
  }

  /** Batch `k` as a part of all rows. */
  lemma {:induction false} BatchAt<R, W>(bs: seq<Batch<R, W>>, k: nat)
    requires k < |bs|
    ensures |RowsOf(bs)| == |bs|
    ensures
      var rows, d := Concat(RowsOf(bs)), End(RowsOf(bs), k);
      d + |bs[k].rows| == End(RowsOf(bs), k + 1) <= |rows| && bs[k].rows == rows[d..d + |bs[k].rows|]
  {
    RowsOfAt(bs, k);
    hide RowsOf, Concat, End;
    EndStep(RowsOf(bs), k);
  }

  lemma {:induction false} EndsAscend<T>(groups: seq<seq<T>>, i: nat, j: nat)
    requires i <= j <= |groups|
    ensures End(groups, i) <= End(groups, j)
    decreases j - i
  {
    hide End;
    if i < j {
      EndStep(groups, i);
      EndsAscend(groups, i + 1, j);
    }
  }

  /** Of two parts of an ascending list the later one has the larger keys. */
  lemma {:induction false} LaterIsLarger<R>(rows: seq<R>, d: nat, a: seq<R>, e: nat, b: seq<R>, key: R -> Option<int>)
    requires Ascending(rows, key) && d + |a| <= e && e + |b| <= |rows|
    requires a == rows[d..d + |a|] && b == rows[e..e + |b|]
    ensures MaxKey(a, key).Some? && MaxKey(b, key).Some? ==> MaxKey(a, key).value <= MaxKey(b, key).value
  {
    hide MaxKey;
    if MaxKey(a, key).Some? && MaxKey(b, key).Some? {
      var p :| 0 <= p < |a| && key(a[p]) == MaxKey(a, key);
      var q :| 0 <= q < |b| && key(b[q]) == MaxKey(b, key);
      assert a[p] == rows[d + p] && b[q] == rows[e + q];
    }
  }

  lemma {:induction false} BatchMark<R>(
    bs: seq<Batch<R, int>>, rows: seq<R>, size: nat, mark: seq<R> -> Option<int>, key: R -> Option<int>, k: nat)
    requires Batched(bs, rows, size, mark) && k < |bs| && forall rs :: mark(rs) == MaxKey(rs, key)
    ensures bs[k].mark == MaxKey(bs[k].rows, key) && Concat(RowsOf(bs)) == rows
  {
    hide MaxKey, RowsOf, Concat;
  }

  /** The watermarks of successive batches never fall. */
  lemma {:induction false} MarksNeverFall<R>(
    bs: seq<Batch<R, int>>, rows: seq<R>, size: nat, mark: seq<R> -> Option<int>, key: R -> Option<int>, i: nat, j: nat)
    requires Batched(bs, rows, size, mark) && Ascending(rows, key) && forall rs :: mark(rs) == MaxKey(rs, key)
    requires i < j < |bs| && bs[i].mark.Some? && bs[j].mark.Some?
    ensures bs[i].mark.value <= bs[j].mark.value
  {
    hide MaxKey, RowsOf, Concat, End, Batched, Ascending;
    BatchMark(bs, rows, size, mark, key, i);
    BatchMark(bs, rows, size, mark, key, j);
    BatchAt(bs, i);
    BatchAt(bs, j);
    EndsAscend(RowsOf(bs), i + 1, j);
    LaterIsLarger(rows, End(RowsOf(bs), i), bs[i].rows, End(RowsOf(bs), j), bs[j].rows, key);
  }

  /** The largest watermark of the batches, which the caller keeps. */
  function LargestMark<R>(bs: seq<Batch<R, int>>): Option<int> {
    if bs == [] then None
    else Larger(bs[0].mark, LargestMark(bs[1..]))
  }

  function Larger(a: Option<int>, b: Option<int>): Option<int> {
    if a.None? then b else if b.None? then a else if a.value <= b.value then b else a
  }

  lemma {:induction false} MaxKeyIs<R>(rows: seq<R>, key: R -> Option<int>, m: Option<int>)
    requires m.None? ==> forall k :: 0 <= k < |rows| ==> key(rows[k]).None?
    requires m.Some? ==> exists k :: 0 <= k < |rows| && key(rows[k]) == m
    requires m.Some? ==> forall k :: 0 <= k < |rows| && key(rows[k]).Some? ==> key(rows[k]).value <= m.value
    ensures MaxKey(rows, key) == m
  {
    hide MaxKey;
    var n := MaxKey(rows, key);
    if m.Some? {
      var k :| 0 <= k < |rows| && key(rows[k]) == m;
    }
  }

  lemma {:induction false} MaxKeyJoins<R>(a: seq<R>, b: seq<R>, key: R -> Option<int>)
    ensures MaxKey(a + b, key) == Larger(MaxKey(a, key), MaxKey(b, key))
  {
    hide MaxKey;
    var rows, m := a + b, Larger(MaxKey(a, key), MaxKey(b, key));
    assert forall k :: 0 <= k < |rows| ==> rows[k] == if k < |a| then a[k] else b[k - |a|];
    if m.Some? {
      if m == MaxKey(a, key) {
        var k :| 0 <= k < |a| && key(a[k]) == m;
        assert rows[k] == a[k];
      } else {
        var k :| 0 <= k < |b| && key(b[k]) == m;
        assert rows[k + |a|] == b[k];
      }
    }
    MaxKeyIs(rows, key, m);
  }

  /** The largest watermark of the batches is the largest key of the rows. */
  lemma {:induction false} LargestMarkIsMaxKey<R>(bs: seq<Batch<R, int>>, key: R -> Option<int>)
    requires forall k :: 0 <= k < |bs| ==> bs[k].mark == MaxKey(bs[k].rows, key)
    ensures LargestMark(bs) == MaxKey(Concat(RowsOf(bs)), key)
  {
    if bs != [] {
      assert forall k :: 0 <= k < |bs[1..]| ==> bs[1..][k] == bs[k + 1];
      LargestMarkIsMaxKey(bs[1..], key);
      assert RowsOf(bs)[1..] == RowsOf(bs[1..]);
      MaxKeyJoins(bs[0].rows, Concat(RowsOf(bs[1..])), key);
    }
  }

  // ---------------------------------------------------------------- two runs

  lemma {:induction false} CountSplits<R>(rows: seq<R>, r: R)
    requires rows != []
    ensures multiset(rows)[r] == (if rows[0] == r then 1 else 0) + multiset(rows[1..])[r]
  {
    assert rows == [rows[0]] + rows[1..];
    assert multiset(rows) == multiset{rows[0]} + multiset(rows[1..]);
  }

  lemma {:induction false} FilterCount<R>(rows: seq<R>, mark: Option<int>, key: R -> Option<int>, r: R)
    ensures multiset(Filter(rows, mark, key))[r] == if Passes(r, mark, key) then multiset(rows)[r] else 0
  {
    if rows != [] {
      FilterCount(rows[1..], mark, key, r);
      CountSplits(rows, r);
      hide Passes;
    }
  }

  lemma {:induction false} KeyedCount<R>(rows: seq<R>, key: R -> Option<int>, r: R)
    ensures multiset(Keyed(rows, key))[r] == if key(r).Some? then multiset(rows)[r] else 0
  {
    if rows != [] {
      KeyedCount(rows[1..], key, r);
      CountSplits(rows, r);
    }
  }

  /** Behind the cut no row has the key at which the cut fell. */
  predicate CutSplitsNoTie<R>(result: seq<R>, n: nat, mark: Option<int>, key: R -> Option<int>)
    requires n <= |result|
  {
    mark.Some? ==> forall i :: n <= i < |result| ==> key(result[i]) != mark
  }

  lemma {:induction false} NotAmong<R>(rows: seq<R>, r: R)
    requires forall k :: 0 <= k < |rows| ==> rows[k] != r
    ensures multiset(rows)[r] == 0
  {
  }

  lemma {:induction false} ReadBelow<R>(read: seq<R>, key: R -> Option<int>, r: R)
    requires key(r).Some? && (MaxKey(read, key).Some? ==> key(r).value > MaxKey(read, key).value)
    ensures multiset(read)[r] == 0
  {
    hide MaxKey;
    NotAmong(read, r);
  }

  lemma {:induction false} UnreadAbove<R>(first: seq<R>, n: nat, key: R -> Option<int>, r: R)
    requires n <= |first| && Ascending(first, key) && MaxKey(first[..n], key).Some?
    requires key(r).Some? && key(r).value < MaxKey(first[..n], key).value
    ensures multiset(first[n..])[r] == 0
  {
    hide MaxKey;
    var p :| 0 <= p < n && key(first[..n][p]) == MaxKey(first[..n], key);
    forall k | 0 <= k < |first[n..]| ensures first[n..][k] != r {
      assert first[n..][k] == first[n + k] && first[p] == first[..n][p];
    }
    NotAmong(first[n..], r);
  }

  lemma {:induction false} AddedAbove<R>(added: seq<R>, mark: Option<int>, key: R -> Option<int>, r: R)
    requires mark.Some? && key(r).Some? && key(r).value <= mark.value
    requires forall k :: 0 <= k < |added| && key(added[k]).Some? ==> Passes(added[k], mark, key)
    ensures multiset(added)[r] == 0
  {
    NotAmong(added, r);
  }

  lemma {:induction false} CutCount<R>(table: seq<R>, first: seq<R>, n: nat, key: R -> Option<int>, r: R)
    requires Answers(first, table, None, key) && n <= |first|
    ensures multiset(table)[r] == multiset(first[..n])[r] + multiset(first[n..])[r]
  {
    FilterCount(table, None, key, r);
    assert first == first[..n] + first[n..];
    hide Filter;
    assert multiset(first) == multiset(first[..n]) + multiset(first[n..]);
  }

  lemma {:induction false} SecondCount<R>(all: seq<R>, second: seq<R>, mark: Option<int>, key: R -> Option<int>, r: R)
    requires Answers(second, all, mark, key)
    ensures multiset(Keyed(second, key))[r] == if key(r).Some? && Passes(r, mark, key) then multiset(all)[r] else 0
  {
    FilterCount(all, mark, key, r);
    KeyedCount(second, key, r);
    hide Filter, Keyed, Passes;
  }

  /** How often a row that was not read shares the key at which the cut fell. */
  function TieCount<R(==)>(first: seq<R>, n: nat, mark: Option<int>, key: R -> Option<int>, r: R): nat
    requires n <= |first|
  {
    if mark.Some? && key(r) == mark then multiset(first[n..])[r] else 0
  }

  /** The rows that both runs read, and those that the table holds in the end. */
  ghost function Both<R>(read: seq<R>, second: seq<R>, key: R -> Option<int>): multiset<R> {
    multiset(Keyed(read, key)) + multiset(Keyed(second, key))
  }

  ghost function All<R>(table: seq<R>, added: seq<R>, key: R -> Option<int>): multiset<R> {
    multiset(Keyed(table + added, key))
  }

  /** The second run follows the first: the table gained only rows above the largest key that was read. */
  ghost predicate Follows<R>(table: seq<R>, added: seq<R>, first: seq<R>, n: nat, second: seq<R>, key: R -> Option<int>) {
    && n <= |first| && Answers(first, table, None, key)
    && Answers(second, table + added, MaxKey(first[..n], key), key)
    && forall k :: 0 <= k < |added| && key(added[k]).Some? ==> Passes(added[k], MaxKey(first[..n], key), key)
  }

  /** One row, counted: what the second run adds to the first. */
  lemma {:induction false} CountedOnce<R>(
    table: seq<R>, added: seq<R>, first: seq<R>, n: nat, second: seq<R>, key: R -> Option<int>, r: R)
    requires Follows(table, added, first, n, second, key)
    ensures
      Both(first[..n], second, key)[r] + TieCount(first, n, MaxKey(first[..n], key), key, r) == All(table, added, key)[r]
  {
    var read, mark := first[..n], MaxKey(first[..n], key);
    assert Ascending(first, key);
    KeyedCount(read, key, r);
    KeyedCount(table + added, key, r);
    assert multiset(table + added) == multiset(table) + multiset(added);
    hide MaxKey, Filter, Keyed, Answers, Ascending;
    CutCount(table, first, n, key, r);
    SecondCount(table + added, second, mark, key, r);
    if key(r).Some? {
      if mark.None? || key(r).value > mark.value {
        ReadBelow(read, key, r);
      } else {
        AddedAbove(added, mark, key, r);
        if key(r).value < mark.value {
          UnreadAbove(first, n, key, r);
        }
      }
    }
  }

  lemma {:induction false} NothingLost<R>(
    table: seq<R>, added: seq<R>, first: seq<R>, n: nat, second: seq<R>, key: R -> Option<int>)
    requires Follows(table, added, first, n, second, key) && CutSplitsNoTie(first, n, MaxKey(first[..n], key), key)
    ensures Both(first[..n], second, key) == All(table, added, key)
  {
    assert n <= |first|;
    hide MaxKey, Both, All, Follows, TieCount, CutSplitsNoTie;
    forall r ensures Both(first[..n], second, key)[r] == All(table, added, key)[r] {
      CountedOnce(table, added, first, n, second, key, r);
      NoTie(first, n, MaxKey(first[..n], key), key, r);
    }
    SameCounts(Both(first[..n], second, key), All(table, added, key));
  }

  lemma {:induction false} SameCounts<R>(a: multiset<R>, b: multiset<R>)
    requires forall r :: a[r] == b[r]
    ensures a == b
  {
  }

  lemma {:induction false} NoTie<R>(first: seq<R>, n: nat, mark: Option<int>, key: R -> Option<int>, r: R)
    requires n <= |first| && CutSplitsNoTie(first, n, mark, key)
    ensures TieCount(first, n, mark, key, r) == 0
  {
    if mark.Some? && key(r) == mark {
      forall k | 0 <= k < |first[n..]| ensures first[n..][k] != r {
        assert first[n..][k] == first[n + k];
      }
      NotAmong(first[n..], r);
    }
  }

  lemma {:induction false} TieLost<R>(
    table: seq<R>, added: seq<R>, first: seq<R>, n: nat, second: seq<R>, key: R -> Option<int>)
    requires Follows(table, added, first, n, second, key) && !CutSplitsNoTie(first, n, MaxKey(first[..n], key), key)
    ensures Both(first[..n], second, key) != All(table, added, key)
  {
    var i :| n <= i < |first| && key(first[i]) == MaxKey(first[..n], key);
    var r := first[i];
    assert first[n..][i - n] == r;
    assert r in multiset(first[n..]);
    hide MaxKey, Both, All, Follows;
    CountedOnce(table, added, first, n, second, key, r);
  }

  /**
   * A run that is cut after `n` rows and a run from its largest key, over a table that meanwhile gained only rows above
   * that key, read every row with a key exactly once if and only if the cut did not split rows of one key.
   */
  lemma {:induction false} ReadOnce<R>(
    table: seq<R>, added: seq<R>, first: seq<R>, n: nat, second: seq<R>, key: R -> Option<int>)
    requires Follows(table, added, first, n, second, key)
    ensures Both(first[..n], second, key) == All(table, added, key) <==> CutSplitsNoTie(first, n, MaxKey(first[..n], key), key)
  {
    hide MaxKey, Both, All, CutSplitsNoTie;
    if CutSplitsNoTie(first, n, MaxKey(first[..n], key), key) {
      NothingLost(table, added, first, n, second, key);
    } else {
      TieLost(table, added, first, n, second, key);
    }
  }

  /**
   * Two runs of the reader, the first with a limit: every row with a key is read exactly once if and only if the cut did
   * not split rows of one key.
   */
  lemma {:induction false} CutRunReadOnce<R>(
    table: seq<R>, added: seq<R>, first: seq<R>, second: seq<R>, bs: seq<Batch<R, int>>, cs: seq<Batch<R, int>>,
    limit: Option<nat>, size: nat, mark: seq<R> -> Option<int>, key: R -> Option<int>)
    requires forall rs :: mark(rs) == MaxKey(rs, key)
    requires Answers(first, table, None, key) && Batched(bs, CutAt(first, limit), size, mark)
    requires Answers(second, table + added, LargestMark(bs), key) && Batched(cs, CutAt(second, None), size, mark)
    requires forall k :: 0 <= k < |added| && key(added[k]).Some? ==> Passes(added[k], LargestMark(bs), key)
    ensures |CutAt(first, limit)| <= |first|
    ensures
      Both(Concat(RowsOf(bs)), Concat(RowsOf(cs)), key) == All(table, added, key)
      <==> CutSplitsNoTie(first, |CutAt(first, limit)|, LargestMark(bs), key)
  {
    var n := |CutAt(first, limit)|;
    assert Concat(RowsOf(bs)) == CutAt(first, limit) == first[..n] && Concat(RowsOf(cs)) == second;
    hide Concat, RowsOf, MaxKey, Both, All, Answers, Passes, LargestMark, CutAt, CutSplitsNoTie;
    LargestMarkIsMaxKey(bs, key);
    ReadOnce(table, added, first, n, second, key);
  }

  /** Without a limit two runs of the reader always read every row with a key exactly once. */
  lemma {:induction false} TwoRunsReadOnce<R>(
    table: seq<R>, added: seq<R>, first: seq<R>, second: seq<R>, bs: seq<Batch<R, int>>, cs: seq<Batch<R, int>>,
    size: nat, mark: seq<R> -> Option<int>, key: R -> Option<int>)
    requires forall rs :: mark(rs) == MaxKey(rs, key)
    requires Answers(first, table, None, key) && Batched(bs, CutAt(first, None), size, mark)
    requires Answers(second, table + added, LargestMark(bs), key) && Batched(cs, CutAt(second, None), size, mark)
    requires forall k :: 0 <= k < |added| && key(added[k]).Some? ==> Passes(added[k], LargestMark(bs), key)
    ensures Both(Concat(RowsOf(bs)), Concat(RowsOf(cs)), key) == All(table, added, key)
  {
    hide Concat, RowsOf, MaxKey, Both, All, Answers, Passes, LargestMark;
    CutRunReadOnce(table, added, first, second, bs, cs, None, size, mark, key);
  }

  /** A key that all rows share. */
  function OneKey(): int -> Option<int> {
    (r: int) => Some(7)
  }

  lemma {:induction false} TieMark()
    ensures MaxKey([1], OneKey()) == Some(7) && OneKey()(2) == Some(7)
  {
    var rows := [1];
    assert OneKey()(rows[0]) == Some(7);
    MaxKeyIs(rows, OneKey(), Some(7));
  }

  lemma {:induction false} TieRead()
    ensures Filter([1, 2], None, OneKey()) == [1, 2] && Filter([1, 2], Some(7), OneKey()) == []
  {
    var key := OneKey();
    assert [1, 2][1..] == [2] && [2][1..] == [];
    assert Filter([], None, key) == [] && Filter([], Some(7), key) == [];
    assert Filter([2], None, key) == [2] && Filter([2], Some(7), key) == [];
  }

  lemma {:induction false} TieAnswers()
    ensures Answers([1, 2], [1, 2], None, OneKey()) && Answers([], [1, 2], Some(7), OneKey())
  {
    TieRead();
    hide Filter;
  }

  lemma {:induction false} TieSplit()
    ensures [1, 2][..1] == [1] && [1, 2] + [] == [1, 2] && !CutSplitsNoTie([1, 2], 1, Some(7), OneKey())
  {
    var first := [1, 2];
    assert first[..1] == [1] && first + [] == first;
    assert first[1] == 2 && OneKey()(first[1]) == Some(7);
  }

  lemma {:induction false} TieFollows()
    ensures Follows([1, 2], [], [1, 2], 1, [], OneKey()) && !CutSplitsNoTie([1, 2], 1, MaxKey([1, 2][..1], OneKey()), OneKey())
  {
    hide MaxKey, Answers, CutSplitsNoTie, OneKey, Passes;
    TieMark();
    TieAnswers();
    TieSplit();
  }

  /** Two rows with one key and a cut between them: the second run, from that key, does not read the second row. */
  lemma {:induction false} TieExample()
    ensures
      && Follows([1, 2], [], [1, 2], 1, [], OneKey())
      && Both([1, 2][..1], [], OneKey()) != All([1, 2], [], OneKey())
  {
    hide *;
    TieFollows();
    ReadOnce([1, 2], [], [1, 2], 1, [], OneKey());
  }
}
