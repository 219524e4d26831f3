/** Filling groups one after the other needs the fewest groups. */
module Greedy {

  /** The width of a group: the sizes of its items and a gap between neighbours. */
  function Width<T>(items: seq<T>, size: T -> nat, gap: nat): nat {
    if items == [] then 0
    else if |items| == 1 then size(items[0])
    else Width(items[..|items| - 1], size, gap) + gap + size(items[|items| - 1])
  }

  function Concat<T>(groups: seq<seq<T>>): seq<T> {
    if groups == [] then [] else groups[0] + Concat(groups[1..])
  }

  predicate Fits<T>(group: seq<T>, size: T -> nat, gap: nat, max: nat) {
    Width(group, size, gap) <= max
  }

  /** The first item of the next group would not have fitted. */
  predicate Full<T>(group: seq<T>, next: seq<T>, size: T -> nat, gap: nat, max: nat) {
    next != [] && !Fits(group + next[..1], size, gap, max)
  }

  /** Every group holds something and fits, and all but the last are full. */
  ghost predicate Filled<T>(groups: seq<seq<T>>, size: T -> nat, gap: nat, max: nat) {
    && (forall k :: 0 <= k < |groups| ==> groups[k] != [] && Fits(groups[k], size, gap, max))
    && (forall k, j :: 0 <= k < j < |groups| && j == k + 1 ==> Full(groups[k], groups[j], size, gap, max))
  }

  lemma {:induction false} WidthOne<T>(x: T, size: T -> nat, gap: nat)
    ensures Width([x], size, gap) == size(x)
  {
  }

  lemma {:induction false} WidthAppend<T>(items: seq<T>, x: T, size: T -> nat, gap: nat)
    requires items != []
    ensures Width(items + [x], size, gap) == Width(items, size, gap) + gap + size(x)
  {
    assert (items + [x])[..|items + [x]| - 1] == items;
  }

  lemma {:induction false} WidthDropFirst<T>(items: seq<T>, size: T -> nat, gap: nat)
    requires items != []
    ensures Width(items[1..], size, gap) <= Width(items, size, gap)
  {
    if |items| > 1 {
      var n := |items| - 1;
      WidthDropFirst(items[..n], size, gap);
      assert items[..n][1..] == items[1..][..n - 1];
      assert items[1..][n - 1] == items[n];
    }
  }

  lemma {:induction false} WidthDropLast<T>(items: seq<T>, size: T -> nat, gap: nat)
    requires items != []
    ensures Width(items[..|items| - 1], size, gap) <= Width(items, size, gap)
  {
  }

  /** A part of a group is not wider than the group. */
  lemma {:induction false} WidthSlice<T>(items: seq<T>, from: nat, to: nat, size: T -> nat, gap: nat)
    requires from <= to <= |items|
    ensures Width(items[from..to], size, gap) <= Width(items, size, gap)
    decreases |items|
  {
    hide Width;
    if from > 0 {
      WidthDropFirst(items, size, gap);
      WidthSlice(items[1..], from - 1, to - 1, size, gap);
      assert items[1..][from - 1..to - 1] == items[from..to];
    } else if to < |items| {
      var shorter := items[..|items| - 1];
      WidthDropLast(items, size, gap);
      WidthSlice(shorter, from, to, size, gap);
      assert shorter[from..to] == items[from..to];
    } else {
      assert items[from..to] == items;
    }
  }

  lemma {:induction false} ConcatAppend<T>(a: seq<seq<T>>, b: seq<seq<T>>)
    ensures Concat(a + b) == Concat(a) + Concat(b)
  {
    if a == [] {
      assert a + b == b;
    } else {
      ConcatAppend(a[1..], b);
      assert (a + b)[1..] == a[1..] + b;
    }
  }

  lemma {:induction false} ConcatOne<T>(g: seq<T>)
    ensures Concat([g]) == g
  {
    assert Concat([g]) == g + Concat([]);
  }

  /** Where the first `k` groups end. */
  function End<T>(groups: seq<seq<T>>, k: nat): nat
    requires k <= |groups|
  {
    |Concat(groups[..k])|
  }

  lemma {:induction false} EndStep<T>(groups: seq<seq<T>>, k: nat)
    requires k < |groups|
    ensures End(groups, k + 1) == End(groups, k) + |groups[k]| <= |Concat(groups)|
    ensures Concat(groups)[End(groups, k)..End(groups, k + 1)] == groups[k]
  {
    var head, rest := groups[..k], groups[k + 1..];
    assert groups[..k + 1] == head + [groups[k]];
    assert groups == head + ([groups[k]] + rest);
    hide Concat;
    ConcatOne(groups[k]);
    ConcatAppend(head, [groups[k]]);
    ConcatAppend([groups[k]], rest);
    ConcatAppend(head, [groups[k]] + rest);
  }

  lemma {:induction false} AllConcat<T>(groups: seq<seq<T>>)
    ensures End(groups, |groups|) == |Concat(groups)|
  {
    assert groups[..|groups|] == groups;
  }

  /** A part that starts no later than a full group does not reach behind its end. */
  lemma {:induction false} NotOvertaken<T>(
    items: seq<T>, part: seq<T>, p: nat, group: seq<T>, next: seq<T>, g: nat, size: T -> nat, gap: nat, max: nat)
    requires p <= g && p + |part| <= |items| && g + |group| + |next| <= |items|
    requires items[p..p + |part|] == part && items[g..g + |group|] == group
    requires items[g + |group|..g + |group| + |next|] == next
    requires Fits(part, size, gap, max) && Full(group, next, size, gap, max)
    ensures p + |part| <= g + |group|
  {
    if g + |group| < p + |part| {
      var a, b := g - p, g - p + |group| + 1;
      assert part[a..b] == items[g..g + |group| + 1];
      assert items[g + |group|] == next[0];
      assert items[g..g + |group| + 1] == group + next[..1];
      hide Width;
      WidthSlice(part, a, b, size, gap);
    }
  }

  /** After `k` groups no other way of cutting has come further. */
  lemma {:induction false} StaysAhead<T>(groups: seq<seq<T>>, parts: seq<seq<T>>, k: nat, size: T -> nat, gap: nat, max: nat)
    requires Filled(groups, size, gap, max) && Concat(groups) == Concat(parts)
    requires forall i :: 0 <= i < |parts| ==> Fits(parts[i], size, gap, max)
    requires k <= |groups| && k <= |parts|
    ensures End(parts, k) <= End(groups, k)
  {
    hide End, Concat, Fits, Full;
    if k == 0 {
      assert End(groups, 0) == End(parts, 0) by {
        EmptyEnd(groups);
        EmptyEnd(parts);
      }
    } else {
      StaysAhead(groups, parts, k - 1, size, gap, max);
      EndStep(groups, k - 1);
      EndStep(parts, k - 1);
      if k < |groups| {
        EndStep(groups, k);
        assert Full(groups[k - 1], groups[k], size, gap, max);
        NotOvertaken(
          Concat(groups), parts[k - 1], End(parts, k - 1), groups[k - 1], groups[k], End(groups, k - 1), size, gap, max);
      } else {
        AllConcat(groups);
      }
    }
  }

  lemma {:induction false} EmptyEnd<T>(groups: seq<seq<T>>)
    ensures End(groups, 0) == 0
  {
  }

  /** Filling greedily uses the fewest groups. */
  lemma {:induction false} FewestGroups<T>(groups: seq<seq<T>>, parts: seq<seq<T>>, size: T -> nat, gap: nat, max: nat)
    requires Filled(groups, size, gap, max) && Concat(groups) == Concat(parts)
    requires forall i :: 0 <= i < |parts| ==> Fits(parts[i], size, gap, max)
    ensures |groups| <= |parts|
  {
    hide End, Concat, Fits, Full;
    if |parts| < |groups| {
      StaysAhead(groups, parts, |parts|, size, gap, max);
      AllConcat(parts);
      EndStep(groups, |parts|);
    }
  }

  /** There is only one way to fill greedily. */
  lemma {:induction false} OneGreedyWay<T>(groups: seq<seq<T>>, others: seq<seq<T>>, size: T -> nat, gap: nat, max: nat)
    requires Filled(groups, size, gap, max) && Filled(others, size, gap, max) && Concat(groups) == Concat(others)
    ensures groups == others
  {
    if groups != [] && others != [] {
      NotShorter(groups, others, size, gap, max);
      NotShorter(others, groups, size, gap, max);
      ConcatSplits(groups);
      ConcatSplits(others);
      hide Fits, Full, Concat;
      OneGreedyWay(groups[1..], others[1..], size, gap, max);
      assert groups == [groups[0]] + groups[1..] && others == [others[0]] + others[1..];
    }
  }

  lemma {:induction false} ConcatSplits<T>(groups: seq<seq<T>>)
    requires groups != []
    ensures |groups[0]| <= |Concat(groups)|
    ensures Concat(groups)[..|groups[0]|] == groups[0] && Concat(groups)[|groups[0]|..] == Concat(groups[1..])
  {
  }

  lemma {:induction false} NotShorter<T>(groups: seq<seq<T>>, others: seq<seq<T>>, size: T -> nat, gap: nat, max: nat)
    requires groups != [] && others != [] && Concat(groups) == Concat(others)
    requires Filled(groups, size, gap, max) && Filled(others, size, gap, max)
    ensures |others[0]| <= |groups[0]|
  {
    var all := Concat(groups);
    ConcatSplits(groups);
    ConcatSplits(others);
    assert all[0..|groups[0]|] == groups[0] && all[0..|others[0]|] == others[0];
    if |groups| > 1 {
      ConcatSplits(groups[1..]);
      assert all[|groups[0]|..|groups[0]| + |groups[1]|] == groups[1];
      hide Fits, Full, Concat;
      NotOvertaken(all, others[0], 0, groups[0], groups[1], 0, size, gap, max);
    } else {
      assert Concat(groups[1..]) == [];
    }
  }

  // ---------------------------------------------------------------- one step of filling

  /** The next item fits into the last group. */
  lemma {:induction false} Grows<T>(groups: seq<seq<T>>, current: seq<T>, x: T, size: T -> nat, gap: nat, max: nat)
    requires current != [] && Filled(groups + [current], size, gap, max) && Fits(current + [x], size, gap, max)
    ensures Filled(groups + [current + [x]], size, gap, max)
    ensures Concat(groups + [current + [x]]) == Concat(groups + [current]) + [x]
  {
    var before, after := groups + [current], groups + [current + [x]];
    assert (current + [x])[..1] == current[..1];
    ConcatAppend(groups, [current]);
    ConcatAppend(groups, [current + [x]]);
    ConcatOne(current);
    ConcatOne(current + [x]);
    hide Fits, Concat;
    forall k, j | 0 <= k < j < |after| && j == k + 1 ensures Full(after[k], after[j], size, gap, max) {
      assert Full(before[k], before[j], size, gap, max);
    }
    forall k | 0 <= k < |after| ensures after[k] != [] && Fits(after[k], size, gap, max) {
      assert before[k] != [] && Fits(before[k], size, gap, max);
    }
  }

  /** The next item does not fit and opens a group of its own. */
  lemma {:induction false} Opens<T>(groups: seq<seq<T>>, x: T, size: T -> nat, gap: nat, max: nat)
    requires Filled(groups, size, gap, max) && size(x) <= max
    requires groups != [] ==> !Fits(groups[|groups| - 1] + [x], size, gap, max)
    ensures Filled(groups + [[x]], size, gap, max)
    ensures Concat(groups + [[x]]) == Concat(groups) + [x]
  {
    var after := groups + [[x]];
    assert [x][..1] == [x];
    WidthOne(x, size, gap);
    ConcatAppend(groups, [[x]]);
    ConcatOne([x]);
    assert Fits([x], size, gap, max);
    hide Fits, Concat;
    forall k, j | 0 <= k < j < |after| && j == k + 1 ensures Full(after[k], after[j], size, gap, max) {
      if j < |groups| {
        assert Full(groups[k], groups[j], size, gap, max);
      }
    }
  }
}
