/** Columns and WHERE clauses cut to the limits of RFC_READ_TABLE. */
module SapSplit {
  import opened Text
  import opened Greedy

  datatype SapField = SapField(name: string, length: nat, offset: nat)

  datatype SapError =
    | FieldTooWide(field: string)
    | OptionTooLong(token: string)
    | FieldNotValid(names: seq<string>)
    | SplitRowMismatch(group: nat, found: nat, expected: nat)
    | RowTooWide

  const MAX_ROW_WIDTH: nat := 512
  const MAX_OPTION_LINE: nat := 72

  // ---------------------------------------------------------------- columns

  function Length(f: SapField): nat {
    f.length
  }

  /** The first `k` items, filled into groups; the last group is still open. */
  ghost predicate GroupsHold<T>(groups: seq<seq<T>>, current: seq<T>, items: seq<T>, k: nat, size: T -> nat, gap: nat, max: nat)
    requires k <= |items|
  {
    current != [] && Filled(groups + [current], size, gap, max) && Concat(groups + [current]) == items[..k]
  }

  lemma {:induction false} FirstGroup<T>(items: seq<T>, size: T -> nat, gap: nat, max: nat)
    requires items != [] && size(items[0]) <= max
    ensures GroupsHold([], [items[0]], items, 1, size, gap, max) && Width([items[0]], size, gap) == size(items[0])
  {
    StartFilled(size, gap, max);
    WidthOne(items[0], size, gap);
    Opens([], items[0], size, gap, max);
    assert [] + [[items[0]]] == [[items[0]]];
  }

  lemma {:induction false} GroupStep<T>(groups: seq<seq<T>>, current: seq<T>, items: seq<T>, k: nat, size: T -> nat, gap: nat, max: nat)
    requires k < |items| && size(items[k]) <= max && GroupsHold(groups, current, items, k, size, gap, max)
    ensures Width(current + [items[k]], size, gap) == Width(current, size, gap) + gap + size(items[k])
    ensures Width(current + [items[k]], size, gap) <= max ==>
      GroupsHold(groups, current + [items[k]], items, k + 1, size, gap, max)
    ensures Width(current + [items[k]], size, gap) > max ==>
      GroupsHold(groups + [current], [items[k]], items, k + 1, size, gap, max)
  {
    var x := items[k];
    hide Filled, Concat, Fits, Width;
    WidthAppend(current, x, size, gap);
    assert items[..k + 1] == items[..k] + [x];
    if Width(current + [x], size, gap) <= max {
      DoesFit(current + [x], size, gap, max);
      Grows(groups, current, x, size, gap, max);
    } else {
      DoesNotFit(current + [x], size, gap, max);
      assert (groups + [current])[|groups|] == current;
      Opens(groups + [current], x, size, gap, max);
    }
  }

  lemma {:induction false} GroupsDone<T>(groups: seq<seq<T>>, current: seq<T>, items: seq<T>, size: T -> nat, gap: nat, max: nat)
    requires GroupsHold(groups, current, items, |items|, size, gap, max)
    ensures Filled(groups + [current], size, gap, max) && Concat(groups + [current]) == items
  {
    assert items[..|items|] == items;
  }

  /** The first `k` fields are not too wide. */
  predicate NoneTooWide(fields: seq<SapField>, k: nat, max: nat)
    requires k <= |fields|
  {
    forall j :: 0 <= j < k ==> fields[j].length <= max
  }

  /** `split_fields_by_width`: column groups filled in order; the delimiter counts between neighbours. */
  method SplitFieldsByWidth(fields: seq<SapField>, delimiter: string, maxWidth: nat)
    returns (r: Result<seq<seq<SapField>>, SapError>)
    ensures r.Ok? <==> NoneTooWide(fields, |fields|, maxWidth)
    ensures r.Err? ==>
      exists k :: && 0 <= k < |fields| && NoneTooWide(fields, k, maxWidth)
                  && fields[k].length > maxWidth && r.error == FieldTooWide(fields[k].name)
    ensures r.Ok? ==> Concat(r.value) == fields && Filled(r.value, Length, |delimiter|, maxWidth)
  {
    if fields == [] {
      StartFilled(Length, |delimiter|, maxWidth);
      return Ok([]);
    }
    var groups: seq<seq<SapField>>, current: seq<SapField>, width := [], [], 0;
    hide Filled, Concat, Width, GroupsHold;
    for k := 0 to |fields|
      invariant k == 0 ==> groups == [] && current == []
      invariant k > 0 ==> current != [] && GroupsHold(groups, current, fields, k, Length, |delimiter|, maxWidth)
      invariant k > 0 ==> width == Width(current, Length, |delimiter|)
      invariant k == 0 ==> width == 0
      invariant NoneTooWide(fields, k, maxWidth)
    {
      var f := fields[k];
      var cost := f.length + (if delimiter != "" && current != [] then |delimiter| else 0);
      if f.length > maxWidth {
        return Err(FieldTooWide(f.name));
      }
      if k == 0 {
        FirstGroup(fields, Length, |delimiter|, maxWidth);
        assert [] + [f] == [f];
      } else {
        GroupStep(groups, current, fields, k, Length, |delimiter|, maxWidth);
        WidthOne(f, Length, |delimiter|);
      }
      if current != [] && width + cost > maxWidth {
        groups := groups + [current];
        current, width := [f], f.length;
      } else {
        current := current + [f];
        width := width + cost;
      }
    }
    GroupsDone(groups, current, fields, Length, |delimiter|, maxWidth);
    if current != [] {
      groups := groups + [current];
    }
    return Ok(groups);
  }

  /** Any other way to cut the fields into neighbouring groups that fit needs at least as many. */
  lemma {:induction false} FewestFieldGroups(
    groups: seq<seq<SapField>>, others: seq<seq<SapField>>, fields: seq<SapField>, delimiter: string, maxWidth: nat)
    requires Concat(groups) == fields && Filled(groups, Length, |delimiter|, maxWidth)
    requires Concat(others) == fields && forall i :: 0 <= i < |others| ==> Width(others[i], Length, |delimiter|) <= maxWidth
    ensures |groups| <= |others|
  {
    hide Filled, Concat, Width;
    FewestGroups(groups, others, Length, |delimiter|, maxWidth);
  }

  lemma {:induction false} StartFilled<T>(size: T -> nat, gap: nat, max: nat)
    ensures Filled([], size, gap, max) && Width([], size, gap) == 0
  {
  }

  lemma {:induction false} DoesNotFit<T>(items: seq<T>, size: T -> nat, gap: nat, max: nat)
    requires Width(items, size, gap) > max
    ensures !Fits(items, size, gap, max)
  {
  }

  lemma {:induction false} DoesFit<T>(items: seq<T>, size: T -> nat, gap: nat, max: nat)
    requires Width(items, size, gap) <= max
    ensures Fits(items, size, gap, max)
  {
  }
}
