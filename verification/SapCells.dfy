/** The rows and columns of a flat read, cell by cell. */
module SapCells {
  import opened Text
  import opened NameCompare
  import opened SapSplit
  import opened SapWhere
  import opened SapRead

  // ---------------------------------------------------------------- cells

  predicate OnlySpace(s: string) {
    forall k :: 0 <= k < |s| ==> PySpace(s[k])
  }

  /** `t` is `s` without the space at its ends. */
  ghost predicate Core(s: string, t: string) {
    && (t != "" ==> !PySpace(t[0]) && !PySpace(t[|t| - 1]))
    && exists a, b :: OnlySpace(a) && OnlySpace(b) && s == a + t + b
  }

  lemma {:induction false} StartStands(s: string) returns (a: string)
    ensures OnlySpace(a) && s == a + StripStart(s) && (StripStart(s) != "" ==> !PySpace(StripStart(s)[0]))
  {
    if s != "" && PySpace(s[0]) {
      var b := StartStands(s[1..]);
      a := [s[0]] + b;
      assert s == [s[0]] + s[1..];
    } else {
      a := "";
    }
  }

  lemma {:induction false} EndStands(s: string) returns (b: string)
    ensures OnlySpace(b) && s == StripEnd(s) + b && (StripEnd(s) != "" ==> !PySpace(StripEnd(s)[|StripEnd(s)| - 1]))
  {
    if s != "" && PySpace(s[|s| - 1]) {
      var a := EndStands(s[..|s| - 1]);
      b := a + [s[|s| - 1]];
      assert s == s[..|s| - 1] + [s[|s| - 1]];
    } else {
      b := "";
    }
  }

  lemma {:induction false} StripStands(s: string)
    ensures Core(s, Strip(s))
  {
    var a := StartStands(s);
    var b := EndStands(StripStart(s));
    hide StripStart, StripEnd, OnlySpace;
    var t := Strip(s);
    assert s == a + t + b;
    assert t != "" ==> t[0] == StripStart(s)[0];
  }

  /** Where a text without the space at its ends starts and stops. */
  lemma {:induction false} CoreStands(s: string, t: string) returns (i: nat, j: nat)
    requires Core(s, t)
    ensures i <= j <= |s| && t == s[i..j] && (t == "" ==> OnlySpace(s))
    ensures (forall k :: 0 <= k < i ==> PySpace(s[k])) && (forall k :: j <= k < |s| ==> PySpace(s[k]))
    ensures t != "" ==> !PySpace(s[i]) && !PySpace(s[j - 1])
  {
    var a, b :| OnlySpace(a) && OnlySpace(b) && s == a + t + b;
    i, j := |a|, |a + t|;
    hide PySpace;
    assert forall k :: 0 <= k < |a| ==> s[k] == a[k];
    assert forall k :: j <= k < |s| ==> s[k] == b[k - j];
    assert t != "" ==> s[i] == t[0] && s[j - 1] == t[|t| - 1];
  }

  /** There is one text without the space at the ends. */
  lemma {:induction false} OneCoreText(s: string, t: string, u: string)
    requires Core(s, t) && Core(s, u)
    ensures t == u
  {
    hide PySpace, Core;
    var i, j := CoreStands(s, t);
    var k, l := CoreStands(s, u);
    if t != "" && u != "" {
      assert i == k && j == l;
    }
  }

  lemma {:induction false} StripMeans(s: string, t: string)
    ensures t == Strip(s) <==> Core(s, t)
  {
    StripStands(s);
    hide Strip, Core;
    if Core(s, t) {
      OneCoreText(s, t, Strip(s));
    }
  }

  /** What a flat read shows for a field: its text, cut to the width of the field, without the space at its ends. */
  ghost predicate ShowsCell(row: Row, f: SapField, value: string) {
    var text := if f.name in row then row[f.name] else "";
    Core(if |text| <= f.length then text else text[..f.length], value)
  }

  lemma {:induction false} CellMeans(row: Row, f: SapField, value: string)
    ensures value == Strip(SapRead.Cut(Cell(row, f.name), f.length)) <==> ShowsCell(row, f, value)
  {
    hide Strip, Core;
    StripMeans(SapRead.Cut(Cell(row, f.name), f.length), value);
  }

  /** The last field with this name. */
  predicate LastNamed(fields: seq<SapField>, k: nat) {
    k < |fields| && forall j :: k < j < |fields| ==> fields[j].name != fields[k].name
  }

  lemma {:induction false} RowOfNames(fields: seq<SapField>, values: seq<string>, name: string)
    requires |fields| == |values|
    ensures name in RowOf(fields, values) <==> exists k :: 0 <= k < |fields| && fields[k].name == name
  {
    if fields != [] {
      var n := |fields| - 1;
      var head := fields[..n];
      RowOfNames(head, values[..n], name);
      assert forall k :: 0 <= k < n ==> head[k] == fields[k];
    }
  }

  lemma {:induction false} RowOfLast(fields: seq<SapField>, values: seq<string>, k: nat)
    requires |fields| == |values| && LastNamed(fields, k)
    ensures fields[k].name in RowOf(fields, values) && RowOf(fields, values)[fields[k].name] == values[k]
  {
    var n := |fields| - 1;
    var head := fields[..n];
    if k < n {
      assert forall j :: 0 <= j < n ==> head[j] == fields[j];
      RowOfLast(head, values[..n], k);
      assert fields[n].name != fields[k].name;
    }
  }

  /** A row of a flat read: the columns asked for and no other, each showing its cell; of two with one name the last. */
  lemma {:induction false} FlatRowMeans(row: Row, fields: seq<SapField>)
    ensures forall name :: name in FlatRow(row, fields) <==> exists k :: 0 <= k < |fields| && fields[k].name == name
    ensures forall k: nat :: LastNamed(fields, k) ==>
      fields[k].name in FlatRow(row, fields) && ShowsCell(row, fields[k], FlatRow(row, fields)[fields[k].name])
  {
    var values := FlatValues(row, fields);
    hide Strip, Core, RowOf, ShowsCell;
    forall name ensures name in FlatRow(row, fields) <==> exists k :: 0 <= k < |fields| && fields[k].name == name {
      RowOfNames(fields, values, name);
    }
    forall k: nat | LastNamed(fields, k)
      ensures fields[k].name in FlatRow(row, fields) && ShowsCell(row, fields[k], FlatRow(row, fields)[fields[k].name])
    {
      RowOfLast(fields, values, k);
      FlatValueAt(row, fields, k);
      CellMeans(row, fields[k], values[k]);
    }
  }

  // ---------------------------------------------------------------- columns

  lemma {:induction false} FieldFound(fields: seq<SapField>, name: string)
    ensures
      match FieldNamed(fields, name)
      case None => forall k :: 0 <= k < |fields| ==> fields[k].name != name
      case Some(f) => exists k: nat :: LastNamed(fields, k) && fields[k] == f && f.name == name
  {
    if fields != [] {
      var n := |fields| - 1;
      if fields[n].name == name {
        assert LastNamed(fields, n);
      } else {
        FieldFound(fields[..n], name);
        if FieldNamed(fields, name).Some? {
          var k: nat :| LastNamed(fields[..n], k) && fields[..n][k].name == name;
          assert LastNamed(fields, k);
        } else {
          assert forall k :: 0 <= k < n ==> fields[..n][k] == fields[k];
        }
      }
    }
  }

  lemma {:induction false} WantedAt(b: Backend, fields: seq<string>)
    ensures fields != [] ==> |Wanted(b, fields)| == |fields| && forall k :: 0 <= k < |fields| ==> UpperOf(fields[k], Wanted(b, fields)[k])
    ensures fields == [] ==>
      |Wanted(b, fields)| == |b.fields| && forall k :: 0 <= k < |b.fields| ==> Wanted(b, fields)[k] == b.fields[k].name
  {
    UppersAt(fields);
    NamesAt(b.fields);
    hide UpperAll, Names, UpperOf;
  }

  lemma {:induction false} UppersAt(names: seq<string>)
    ensures |UpperAll(names)| == |names| && forall k :: 0 <= k < |names| ==> UpperOf(names[k], UpperAll(names)[k])
  {
    if names != [] {
      UppersAt(names[1..]);
      UpperMeans(names[0], Upper(names[0]));
      hide UpperOf, Upper;
    }
  }

  lemma {:induction false} NamesAt(fields: seq<SapField>)
    ensures |Names(fields)| == |fields| && forall k :: 0 <= k < |fields| ==> Names(fields)[k] == fields[k].name
  {
    if fields != [] {
      NamesAt(fields[1..]);
    }
  }

  /** The columns of a read: one for every name, in order, or the names that the table does not have. */
  lemma {:induction false} SelectedMeans(b: Backend, wanted: seq<string>)
    ensures forall name :: name in Unknown(b, wanted) <==> name in wanted && forall k :: 0 <= k < |b.fields| ==> b.fields[k].name != name
    ensures Unknown(b, wanted) == [] ==>
      && |Selected(b, wanted)| == |wanted|
      && forall i :: 0 <= i < |wanted| ==>
           exists k: nat :: LastNamed(b.fields, k) && b.fields[k].name == wanted[i] && Selected(b, wanted)[i] == b.fields[k]
  {
    if wanted != [] {
      SelectedMeans(b, wanted[1..]);
      FieldFound(b.fields, wanted[0]);
      hide LastNamed, FieldNamed;
    }
  }

  /** The WHERE text that the system reads holds the characters of the clause without the space, in order. */
  lemma {:induction false} ConditionMeans(clause: string)
    ensures Solid(Condition(clause)) == Solid(clause)
  {
    hide *;
    ClauseMeans(clause);
    ConditionJoins(clause);
    JoinedMarks(Normalised(clause), Tokens(Normalised(clause)), 0);
    NormalisedMarks(clause);
    SapWhere.SameLetters(Marks(Condition(clause), true), Marks(clause, true), Starts(Tokens(Normalised(clause)), 0));
    SolidIsLetters(Condition(clause), true);
    SolidIsLetters(clause, true);
  }

  lemma {:induction false} ConditionJoins(clause: string)
    ensures Condition(clause) == Join(Tokens(Normalised(clause)), " ")
  {
  }
}
