/** Reading a wide table: groups merged by row position, pages by row count. */
module SapRead {
  import opened Text
  import opened Greedy
  import opened SapSplit
  import opened SapWhere
  import opened Batches

  type Row = map<string, string>

  /**
   * The system behind RFC_READ_TABLE: the fields of one table, and the rows that match a WHERE text at a moment.
   * Moments count the calls; `sendsMeta` says whether the answer carries a FIELDS table, `describes` whether the
   * account may ask for the field description.
   */
  datatype Backend =
    Backend(fields: seq<SapField>, rowsAt: (nat, string) -> seq<Row>, sendsMeta: bool, describes: bool)

  datatype Response = Response(fields: seq<SapField>, data: seq<string>)

  datatype CallError = DataBufferExceeded | OptionNotValid

  // ---------------------------------------------------------------- cells

  function Cell(row: Row, name: string): string {
    if name in row then row[name] else ""
  }

  function Cut(s: string, n: nat): string {
    if |s| <= n then s else s[..n]
  }

  function Spaces(n: nat): string {
    if n == 0 then "" else Spaces(n - 1) + " "
  }

  /** `ljust` on a value cut to the width. */
  function Padded(s: string, n: nat): string {
    Cut(s, n) + Spaces(n - |Cut(s, n)|)
  }

  function StripStart(s: string): string {
    if s != "" && PySpace(s[0]) then StripStart(s[1..]) else s
  }

  function StripEnd(s: string): string {
    if s != "" && PySpace(s[|s| - 1]) then StripEnd(s[..|s| - 1]) else s
  }

  /** `str.strip()`. */
  function Strip(s: string): string {
    StripEnd(StripStart(s))
  }

  /** `str.split(d)`. */
  function SplitOn(s: string, d: string): seq<string>
    requires d != ""
    decreases |s|
  {
    match IndexOf(s, d, 0)
    case None => [s]
    case Some(p) => [s[..p]] + SplitOn(s[p + |d|..], d)
  }

  function CutCells(row: Row, fields: seq<SapField>): seq<string> {
    if fields == [] then [] else [Cut(Cell(row, fields[0].name), fields[0].length)] + CutCells(row, fields[1..])
  }

  function PaddedCells(row: Row, fields: seq<SapField>): string {
    if fields == [] then "" else Padded(Cell(row, fields[0].name), fields[0].length) + PaddedCells(row, fields[1..])
  }

  /** One DATA-WA line. */
  function Pack(row: Row, fields: seq<SapField>, d: string): string {
    if d != "" then Join(CutCells(row, fields), d) else PaddedCells(row, fields)
  }

  function PackAll(rows: seq<Row>, fields: seq<SapField>, d: string): seq<string> {
    if rows == [] then [] else [Pack(rows[0], fields, d)] + PackAll(rows[1..], fields, d)
  }

  /** The rows from `skips` on, at most `count` of them; a count of zero means all. */
  function Page<T>(rows: seq<T>, skips: nat, count: nat): seq<T> {
    var rest := if skips <= |rows| then rows[skips..] else [];
    if count == 0 || |rest| <= count then rest else rest[..count]
  }

  /** Fields with the offsets that follow from their lengths and a gap between them. */
  function Offsets(fields: seq<SapField>, from: nat, gap: nat): seq<SapField> {
    if fields == [] then []
    else [fields[0].(offset := from)] + Offsets(fields[1..], from + fields[0].length + gap, gap)
  }

  function TotalWidth(fields: seq<SapField>): nat {
    if fields == [] then 0 else TotalWidth(fields[..|fields| - 1]) + fields[|fields| - 1].length
  }

  function LinesFit(lines: seq<string>): bool {
    forall k :: 0 <= k < |lines| ==> |lines[k]| <= MAX_OPTION_LINE
  }

  /** RFC_READ_TABLE with the limits of the system. */
  function Call(b: Backend, moment: nat, group: seq<SapField>, d: string, options: seq<string>, skips: nat, count: nat)
    : Result<Response, CallError>
  {
    if TotalWidth(group) + |d| * (|group| - 1) > MAX_ROW_WIDTH then Err(DataBufferExceeded)
    else if !LinesFit(options) then Err(OptionNotValid)
    else
      var rows := Page(b.rowsAt(moment, Join(options, " ")), skips, count);
      Ok(Response(if b.sendsMeta then Offsets(group, 0, |d|) else [], PackAll(rows, group, d)))
  }

  // ---------------------------------------------------------------- parsing

  /** The loop of `_field_meta` for an answer without FIELDS. */
  method ComputedMeta(requested: seq<SapField>) returns (out: seq<SapField>)
    ensures out == Offsets(requested, 0, 0)
  {
    var offset: nat := 0;
    out := [];
    for k := 0 to |requested|
      invariant out + Offsets(requested[k..], offset, 0) == Offsets(requested, 0, 0)
    {
      var f := requested[k];
      assert requested[k..][1..] == requested[k + 1..];
      out := out + [SapField(f.name, f.length, offset)];
      offset := offset + f.length;
    }
    assert requested[|requested|..] == [];
  }

  /** The field table of an answer, or the one that follows from the request. */
  function MetaOf(response: Response, requested: seq<SapField>): seq<SapField> {
    if response.fields != [] then response.fields else Offsets(requested, 0, 0)
  }

  method FieldMeta(response: Response, requested: seq<SapField>) returns (out: seq<SapField>)
    ensures out == MetaOf(response, requested)
  {
    if response.fields == [] {
      out := ComputedMeta(requested);
    } else {
      out := response.fields;
    }
  }

  /** Python slicing: bounds behind the end are cut. */
  function Slice(s: string, from: nat, len: nat): string {
    Cut(if from <= |s| then s[from..] else "", len)
  }

  function PartAt(parts: seq<string>, k: nat): string {
    if k < |parts| then parts[k] else ""
  }

  /** The row that names `fields[k]` as `values[k]`; a repeated name keeps the last value. */
  function RowOf(fields: seq<SapField>, values: seq<string>): Row
    requires |fields| == |values|
  {
    if fields == [] then map[]
    else
      var n := |fields| - 1;
      RowOf(fields[..n], values[..n])[fields[n].name := values[n]]
  }

  function SplitValues(parts: seq<string>, n: nat): (r: seq<string>)
    ensures |r| == n
  {
    if n == 0 then [] else SplitValues(parts, n - 1) + [Strip(PartAt(parts, n - 1))]
  }

  function SliceValues(wa: string, fields: seq<SapField>): (r: seq<string>)
    ensures |r| == |fields|
  {
    if fields == [] then []
    else [Strip(Slice(wa, fields[0].offset, fields[0].length))] + SliceValues(wa, fields[1..])
  }

  /** `parse_row`. */
  function ParseRow(wa: string, fields: seq<SapField>, d: string): Row {
    if d != "" then RowOf(fields, SplitValues(SplitOn(wa, d), |fields|)) else RowOf(fields, SliceValues(wa, fields))
  }

  // ---------------------------------------------------------------- what a flat read gives

  function FlatValues(row: Row, fields: seq<SapField>): (r: seq<string>)
    ensures |r| == |fields|
  {
    if fields == [] then []
    else [Strip(Cut(Cell(row, fields[0].name), fields[0].length))] + FlatValues(row, fields[1..])
  }

  /** The stripped projection of a row. */
  function FlatRow(row: Row, fields: seq<SapField>): Row {
    RowOf(fields, FlatValues(row, fields))
  }

  function FlatRows(rows: seq<Row>, fields: seq<SapField>): (r: seq<Row>)
    ensures |r| == |rows|
    ensures forall k :: 0 <= k < |rows| ==> r[k] == FlatRow(rows[k], fields)
  {
    if rows == [] then [] else [FlatRow(rows[0], fields)] + FlatRows(rows[1..], fields)
  }

  /** No cell of the row contains the first character of the delimiter. */
  predicate CleanRow(row: Row, d: string) {
    d != "" ==> forall name :: name in row ==> d[0] !in row[name]
  }

  // ---------------------------------------------------------------- stripping and splitting

  lemma {:induction false} SpacesAre(n: nat)
    ensures |Spaces(n)| == n && forall k :: 0 <= k < n ==> Spaces(n)[k] == ' '
  {
    if n > 0 {
      SpacesAre(n - 1);
    }
  }

  lemma {:induction false} StripEndSpaces(s: string, n: nat)
    ensures StripEnd(s + Spaces(n)) == StripEnd(s)
  {
    if n == 0 {
      assert s + "" == s;
    } else {
      StripEndSpaces(s, n - 1);
      var t := s + Spaces(n);
      assert t[..|t| - 1] == s + Spaces(n - 1);
      assert t[|t| - 1] == ' ';
    }
  }

  lemma {:induction false} StripStartSpaces(s: string, n: nat)
    ensures StripStart(s + Spaces(n)) == if StripStart(s) == "" then "" else StripStart(s) + Spaces(n)
  {
    if s == "" {
      assert s + Spaces(n) == Spaces(n);
      OnlySpaces(n);
    } else if PySpace(s[0]) {
      StripStartSpaces(s[1..], n);
      assert (s + Spaces(n))[1..] == s[1..] + Spaces(n);
    }
  }

  lemma {:induction false} OnlySpaces(n: nat)
    ensures StripStart(Spaces(n)) == ""
  {
    if n > 0 {
      OnlySpaces(n - 1);
      SpacesAre(n);
      SpacesAre(n - 1);
      assert Spaces(n)[1..] == Spaces(n - 1);
    }
  }

  lemma {:induction false} StripPadded(s: string, n: nat)
    ensures Strip(s + Spaces(n)) == Strip(s)
  {
    StripStartSpaces(s, n);
    StripEndSpaces(StripStart(s), n);
    hide StripStart, Spaces;
  }

  lemma {:induction false} SplitAt(a: string, d: string, z: string)
    requires d != "" && d[0] !in a
    ensures SplitOn(a + (d + z), d) == [a] + SplitOn(z, d)
  {
    var s := a + (d + z);
    forall k | 0 <= k < |a| ensures !At(s, d, k) {
      assert s[k] == a[k];
      assert k + |d| <= |s| ==> s[k..k + |d|][0] == s[k];
    }
    assert s[|a|..|a| + |d|] == d;
    hide IndexOf;
    IndexOfIs(s, d, 0, |a|);
    assert s[..|a|] == a && s[|a| + |d|..] == z;
  }

  lemma {:induction false} SplitNone(a: string, d: string)
    requires d != "" && d[0] !in a
    ensures SplitOn(a, d) == [a]
  {
    IndexOfFirst(a, d, 0);
    forall k: nat ensures !At(a, d, k) {
      assert k + |d| <= |a| ==> a[k..k + |d|][0] == a[k];
    }
  }

  /** Cells that do not contain the first character of the delimiter are split where they were joined. */
  lemma {:induction false} SplitJoined(parts: seq<string>, d: string)
    requires d != "" && parts != [] && forall k :: 0 <= k < |parts| ==> d[0] !in parts[k]
    ensures SplitOn(Join(parts, d), d) == parts
  {
    hide SplitOn;
    if |parts| == 1 {
      SplitNone(parts[0], d);
      assert parts == [parts[0]];
    } else {
      assert forall k :: 0 <= k < |parts[1..]| ==> parts[1..][k] == parts[k + 1];
      SplitJoined(parts[1..], d);
      SplitAt(parts[0], d, Join(parts[1..], d));
      assert parts == [parts[0]] + parts[1..];
    }
  }

  // ---------------------------------------------------------------- one line, packed and parsed

  lemma {:induction false} CellsClean(row: Row, fields: seq<SapField>, d: string)
    requires CleanRow(row, d) && d != ""
    ensures |CutCells(row, fields)| == |fields|
    ensures forall k :: 0 <= k < |fields| ==> d[0] !in CutCells(row, fields)[k]
    ensures forall k :: 0 <= k < |fields| ==>
      CutCells(row, fields)[k] == Cut(Cell(row, fields[k].name), fields[k].length)
  {
    if fields != [] {
      CellsClean(row, fields[1..], d);
    }
  }

  lemma {:induction false} FlatValueAt(row: Row, fields: seq<SapField>, k: nat)
    requires k < |fields|
    ensures FlatValues(row, fields)[k] == Strip(Cut(Cell(row, fields[k].name), fields[k].length))
  {
    if k > 0 {
      FlatValueAt(row, fields[1..], k - 1);
    }
  }

  lemma {:induction false} SplitValueAt(parts: seq<string>, n: nat, k: nat)
    requires k < n
    ensures SplitValues(parts, n)[k] == Strip(PartAt(parts, k))
  {
    if k < n - 1 {
      SplitValueAt(parts, n - 1, k);
    }
  }

  lemma {:induction false} DelimitedValues(row: Row, fields: seq<SapField>, d: string)
    requires d != "" && fields != [] && CleanRow(row, d)
    ensures SplitValues(SplitOn(Pack(row, fields, d), d), |fields|) == FlatValues(row, fields)
  {
    CellsClean(row, fields, d);
    var cells := CutCells(row, fields);
    hide Strip, Cut, Cell, CleanRow, SplitOn, Join, CutCells, FlatValues, SplitValues;
    SplitJoined(cells, d);
    forall k | 0 <= k < |fields| ensures SplitValues(cells, |fields|)[k] == FlatValues(row, fields)[k] {
      SplitValueAt(cells, |fields|, k);
      FlatValueAt(row, fields, k);
    }
  }

  lemma {:induction false} PaddedLength(s: string, n: nat)
    ensures |Padded(s, n)| == n && Strip(Padded(s, n)) == Strip(Cut(s, n))
  {
    SpacesAre(n - |Cut(s, n)|);
    StripPadded(Cut(s, n), n - |Cut(s, n)|);
    hide Strip, Spaces;
  }

  lemma {:induction false} SlicedValues(row: Row, fields: seq<SapField>, head: string)
    ensures SliceValues(head + PaddedCells(row, fields), Offsets(fields, |head|, 0)) == FlatValues(row, fields)
  {
    if fields != [] {
      var f := fields[0];
      var p := Padded(Cell(row, f.name), f.length);
      PaddedLength(Cell(row, f.name), f.length);
      hide Padded, Strip;
      SlicedValues(row, fields[1..], head + p);
      Assoc(head, p, PaddedCells(row, fields[1..]));
      SliceIs(head, p, PaddedCells(row, fields[1..]));
      assert Offsets(fields, |head|, 0)[1..] == Offsets(fields[1..], |head + p|, 0);
    }
  }

  lemma {:induction false} SliceIs(head: string, p: string, z: string)
    ensures Slice(head + p + z, |head|, |p|) == p
  {
    var s := head + p + z;
    assert s[|head|..] == p + z;
    assert (p + z)[..|p|] == p;
  }

  lemma {:induction false} OffsetsSame(fields: seq<SapField>, from: nat, gap: nat, values: seq<string>)
    requires |fields| == |values|
    ensures |Offsets(fields, from, gap)| == |fields|
    ensures RowOf(Offsets(fields, from, gap), values) == RowOf(fields, values)
  {
    OffsetsNames(fields, from, gap);
    hide Offsets;
    SameNames(Offsets(fields, from, gap), fields, values);
  }

  lemma {:induction false} OffsetsNames(fields: seq<SapField>, from: nat, gap: nat)
    ensures |Offsets(fields, from, gap)| == |fields|
    ensures forall k :: 0 <= k < |fields| ==> Offsets(fields, from, gap)[k].name == fields[k].name
  {
    if fields != [] {
      OffsetsNames(fields[1..], from + fields[0].length + gap, gap);
    }
  }

  lemma {:induction false} SameNames(a: seq<SapField>, b: seq<SapField>, values: seq<string>)
    requires |a| == |b| == |values| && forall k :: 0 <= k < |a| ==> a[k].name == b[k].name
    ensures RowOf(a, values) == RowOf(b, values)
  {
    if a != [] {
      SameNames(a[..|a| - 1], b[..|b| - 1], values[..|values| - 1]);
    }
  }

  /** What was packed is parsed as the stripped projection, with or without a FIELDS table in the answer. */
  lemma {:induction false} ParsedBack(row: Row, group: seq<SapField>, d: string, gap: nat)
    requires group != [] && CleanRow(row, d) && (d == "" ==> gap == 0)
    ensures ParseRow(Pack(row, group, d), Offsets(group, 0, gap), d) == FlatRow(row, group)
  {
    hide Offsets, RowOf, Pack, SplitOn, FlatValues, SliceValues, SplitValues, CleanRow;
    OffsetsNames(group, 0, gap);
    OffsetsSame(group, 0, gap, FlatValues(row, group));
    if d != "" {
      DelimitedValues(row, group, d);
    } else {
      PackedIs(row, group);
      SlicedValues(row, group, "");
    }
  }

  lemma {:induction false} PackedIs(row: Row, group: seq<SapField>)
    ensures Pack(row, group, "") == "" + PaddedCells(row, group)
  {
  }

  // ---------------------------------------------------------------- one page

  function UpperAll(names: seq<string>): seq<string> {
    if names == [] then [] else [Upper(names[0])] + UpperAll(names[1..])
  }

  function Names(fields: seq<SapField>): seq<string> {
    if fields == [] then [] else [fields[0].name] + Names(fields[1..])
  }

  /** The field with this name; of several the last. */
  function FieldNamed(fields: seq<SapField>, name: string): Option<SapField> {
    if fields == [] then None
    else if fields[|fields| - 1].name == name then Some(fields[|fields| - 1])
    else FieldNamed(fields[..|fields| - 1], name)
  }

  /** The columns to read: those asked for, in upper case, or all of the table. */
  function Wanted(b: Backend, fields: seq<string>): seq<string> {
    if fields != [] then UpperAll(fields) else Names(b.fields)
  }

  function Unknown(b: Backend, wanted: seq<string>): seq<string> {
    if wanted == [] then []
    else (if FieldNamed(b.fields, wanted[0]).None? then [wanted[0]] else []) + Unknown(b, wanted[1..])
  }

  function Selected(b: Backend, wanted: seq<string>): seq<SapField> {
    if wanted == [] then []
    else
      (match FieldNamed(b.fields, wanted[0]) case Some(f) => [f] case None => []) + Selected(b, wanted[1..])
  }

  /** The text that the system reads as the WHERE condition. */
  function Condition(clause: string): string {
    Join(Tokens(Normalised(clause)), " ")
  }

  /** The rows of one answer, projected to one column group. */
  function FlatPage(b: Backend, moment: nat, condition: string, group: seq<SapField>, skips: nat, count: nat): seq<Row> {
    FlatRows(Page(b.rowsAt(moment, condition), skips, count), group)
  }

  /** `target.update(extra)` for every pair of rows. */
  function Updated(merged: seq<Row>, chunk: seq<Row>): (r: seq<Row>)
    requires |merged| == |chunk|
    ensures |r| == |merged| && forall k :: 0 <= k < |r| ==> r[k] == merged[k] + chunk[k]
  {
    if merged == [] then [] else [merged[0] + chunk[0]] + Updated(merged[1..], chunk[1..])
  }

  function ParseAll(data: seq<string>, fields: seq<SapField>, d: string): seq<Row> {
    if data == [] then [] else [ParseRow(data[0], fields, d)] + ParseAll(data[1..], fields, d)
  }

  ghost predicate Clean(b: Backend, d: string) {
    forall moment, condition :: CleanRows(b.rowsAt(moment, condition), d)
  }

  predicate CleanRows(rows: seq<Row>, d: string) {
    forall k :: 0 <= k < |rows| ==> CleanRow(rows[k], d)
  }

  lemma {:induction false} PageClean(rows: seq<Row>, skips: nat, count: nat, d: string)
    requires CleanRows(rows, d)
    ensures CleanRows(Page(rows, skips, count), d)
  {
    hide CleanRow;
  }

  lemma {:induction false} ParsedAll(rows: seq<Row>, group: seq<SapField>, d: string, gap: nat)
    requires group != [] && CleanRows(rows, d) && (d == "" ==> gap == 0)
    ensures ParseAll(PackAll(rows, group, d), Offsets(group, 0, gap), d) == FlatRows(rows, group)
  {
    if rows != [] {
      assert CleanRow(rows[0], d);
      assert CleanRows(rows[1..], d) by {
        assert forall k :: 0 <= k < |rows[1..]| ==> rows[1..][k] == rows[k + 1];
      }
      hide CleanRow, CleanRows, ParseRow, Pack, FlatRow, Offsets;
      ParsedBack(rows[0], group, d, gap);
      ParsedAll(rows[1..], group, d, gap);
      assert PackAll(rows, group, d)[1..] == PackAll(rows[1..], group, d);
    }
  }

  lemma {:induction false} OffsetsAre(fields: seq<SapField>, from: nat, k: nat)
    requires k < |fields|
    ensures |Offsets(fields, from, 0)| == |fields|
    ensures Offsets(fields, from, 0)[k] == fields[k].(offset := from + TotalWidth(fields[..k]))
  {
    OffsetsNames(fields, from, 0);
    if k > 0 {
      OffsetsAre(fields[1..], from + fields[0].length, k - 1);
      assert fields[1..][..k - 1] == fields[1..k] && fields[..k][1..] == fields[1..k];
      TotalWidthFirst(fields[..k]);
    } else {
      assert fields[..0] == [];
    }
  }

  lemma {:induction false} TotalWidthFirst(fields: seq<SapField>)
    requires fields != []
    ensures TotalWidth(fields) == fields[0].length + TotalWidth(fields[1..])
  {
    var n := |fields| - 1;
    if n > 0 {
      TotalWidthFirst(fields[..n]);
      assert fields[..n][1..] == fields[1..][..n - 1];
    } else {
      assert fields[..0] == [] && fields[1..] == [];
    }
  }

  /**
   * With the field table, sent or computed, an answer is read as the projection of its rows; a computed table names the
   * requested fields, each behind all the characters of those before it.
   */
  lemma {:induction false} MetaReads(rows: seq<Row>, group: seq<SapField>, d: string, sendsMeta: bool)
    requires group != [] && CleanRows(rows, d)
    ensures
      var response := Response(if sendsMeta then Offsets(group, 0, |d|) else [], PackAll(rows, group, d));
      && ParseAll(response.data, MetaOf(response, group), d) == FlatRows(rows, group)
      && |MetaOf(response, group)| == |group|
      && (!sendsMeta ==> forall k :: 0 <= k < |group| ==>
            MetaOf(response, group)[k] == group[k].(offset := TotalWidth(group[..k])))
  {
    hide TotalWidth, ParseAll, PackAll, Offsets, FlatRows, CleanRows;
    OffsetsNames(group, 0, |d|);
    OffsetsNames(group, 0, 0);
    ParsedAll(rows, group, d, |d|);
    ParsedAll(rows, group, d, 0);
    forall k | 0 <= k < |group| ensures Offsets(group, 0, 0)[k] == group[k].(offset := TotalWidth(group[..k])) {
      OffsetsAre(group, 0, k);
    }
  }

  lemma {:induction false} WidthIsTotal(group: seq<SapField>, gap: nat)
    requires group != []
    ensures Width(group, Length, gap) == TotalWidth(group) + gap * (|group| - 1)
  {
    var n := |group| - 1;
    if n > 0 {
      WidthIsTotal(group[..n], gap);
      assert gap * n == gap * (n - 1) + gap;
    } else {
      assert TotalWidth(group[..0]) == 0;
    }
  }

  lemma {:induction false} LinesFitThem(lines: seq<string>, ts: seq<string>)
    requires Holds(lines, ts, MAX_OPTION_LINE)
    ensures LinesFit(lines) && Join(lines, " ") == Join(ts, " ")
  {
    JoinedLines(lines, MAX_OPTION_LINE);
    assert forall k :: 0 <= k < |lines| ==> LineOf(lines[k], Tokens(lines[k]), MAX_OPTION_LINE);
    hide Tokens, Join, Filled;
  }

  /** A group that fits is answered, and the answer is read as the flat rows of the group. */
  lemma {:induction false} GroupAnswered(
    b: Backend, moment: nat, group: seq<SapField>, d: string, options: seq<string>, skips: nat, count: nat)
    requires group != [] && Fits(group, Length, |d|, MAX_ROW_WIDTH) && LinesFit(options) && Clean(b, d)
    ensures
      var response := Call(b, moment, group, d, options, skips, count);
      && response.Ok?
      && ParseAll(response.value.data, MetaOf(response.value, group), d)
         == FlatPage(b, moment, Join(options, " "), group, skips, count)
  {
    WidthIsTotal(group, |d|);
    var rows := b.rowsAt(moment, Join(options, " "));
    assert CleanRows(rows, d);
    hide Width, TotalWidth, ParseAll, PackAll, Offsets, FlatRows, Join, LinesFit, Page, CleanRows, Clean, MetaOf;
    PageClean(rows, skips, count, d);
    MetaReads(Page(rows, skips, count), group, d, b.sendsMeta);
  }

  datatype Warning = SplitColumns(groups: nat) | NotDescribed

  datatype ReadResult =
    ReadResult(rows: seq<Row>, fields: seq<SapField>, fieldGroups: nat, truncated: bool, warnings: seq<Warning>)

  /** The first `k` groups merged by row position. */
  function MergedRows(
    b: Backend, moment: nat, condition: string, groups: seq<seq<SapField>>, skips: nat, count: nat, k: nat): seq<Row>
    requires k <= |groups|
  {
    if k == 0 then []
    else
      var chunk := FlatPage(b, moment + k - 1, condition, groups[k - 1], skips, count);
      var merged := MergedRows(b, moment, condition, groups, skips, count, k - 1);
      if k == 1 || |merged| != |chunk| then chunk else Updated(merged, chunk)
  }

  function PageLength(b: Backend, moment: nat, condition: string, skips: nat, count: nat): nat {
    |Page(b.rowsAt(moment, condition), skips, count)|
  }

  /** The call for group `g` saw another number of rows than the first call. */
  predicate Changed(b: Backend, moment: nat, condition: string, skips: nat, count: nat, g: nat) {
    PageLength(b, moment + g, condition, skips, count) != PageLength(b, moment, condition, skips, count)
  }

  /** Every token of the clause fits on a line. */
  predicate TokensFit(clause: string) {
    var ts := Tokens(Normalised(clause));
    NoneTooLong(ts, |ts|, MAX_OPTION_LINE)
  }

  /** Every column can be read by itself, every token fits on a line, and every name is known. */
  predicate Readable(b: Backend, fields: seq<string>, clause: string) {
    var wanted := Wanted(b, fields);
    && Unknown(b, wanted) == []
    && TokensFit(clause)
    && NoneTooWide(Selected(b, wanted), |Selected(b, wanted)|, MAX_ROW_WIDTH)
  }

  /** What one page of a described table is: the groups merged, or the first error in order. */
  ghost predicate PageByGroups(
    b: Backend, moment: nat, fields: seq<string>, clause: string, d: string, skips: nat, count: nat,
    r: Result<ReadResult, SapError>, groups: seq<seq<SapField>>)
  {
    && (Unknown(b, Wanted(b, fields)) != [] ==> r == Err(FieldNotValid(Unknown(b, Wanted(b, fields)))))
    && (r.Err? && !r.error.SplitRowMismatch? ==> !Readable(b, fields, clause))
    && (Unknown(b, Wanted(b, fields)) == [] && !TokensFit(clause) ==> r.Err? && r.error.OptionTooLong?)
    && (r.Err? && r.error.FieldTooWide? ==> TokensFit(clause))
    && (Readable(b, fields, clause) ==>
          && Concat(groups) == Selected(b, Wanted(b, fields)) && Filled(groups, Length, |d|, MAX_ROW_WIDTH)
          && (r.Err? <==> exists g :: 0 < g < |groups| && Changed(b, moment, Condition(clause), skips, count, g)))
    && (r.Ok? ==>
          && Readable(b, fields, clause)
          && r.value.rows == MergedRows(b, moment, Condition(clause), groups, skips, count, |groups|)
          && r.value.fields == Selected(b, Wanted(b, fields)) && r.value.fieldGroups == |groups|
          && (r.value.truncated <==> count > 0 && |r.value.rows| >= count)
          && r.value.warnings == (if |groups| > 1 then [SplitColumns(|groups|)] else []))
  }

  /** All wanted columns fit into one row of an answer. */
  predicate RowFits(group: seq<SapField>, d: string) {
    TotalWidth(group) + |d| * (|group| - 1) <= MAX_ROW_WIDTH
  }

  /** What one page is for an account that may not ask for the field description: one call, or the error. */
  ghost predicate PageInOne(
    b: Backend, moment: nat, fields: seq<string>, clause: string, d: string, skips: nat, count: nat,
    r: Result<ReadResult, SapError>)
  {
    var group := Selected(b, Wanted(b, fields));
    && (!TokensFit(clause) ==> r.Err? && r.error.OptionTooLong?)
    && (TokensFit(clause) && Unknown(b, Wanted(b, fields)) != [] ==>
          r == Err(FieldNotValid(Unknown(b, Wanted(b, fields)))))
    && (TokensFit(clause) && Unknown(b, Wanted(b, fields)) == [] ==>
          if RowFits(group, d) then
            && r.Ok?
            && |r.value.rows| == PageLength(b, moment, Condition(clause), skips, count)
            && (b.sendsMeta ==>
                  && r.value.rows == FlatPage(b, moment, Condition(clause), group, skips, count)
                  && r.value.fields == Offsets(group, 0, |d|))
            && (!b.sendsMeta ==> r.value.fields == [] && forall k :: 0 <= k < |r.value.rows| ==> r.value.rows[k] == map[])
            && r.value.fieldGroups == 1 && r.value.warnings == [NotDescribed]
            && (r.value.truncated <==> count > 0 && |r.value.rows| >= count)
          else r == Err(RowTooWide))
  }

  lemma {:induction false} UnknownPage(
    b: Backend, moment: nat, fields: seq<string>, clause: string, d: string, skips: nat, count: nat)
    requires Unknown(b, Wanted(b, fields)) != []
    ensures PageByGroups(b, moment, fields, clause, d, skips, count, Err(FieldNotValid(Unknown(b, Wanted(b, fields)))), [])
  {
    hide Wanted, Unknown, TokensFit, Selected, NoneTooWide;
  }

  lemma {:induction false} TooLongPage(
    b: Backend, moment: nat, fields: seq<string>, clause: string, d: string, skips: nat, count: nat, error: SapError)
    requires Unknown(b, Wanted(b, fields)) == [] && !TokensFit(clause) && error.OptionTooLong?
    ensures PageByGroups(b, moment, fields, clause, d, skips, count, Err(error), [])
  {
    hide Wanted, Unknown, TokensFit, Selected, NoneTooWide;
  }

  lemma {:induction false} TooWidePage(
    b: Backend, moment: nat, fields: seq<string>, clause: string, d: string, skips: nat, count: nat, error: SapError)
    requires Unknown(b, Wanted(b, fields)) == [] && TokensFit(clause) && error.FieldTooWide?
    requires var selected := Selected(b, Wanted(b, fields)); !NoneTooWide(selected, |selected|, MAX_ROW_WIDTH)
    ensures PageByGroups(b, moment, fields, clause, d, skips, count, Err(error), [])
  {
    hide Wanted, Unknown, TokensFit, Selected, NoneTooWide;
  }

  /** The column groups of a readable page. */
  ghost predicate Grouped(b: Backend, fields: seq<string>, clause: string, d: string, groups: seq<seq<SapField>>) {
    && Readable(b, fields, clause)
    && Concat(groups) == Selected(b, Wanted(b, fields)) && Filled(groups, Length, |d|, MAX_ROW_WIDTH)
  }

  lemma {:induction false} ChangedPage(
    b: Backend, moment: nat, fields: seq<string>, clause: string, d: string, skips: nat, count: nat,
    groups: seq<seq<SapField>>, g: nat, error: SapError)
    requires Grouped(b, fields, clause, d, groups) && 0 < g < |groups| && error.SplitRowMismatch?
    requires Changed(b, moment, Condition(clause), skips, count, g)
    ensures PageByGroups(b, moment, fields, clause, d, skips, count, Err(error), groups)
  {
    hide Wanted, Selected, NoneTooWide, Filled, Concat, Changed, Condition;
  }

  lemma {:induction false} DonePage(
    b: Backend, moment: nat, fields: seq<string>, clause: string, d: string, skips: nat, count: nat,
    groups: seq<seq<SapField>>, r: ReadResult)
    requires Grouped(b, fields, clause, d, groups)
    requires forall g :: 0 < g < |groups| ==> !Changed(b, moment, Condition(clause), skips, count, g)
    requires r.rows == MergedRows(b, moment, Condition(clause), groups, skips, count, |groups|)
    requires r.fields == Selected(b, Wanted(b, fields)) && r.fieldGroups == |groups|
    requires r.truncated <==> count > 0 && |r.rows| >= count
    requires r.warnings == if |groups| > 1 then [SplitColumns(|groups|)] else []
    ensures PageByGroups(b, moment, fields, clause, d, skips, count, Ok(r), groups)
  {
    hide Wanted, Selected, NoneTooWide, Filled, Concat, Changed, Condition, MergedRows, TokensFit, Unknown;
  }

  /** The read by column groups; `moment` is the number of the first call. */
  method ReadGroups(b: Backend, moment: nat, fields: seq<string>, clause: string, d: string, skips: nat, count: nat)
    returns (r: Result<ReadResult, SapError>, ghost groups: seq<seq<SapField>>)
    requires b.fields != [] && Clean(b, d)
    ensures PageByGroups(b, moment, fields, clause, d, skips, count, r, groups)
  {
    hide *;
    groups := [];
    var wanted := Wanted(b, fields);
    var unknown := Unknown(b, wanted);
    ReadableIs(b, fields, clause);
    if unknown != [] {
      UnknownPage(b, moment, fields, clause, d, skips, count);
      r := Err(FieldNotValid(unknown));
      return;
    }
    var selected := Selected(b, wanted);
    var options := SplitWhereClause(clause, MAX_OPTION_LINE);
    if options.Err? {
      TooLongNamed(Tokens(Normalised(clause)), MAX_OPTION_LINE, options.error);
      TooLongPage(b, moment, fields, clause, d, skips, count, options.error);
      r := Err(options.error);
      return;
    }
    var split := SplitFieldsByWidth(selected, d, MAX_ROW_WIDTH);
    if split.Err? {
      TooWidePage(b, moment, fields, clause, d, skips, count, split.error);
      r := Err(split.error);
      return;
    }
    groups := split.value;
    LinesFitThem(options.value, Tokens(Normalised(clause)));
    ConditionIs(clause);
    GroupedIs(b, fields, clause, d, groups);
    ghost var condition := Condition(clause);
    var merged: seq<Row> := [];
    MergedStarts(b, moment, condition, split.value, skips, count);
    for index := 0 to |split.value|
      invariant merged == MergedRows(b, moment, condition, groups, skips, count, index)
      invariant index > 0 ==> |merged| == PageLength(b, moment, condition, skips, count)
      invariant forall g :: 0 < g < index ==> !Changed(b, moment, condition, skips, count, g)
    {
      var group := split.value[index];
      FilledGroup(split.value, index, |d|);
      GroupAnswered(b, moment + index, group, d, options.value, skips, count);
      var response := Call(b, moment + index, group, d, options.value, skips, count);
      var meta := FieldMeta(response.value, group);
      var chunk := ParseAll(response.value.data, meta, d);
      MergeStep(b, moment, condition, split.value, skips, count, index);
      if index == 0 {
        FirstSame(b, moment, condition, skips, count);
        merged := chunk;
      } else {
        if |chunk| != |merged| {
          ChangedPage(b, moment, fields, clause, d, skips, count, groups, index, SplitRowMismatch(index + 1, |chunk|, |merged|));
          r := Err(SplitRowMismatch(index + 1, |chunk|, |merged|));
          return;
        }
        merged := Updated(merged, chunk);
      }
    }
    var warnings := if |split.value| > 1 then [SplitColumns(|split.value|)] else [];
    r := Ok(ReadResult(merged, selected, |split.value|, count > 0 && |merged| >= count, warnings));
    DonePage(b, moment, fields, clause, d, skips, count, groups, r.value);
  }

  lemma {:induction false} GroupedIs(b: Backend, fields: seq<string>, clause: string, d: string, groups: seq<seq<SapField>>)
    requires Readable(b, fields, clause)
    requires Concat(groups) == Selected(b, Wanted(b, fields)) && Filled(groups, Length, |d|, MAX_ROW_WIDTH)
    ensures Grouped(b, fields, clause, d, groups)
  {
  }

  lemma {:induction false} FirstSame(b: Backend, moment: nat, condition: string, skips: nat, count: nat)
    ensures !Changed(b, moment, condition, skips, count, 0)
  {
  }

  lemma {:induction false} NoColumns(data: seq<string>, d: string)
    ensures |ParseAll(data, [], d)| == |data|
    ensures forall k :: 0 <= k < |data| ==> ParseAll(data, [], d)[k] == map[]
  {
    if data != [] {
      NoColumns(data[1..], d);
    }
  }

  lemma {:induction false} PackedLength(rows: seq<Row>, group: seq<SapField>, d: string)
    ensures |PackAll(rows, group, d)| == |rows|
  {
    if rows != [] {
      PackedLength(rows[1..], group, d);
    }
  }

  /** The answer to the one call, read with the field table that it carries, if any. */
  lemma {:induction false} DirectAnswer(
    b: Backend, moment: nat, group: seq<SapField>, d: string, options: seq<string>, skips: nat, count: nat)
    requires group != [] && LinesFit(options) && Clean(b, d)
    ensures
      var response, condition := Call(b, moment, group, d, options, skips, count), Join(options, " ");
      if RowFits(group, d) then
        && response.Ok?
        && var meta := MetaOf(response.value, []);
           var rows := ParseAll(response.value.data, meta, d);
           && |rows| == PageLength(b, moment, condition, skips, count)
           && (b.sendsMeta ==> meta == Offsets(group, 0, |d|) && rows == FlatPage(b, moment, condition, group, skips, count))
           && (!b.sendsMeta ==> meta == [] && forall k :: 0 <= k < |rows| ==> rows[k] == map[])
      else response == Err(DataBufferExceeded)
  {
    var rows := b.rowsAt(moment, Join(options, " "));
    assert CleanRows(rows, d);
    hide TotalWidth, ParseAll, PackAll, FlatRows, Join, LinesFit, Page, CleanRows, Clean;
    OffsetsNames(group, 0, |d|);
    PageClean(rows, skips, count, d);
    ParsedAll(Page(rows, skips, count), group, d, |d|);
    PackedLength(Page(rows, skips, count), group, d);
    NoColumns(PackAll(Page(rows, skips, count), group, d), d);
  }

  /** `_read_direct`: one call without knowing the widths. */
  method ReadDirect(b: Backend, moment: nat, fields: seq<string>, clause: string, d: string, skips: nat, count: nat)
    returns (r: Result<ReadResult, SapError>)
    requires b.fields != [] && Clean(b, d)
    ensures PageInOne(b, moment, fields, clause, d, skips, count, r)
  {
    hide TokensFit, Wanted, Unknown, Selected, RowFits, Condition, MetaOf, ParseAll, FlatPage, PageLength, Offsets, Call,
      Clean, Join, Tokens, Holds, LinesFit, FirstTooLong, NoneTooLong;
    ConditionIs(clause);
    ReadableIs(b, fields, clause);
    var options := SplitWhereClause(clause, MAX_OPTION_LINE);
    if options.Err? {
      TooLongNamed(Tokens(Normalised(clause)), MAX_OPTION_LINE, options.error);
      r := Err(options.error);
      return;
    }
    LinesFitThem(options.value, Tokens(Normalised(clause)));
    var unknown := Unknown(b, Wanted(b, fields));
    if unknown != [] {
      r := Err(FieldNotValid(unknown));
      return;
    }
    WantedSome(b, fields);
    SelectedSome(b, Wanted(b, fields));
    var group := Selected(b, Wanted(b, fields));
    DirectAnswer(b, moment, group, d, options.value, skips, count);
    var response := Call(b, moment, group, d, options.value, skips, count);
    if response.Err? {
      r := Err(RowTooWide);
      return;
    }
    var meta := FieldMeta(response.value, []);
    var rows := ParseAll(response.value.data, meta, d);
    r := Ok(ReadResult(rows, meta, 1, count > 0 && |rows| >= count, [NotDescribed]));
  }

  /** `read_table`: by column groups, or in one call when the account may not ask for the field description. */
  method ReadTable(b: Backend, moment: nat, fields: seq<string>, clause: string, d: string, skips: nat, count: nat)
    returns (r: Result<ReadResult, SapError>, ghost groups: seq<seq<SapField>>)
    requires b.fields != [] && Clean(b, d)
    ensures b.describes ==> PageByGroups(b, moment, fields, clause, d, skips, count, r, groups)
    ensures !b.describes ==> PageInOne(b, moment, fields, clause, d, skips, count, r)
  {
    groups := [];
    if b.describes {
      r, groups := ReadGroups(b, moment, fields, clause, d, skips, count);
    } else {
      r := ReadDirect(b, moment, fields, clause, d, skips, count);
    }
  }

  lemma {:induction false} ReadableIs(b: Backend, fields: seq<string>, clause: string)
    ensures
      var wanted, ts := Wanted(b, fields), Tokens(Normalised(clause));
      && (TokensFit(clause) <==> NoneTooLong(ts, |ts|, MAX_OPTION_LINE))
      && (Readable(b, fields, clause)
          <==> Unknown(b, wanted) == [] && TokensFit(clause)
               && NoneTooWide(Selected(b, wanted), |Selected(b, wanted)|, MAX_ROW_WIDTH))
  {
  }

  lemma {:induction false} ConditionIs(clause: string)
    ensures Condition(clause) == Join(Tokens(Normalised(clause)), " ")
  {
  }

  lemma {:induction false} MergedStarts(
    b: Backend, moment: nat, condition: string, groups: seq<seq<SapField>>, skips: nat, count: nat)
    ensures MergedRows(b, moment, condition, groups, skips, count, 0) == []
  {
  }

  lemma {:induction false} FilledGroup(groups: seq<seq<SapField>>, k: nat, gap: nat)
    requires k < |groups| && Filled(groups, Length, gap, MAX_ROW_WIDTH)
    ensures groups[k] != [] && Fits(groups[k], Length, gap, MAX_ROW_WIDTH)
  {
  }

  lemma {:induction false} MergeStep(
    b: Backend, moment: nat, condition: string, groups: seq<seq<SapField>>, skips: nat, count: nat, k: nat)
    requires k < |groups|
    ensures
      var chunk := FlatPage(b, moment + k, condition, groups[k], skips, count);
      var merged := MergedRows(b, moment, condition, groups, skips, count, k);
      && |chunk| == PageLength(b, moment + k, condition, skips, count)
      && (Changed(b, moment, condition, skips, count, k) <==> |chunk| != PageLength(b, moment, condition, skips, count))
      && (k == 0 ==> MergedRows(b, moment, condition, groups, skips, count, 1) == chunk)
      && (k > 0 && |merged| == |chunk| ==>
            MergedRows(b, moment, condition, groups, skips, count, k + 1) == Updated(merged, chunk)
            && |Updated(merged, chunk)| == |merged|)
  {
    hide FlatRows, Page;
  }

  // ---------------------------------------------------------------- a table that does not change

  ghost predicate Static(b: Backend) {
    forall m: nat, n: nat, condition :: SameRows(b, m, n, condition)
  }

  predicate SameRows(b: Backend, m: nat, n: nat, condition: string) {
    b.rowsAt(m, condition) == b.rowsAt(n, condition)
  }

  lemma {:induction false} RowOfAppend(a: seq<SapField>, va: seq<string>, c: seq<SapField>, vc: seq<string>)
    requires |a| == |va| && |c| == |vc|
    ensures RowOf(a + c, va + vc) == RowOf(a, va) + RowOf(c, vc)
  {
    if c == [] {
      assert a + c == a && va + vc == va;
      assert RowOf(a, va) + map[] == RowOf(a, va);
    } else {
      var n := |c| - 1;
      RowOfAppend(a, va, c[..n], vc[..n]);
      assert (a + c)[..|a + c| - 1] == a + c[..n];
      assert (va + vc)[..|va + vc| - 1] == va + vc[..n];
      UpdateLast(RowOf(a, va), RowOf(c[..n], vc[..n]), c[n].name, vc[n]);
    }
  }

  lemma {:induction false} UpdateLast(m: Row, n: Row, k: string, v: string)
    ensures (m + n)[k := v] == m + n[k := v]
  {
  }

  lemma {:induction false} FlatValuesAppend(row: Row, a: seq<SapField>, c: seq<SapField>)
    ensures FlatValues(row, a + c) == FlatValues(row, a) + FlatValues(row, c)
  {
    if a == [] {
      assert a + c == c;
    } else {
      FlatValuesAppend(row, a[1..], c);
      assert (a + c)[1..] == a[1..] + c;
    }
  }

  /** Projections to neighbouring column groups add up. */
  lemma {:induction false} FlatRowAppend(row: Row, a: seq<SapField>, c: seq<SapField>)
    ensures FlatRow(row, a) + FlatRow(row, c) == FlatRow(row, a + c)
  {
    FlatValuesAppend(row, a, c);
    RowOfAppend(a, FlatValues(row, a), c, FlatValues(row, c));
  }

  lemma {:induction false} UpdatedFlat(rows: seq<Row>, a: seq<SapField>, c: seq<SapField>)
    ensures Updated(FlatRows(rows, a), FlatRows(rows, c)) == FlatRows(rows, a + c)
  {
    hide FlatRow;
    forall k | 0 <= k < |rows| ensures Updated(FlatRows(rows, a), FlatRows(rows, c))[k] == FlatRows(rows, a + c)[k] {
      FlatRowAppend(rows[k], a, c);
    }
  }

  /** The merged column groups are the flat projection to all columns. */
  lemma {:induction false} MergedIsFlat(
    b: Backend, moment: nat, condition: string, groups: seq<seq<SapField>>, skips: nat, count: nat, k: nat)
    requires Static(b) && 0 < k <= |groups|
    ensures
      MergedRows(b, moment, condition, groups, skips, count, k)
      == FlatPage(b, 0, condition, Concat(groups[..k]), skips, count)
  {
    var last := groups[k - 1];
    assert groups[..k] == groups[..k - 1] + [last];
    assert SameRows(b, moment + k - 1, 0, condition);
    ConcatAppend(groups[..k - 1], [last]);
    ConcatOne(last);
    hide Concat, Page, FlatRows, Static;
    if k > 1 {
      MergedIsFlat(b, moment, condition, groups, skips, count, k - 1);
      UpdatedFlat(Page(b.rowsAt(0, condition), skips, count), Concat(groups[..k - 1]), last);
    } else {
      assert groups[..0] == [];
      NoneConcat<SapField>();
      assert [] + last == last;
    }
  }

  lemma {:induction false} NoneConcat<T>()
    ensures Concat<T>([]) == []
  {
  }

  lemma {:induction false} NeverChanged(b: Backend, moment: nat, condition: string, skips: nat, count: nat, g: nat)
    requires Static(b)
    ensures !Changed(b, moment, condition, skips, count, g)
    ensures PageLength(b, moment, condition, skips, count) == PageLength(b, 0, condition, skips, count)
  {
    assert SameRows(b, moment + g, moment, condition) && SameRows(b, moment, 0, condition);
    hide Page;
  }

  /** All columns in one piece: what the table holds, projected, for the columns asked for. */
  function FlatTable(b: Backend, fields: seq<string>, clause: string): seq<Row> {
    FlatRows(b.rowsAt(0, Condition(clause)), Selected(b, Wanted(b, fields)))
  }

  lemma {:induction false} FlatPageIsPage(rows: seq<Row>, fields: seq<SapField>, skips: nat, count: nat)
    ensures FlatRows(Page(rows, skips, count), fields) == Page(FlatRows(rows, fields), skips, count)
  {
    hide FlatRow;
  }

  lemma {:induction false} SelectedSome(b: Backend, wanted: seq<string>)
    requires wanted != [] && Unknown(b, wanted) == []
    ensures Selected(b, wanted) != []
  {
  }

  lemma {:induction false} WantedSome(b: Backend, fields: seq<string>)
    requires b.fields != []
    ensures Wanted(b, fields) != []
  {
  }

  /** The page can be read: by column groups, or, for an account that may not ask for widths, in one call. */
  predicate Answerable(b: Backend, fields: seq<string>, clause: string, d: string) {
    if b.describes then Readable(b, fields, clause)
    else
      Unknown(b, Wanted(b, fields)) == [] && TokensFit(clause) && RowFits(Selected(b, Wanted(b, fields)), d)
  }

  lemma {:induction false} OffsetNames(fields: seq<SapField>, from: nat, gap: nat)
    ensures Names(Offsets(fields, from, gap)) == Names(fields)
  {
    if fields != [] {
      OffsetNames(fields[1..], from + fields[0].length + gap, gap);
      assert Offsets(fields, from, gap)[1..] == Offsets(fields[1..], from + fields[0].length + gap, gap);
    }
  }

  /** Merged column groups of a table that does not change. */
  lemma {:induction false} GroupsAreFlat(
    b: Backend, moment: nat, fields: seq<string>, clause: string, d: string, skips: nat, count: nat,
    r: Result<ReadResult, SapError>, groups: seq<seq<SapField>>)
    requires b.fields != [] && Static(b) && PageByGroups(b, moment, fields, clause, d, skips, count, r, groups)
    ensures r.Ok? <==> Readable(b, fields, clause)
    ensures r.Ok? ==> r.value.rows == Page(FlatTable(b, fields, clause), skips, count)
  {
    hide Readable, Wanted, Unknown, Selected, TokensFit, MergedRows, Condition, Changed, Concat, Filled, Static, FlatTable,
      Page;
    forall g ensures !Changed(b, moment, Condition(clause), skips, count, g) {
      NeverChanged(b, moment, Condition(clause), skips, count, g);
    }
    if r.Ok? {
      ReadableIs(b, fields, clause);
      WantedSome(b, fields);
      SelectedSome(b, Wanted(b, fields));
      NoneConcat<SapField>();
      assert groups[..|groups|] == groups;
      MergedIsFlat(b, moment, Condition(clause), groups, skips, count, |groups|);
      FlatTablePage(b, fields, clause, skips, count);
    }
  }

  /** The one call on a table that does not change, when the answer carries its field table. */
  lemma {:induction false} OneCallIsFlat(
    b: Backend, moment: nat, fields: seq<string>, clause: string, d: string, skips: nat, count: nat,
    r: Result<ReadResult, SapError>)
    requires Static(b) && b.sendsMeta && !b.describes && PageInOne(b, moment, fields, clause, d, skips, count, r)
    ensures r.Ok? <==> Answerable(b, fields, clause, d)
    ensures r.Ok? ==>
      && r.value.rows == Page(FlatTable(b, fields, clause), skips, count)
      && Names(r.value.fields) == Names(Selected(b, Wanted(b, fields)))
  {
    assert SameRows(b, moment, 0, Condition(clause));
    hide Wanted, Unknown, Selected, TokensFit, Condition, FlatTable, Page, FlatRows, Static, RowFits, Offsets, Names;
    OffsetNames(Selected(b, Wanted(b, fields)), 0, |d|);
    FlatTablePage(b, fields, clause, skips, count);
  }

  /** One page of a table that does not change: the page of the flat table, whatever the column groups are. */
  method ReadStatic(b: Backend, moment: nat, fields: seq<string>, clause: string, d: string, skips: nat, count: nat)
    returns (r: Result<ReadResult, SapError>)
    requires b.fields != [] && Clean(b, d) && Static(b) && (b.describes || b.sendsMeta)
    ensures r.Ok? <==> Answerable(b, fields, clause, d)
    ensures r.Ok? ==>
      && r.value.rows == Page(FlatTable(b, fields, clause), skips, count)
      && Names(r.value.fields) == Names(Selected(b, Wanted(b, fields)))
      && (r.value.truncated <==> count > 0 && |r.value.rows| >= count)
  {
    hide Readable, Wanted, Unknown, Selected, TokensFit, MergedRows, Condition, Changed, Concat, Filled, Static, FlatTable,
      Page, FlatPage, RowFits, Offsets, Names, Clean;
    ghost var groups;
    r, groups := ReadTable(b, moment, fields, clause, d, skips, count);
    if b.describes {
      GroupsAreFlat(b, moment, fields, clause, d, skips, count, r, groups);
    } else {
      OneCallIsFlat(b, moment, fields, clause, d, skips, count, r);
    }
  }

  /** Without a field table in the answer the one call loses every column: rows come back exactly when there are none. */
  lemma {:induction false} DirectNeedsMeta(
    b: Backend, moment: nat, fields: seq<string>, clause: string, d: string, skips: nat, count: nat,
    r: Result<ReadResult, SapError>)
    requires b.fields != [] && PageInOne(b, moment, fields, clause, d, skips, count, r) && r.Ok?
    ensures
      r.value.rows == FlatPage(b, moment, Condition(clause), Selected(b, Wanted(b, fields)), skips, count)
      <==> b.sendsMeta || PageLength(b, moment, Condition(clause), skips, count) == 0
  {
    var group := Selected(b, Wanted(b, fields));
    WantedSome(b, fields);
    hide Wanted, Unknown, Selected, TokensFit, Condition, Page, RowFits, Offsets;
    if r.value.rows != [] && !b.sendsMeta {
      SelectedSome(b, Wanted(b, fields));
      var row := Page(b.rowsAt(moment, Condition(clause)), skips, count)[0];
      NamedColumn(row, group);
    }
  }

  lemma {:induction false} NamedColumn(row: Row, group: seq<SapField>)
    requires group != []
    ensures FlatRow(row, group) != map[]
  {
    hide FlatValues;
    assert group[|group| - 1].name in FlatRow(row, group);
  }

  lemma {:induction false} FlatTablePage(b: Backend, fields: seq<string>, clause: string, skips: nat, count: nat)
    ensures
      FlatPage(b, 0, Condition(clause), Selected(b, Wanted(b, fields)), skips, count)
      == Page(FlatTable(b, fields, clause), skips, count)
  {
    hide Page, FlatRows, Condition, Selected, Wanted;
    FlatPageIsPage(b.rowsAt(0, Condition(clause)), Selected(b, Wanted(b, fields)), skips, count);
  }

  // ---------------------------------------------------------------- all pages

  lemma {:induction false} MultipleIsFar(d: int, p: nat)
    requires p > 0
    ensures d >= 1 ==> d * p >= p
    ensures d <= -1 ==> d * p + p <= 0
  {
    if d >= 1 {
      assert d * p == (d - 1) * p + p;
    } else if d <= -1 {
      assert d * p == (d + 1) * p - p;
    }
  }

  lemma {:induction false} WholePages(n: nat, p: nat, k: nat, r: nat)
    requires p > 0 && n == k * p + r && r < p
    ensures n / p == k
  {
    var q := n / p;
    assert n == q * p + n % p;
    assert (q - k) * p == q * p - k * p;
    MultipleIsFar(q - k, p);
  }

  /** A page that starts where the last one ended, and its place in the rows up to the limit. */
  lemma {:induction false} PageFacts<T>(flat: seq<T>, limit: Option<nat>, n: nat, p: nat)
    requires p > 0 && n <= |CutAt(flat, limit)|
    ensures
      var target, rows, kept := CutAt(flat, limit), Page(flat, n, p), Kept(Page(flat, n, p), n, limit);
      && |rows| <= p && (rows == [] ==> n == |flat| == |target|)
      && n + |kept| <= |target| && kept == target[n..n + |kept|] && |kept| <= |rows|
      && (limit.Some? && n + |kept| >= limit.value ==> n + |kept| == |target|)
      && (|rows| < p ==> n + |rows| == |flat| && n + |kept| == |target|)
      && (limit.None? ==> kept == rows && target == flat)
      && (limit.Some? && n + |kept| < limit.value ==> kept == rows)
      && (kept == [] && rows != [] ==> limit == Some(n) && |target| == n)
  {
    var target, kept := CutAt(flat, limit), Kept(Page(flat, n, p), n, limit);
    assert forall i :: 0 <= i < |target| ==> target[i] == flat[i];
    assert forall i :: 0 <= i < |kept| ==> kept[i] == flat[n + i];
  }

  /** The batch of no rows that a limit of zero leaves. */
  lemma {:induction false} OnlyEmpty<W>(b: Batch<Row, W>, size: nat, mark: seq<Row> -> Option<W>)
    requires b.rows == [] && b.mark == mark([]) == None
    ensures Batched([] + [b.(isLast := true)], [], size, mark)
  {
    EmptyCloses(b.columns, size, mark);
    assert [] + [b.(isLast := true)] == [Batch([], b.columns, None, true)];
  }

  /** `_read_table`: page after page by skips and counts, one batch held back, up to the limit. */
  method ReadPages<W>(
    b: Backend, fields: seq<string>, clause: string, d: string, batchSize: nat, maxPage: nat, limit: Option<nat>,
    mark: seq<Row> -> Option<W>)
    returns (out: Result<seq<Batch<Row, W>>, SapError>, ghost requests: nat)
    requires b.fields != [] && Clean(b, d) && Static(b) && (b.describes || b.sendsMeta)
    requires batchSize > 0 && maxPage > 0 && mark([]) == None
    ensures out.Ok? <==> Answerable(b, fields, clause, d)
    ensures out.Ok? ==> Batched(out.value, CutAt(FlatTable(b, fields, clause), limit), Min(batchSize, maxPage), mark)
    ensures out.Ok? && limit.None? ==> requests == |FlatTable(b, fields, clause)| / Min(batchSize, maxPage) + 1
  {
    hide *;
    var pageSize := Min(batchSize, maxPage);
    MinIs(batchSize, maxPage);
    ghost var flat := FlatTable(b, fields, clause);
    ghost var target := CutAt(flat, limit);
    var skips: nat, emitted: nat, calls: nat := 0, 0, 0;
    var pending: Option<Batch<Row, W>> := None;
    var batches: seq<Batch<Row, W>> := [];
    requests := 0;
    StreamStarts(target, pageSize, mark);
    while true
      invariant skips == emitted <= |target|
      invariant Streaming(batches, pending, target, emitted, pageSize, mark)
      invariant pending.Some? ==> pending.value.rows != [] && |pending.value.rows| == pageSize && Answerable(b, fields, clause, d)
      invariant requests > 0 ==> pending.Some? && (limit.Some? ==> emitted < limit.value)
      invariant requests == 0 ==> pending.None? && batches == []
      invariant skips == requests * pageSize
      decreases |target| - emitted
    {
      var result := ReadStatic(b, calls, fields, clause, d, skips, pageSize);
      requests := requests + 1;
      if result.Err? {
        out := Err(result.error);
        return;
      }
      calls := calls + result.value.fieldGroups;
      var rows := result.value.rows;
      PageFacts(flat, limit, skips, pageSize);
      KeptIs(rows, emitted, limit);
      if rows == [] {
        WholePages(|flat|, pageSize, requests - 1, 0);
        break;
      }
      ghost var read, n := |rows|, emitted;
      if limit.Some? && emitted + |rows| > limit.value {
        rows := rows[..limit.value - emitted];
      }
      emitted := emitted + |rows|;
      var columns := Names(result.value.fields);
      if rows != [] {
        StreamStep(batches, pending, target, n, emitted, columns, pageSize, mark);
      }
      if pending.Some? {
        batches := batches + [pending.value];
      }
      pending := Some(Batch(rows, columns, mark(rows), false));
      if limit.Some? && emitted >= limit.value {
        break;
      }
      if !result.value.truncated {
        WholePages(|flat|, pageSize, requests - 1, read);
        break;
      }
      skips := skips + |rows|;
      NextMultiple(requests - 1, pageSize);
    }
    if pending.Some? && pending.value.rows == [] {
      OnlyEmpty(pending.value, pageSize, mark);
    } else {
      StreamEnds(batches, pending, target, [], pageSize, mark);
    }
    if pending.None? {
      pending := Some(Batch([], [], None, false));
    }
    out := Ok(batches + [pending.value.(isLast := true)]);
  }

  lemma {:induction false} NextMultiple(k: nat, p: nat)
    ensures (k + 1) * p == k * p + p
  {
  }
}
