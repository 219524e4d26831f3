/** Choosing the statement to run, and placing a connection marker in the statement under the cursor. */
module PlaceMarker {
  import opened Text
  import opened Splitter
  import opened SplitterLaws
  import opened ConnMarker

  /** The first range that ends at or behind `pos`, or the last range. */
  function Choose(rs: seq<Range>, pos: nat): (j: nat)
    requires rs != []
    ensures j < |rs|
  {
    if pos <= rs[0].to || |rs| == 1 then 0 else 1 + Choose(rs[1..], pos)
  }

  /** `pickRunText`: the selection, or the statement at the cursor; a MongoDB document is not split. */
  function PickRunText(doc: string, selFrom: nat, selTo: nat, head: nat, mongo: bool): string
    requires selFrom <= selTo <= |doc|
  {
    if selFrom != selTo then doc[selFrom..selTo]
    else if mongo || Ranges(doc) == [] then doc
    else Piece(doc, Ranges(doc)[Choose(Ranges(doc), head)])
  }

  /** The statement that runs when the cursor stands at `pos` and nothing is selected. */
  function PickAt(doc: string, pos: nat): string {
    PickRunText(doc, 0, 0, pos, false)
  }

  /** One change to the document: replace `from..to`, then put the cursor at `anchor`. */
  datatype Edit = Edit(from: nat, to: nat, insert: string, anchor: nat)

  function Take(s: string, n: nat): string {
    if n <= |s| then s[..n] else s
  }

  function Drop(s: string, n: nat): string {
    if n <= |s| then s[n..] else ""
  }

  function DropBlanks(s: string): string {
    s[SkipBlanks(s, 0)..]
  }

  /** Where the trailing blanks start. */
  function BlankTail(s: string): (k: nat)
    ensures k <= |s|
  {
    if s != "" && IsBlank(s[|s| - 1]) then BlankTail(s[..|s| - 1]) else |s|
  }

  /** Nothing but blanks stands on the last line. */
  predicate OnOwnLine(head: string) {
    BlankTail(head) == 0 || head[BlankTail(head) - 1] == '\n'
  }

  /** The end of the last doubled quote of an unclosed literal: where the pattern for literals gives up. */
  function LastPair(s: string, i: nat): (r: Option<nat>)
    ensures r.Some? ==> i < r.value <= |s|
    decreases |s| - i
  {
    if i + 1 >= |s| then None
    else if s[i] != '\'' then LastPair(s, i + 1)
    else
      var later := LastPair(s, i + 2);
      if later.Some? then later else Some(i + 1)
  }

  /** The end of the match of `'(?:[^']|'')*'` whose body starts at `i`. */
  function LiteralMatch(s: string, i: nat): (r: Option<nat>)
    ensures r.Some? ==> i < r.value <= |s|
  {
    match StringClose(s, i)
    case Closed(e) => Some(e)
    case Open => LastPair(s, i)
  }

  /** The text from `i` on with every literal replaced by an empty one. */
  function DropLiterals(s: string, i: nat): string
    decreases |s| - i
  {
    if i >= |s| then ""
    else if s[i] == '\'' && LiteralMatch(s, i + 1).Some? then "''" + DropLiterals(s, LiteralMatch(s, i + 1).value)
    else [s[i]] + DropLiterals(s, i + 1)
  }

  /** `endsInLineComment`: the last line, without its literals, contains `--`. */
  predicate EndsInLineComment(text: string) {
    IndexOf(DropLiterals(text[LastLine(text, |text|)..], 0), "--", 0).Some?
  }

  /** The conditions under which the edit opens a new statement below the one it stands in. */
  predicate OpensNew(stmt: string, at: nat, name: Option<string>, allowSplit: bool) {
    && allowSplit && name.Some?
    && OnOwnLine(Take(stmt, at))
    && Trim(Strip(Take(stmt, at))) != ""
    && Trim(Drop(stmt, at)) == ""
  }

  /** What separates the new statement from the text above it. */
  function Separator(above: string): string {
    if above != "" && above[|above| - 1] == ';' then ""
    else if EndsInLineComment(above) then "\n;"
    else ";"
  }

  function Without(doc: string, from: nat, to: nat): string
    requires from <= to <= |doc|
  {
    doc[..from] + doc[to..]
  }

  function HitRange(ranges: seq<Range>, pos: nat, n: nat): Range {
    if ranges == [] then Range(0, n) else ranges[Choose(ranges, pos)]
  }

  /** The text above the trigger, its trailing space removed. */
  function Above(stmt: string, at: nat): string {
    TrimEnd(Take(stmt, at))
  }

  function WrittenSeparator(stmt: string, at: nat): string {
    Separator(Trim(Strip(Take(stmt, at))))
  }

  /** A new statement below: what the edit writes before the space that follows the trigger. */
  function NewInsert(stmt: string, at: nat, name: string): string {
    Above(stmt, at) + WrittenSeparator(stmt, at) + "\n\n" + (MarkerLine(name) + "\n")
  }

  function EditNew(stmt: string, at: nat, from: nat, to: nat, name: string): Edit {
    var insert := NewInsert(stmt, at, name);
    Edit(from, to, insert + DropBlanks(Drop(stmt, at)), from + |insert|)
  }

  /** The same statement with another marker; the cursor keeps its place in the text. */
  function EditSame(stmt: string, from: nat, to: nat, name: Option<string>, cursor: nat): Edit {
    var edit := Upsert(stmt, name);
    var moved := cursor + edit.delta;
    Edit(from, to, edit.text, if moved < from then from else moved)
  }

  /** `placeMarker`: the change that removes the trigger `from..to` and sets the connection of its statement. */
  function Place(doc: string, from: nat, to: nat, name: Option<string>, ranges: seq<Range>, allowSplit: bool): Edit
    requires from <= to <= |doc|
  {
    var trimmed := Without(doc, from, to);
    var hit := HitRange(ranges, from, |trimmed|);
    var stmt := Piece(trimmed, hit);
    var at := if hit.from <= from then from - hit.from else 0;
    var end := if from <= hit.to then hit.to + (to - from) else hit.to;
    if OpensNew(stmt, at, name, allowSplit) then EditNew(stmt, at, hit.from, end, name.value)
    else EditSame(stmt, hit.from, end, name, from)
  }

  function Apply(doc: string, e: Edit): string {
    Take(doc, e.from) + e.insert + Drop(doc, e.to)
  }

  /** `applyConnMarker`: the ranges are those of the document without the trigger. */
  function PlaceIn(doc: string, from: nat, to: nat, name: Option<string>, allowSplit: bool): Edit
    requires from <= to <= |doc|
  {
    Place(doc, from, to, name, Ranges(Without(doc, from, to)), allowSplit)
  }
}
