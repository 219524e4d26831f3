# Verified models of the data platform's text, reading, writing and tree components

The project models four parts of the platform and proves what their comments promise.

* **SQL text.** The editor splits a document into statements, sends single statements to other connections by a comment
  line `-- @conn "name"`, and fills templates with values. `Splitter` holds a recursive reading of SQL text and the
  loops that skip one element; `SplitterLaws` and `SplitterEdits` say what the split means and what an edit in one place
  leaves alone. `Lexemes` writes SQL text as a list of elements in characters, and `SplitterMeaning` proves the loop of
  `sqlStatementRanges` against it. `ConnMarker` and `PlaceMarker` model the markers and the change that places one;
  `MarkerMeaning` and `PlaceMeaning` spell both out in characters, `NameCompare` and `ConnResolve` say which connection a
  name stands for. `ConnMarkerLaws`, `PlaceMarkerLaws` and `NewStatement`, each with the steps in a module `...Parts`,
  prove which statement runs afterwards and where it goes; `PlaceMarkerExamples` holds documents on which that is a
  surprise. `Substitution` models masking, sentinel, one-pass replacement and restoring; `SubstitutionLaws`,
  `SubstitutionMeaning` and `SubstitutionKeys` prove it equal to a one-pass meaning, `TemplateMeaning`,
  `ReferenceMeaning` and `SubstitutionValues` say in characters what a template is made of and what is put in for each
  kind of value. `SqlValues`, `SqlValuesLaws` and `GuardedValues` are the printers, their readers, and the injection
  guard. `Tokenizer` is the second scanner, `TokenMeaning` its tokens in characters.
* **SAP tables.** `Greedy` is the theory of filling groups in order; `SapSplit` uses it for column groups and `SapWhere`
  for WHERE lines; `SapRead` reads a wide table group by group and page by page and proves that this is one flat read;
  `SapCells` says what the cells and columns of that read are.
* **Readers and writers.** `Batches` models four reading loops against one contract that leaves no choice;
  `Incremental` treats watermarks and two successive runs; `PartWriters` models the two part writers as classes with
  their part number and the store they write to, `PartPaths` the names they write under, with the digits of `Decimals`.
* **Saved tree.** `SavedTree` models the tree operations, `SavedTreeLaws` and `SavedTreeRuns` prove what moves conserve
  and what every run of edits keeps, `SavedTreeOrder` what edits do to the order of lists. `UniqueName` is the name
  generator.

Text is a sequence of characters, regular expressions are explicit scanners, and an error is a `Result`. A loop of the
source is a method with invariants, proved equal to a function or to a relation; the properties are lemmas about those.
`SplitterMeaning`, `TokenMeaning`, `MarkerMeaning`, `PlaceMeaning`, `TemplateMeaning` and `ReferenceMeaning` say what such
a function computes without using it: which characters stand in a text, and that there is one way to read it.

## What the code does at its limits

Where a comment promises more than the code does, or two components differ, a theorem says exactly when, and an example
shows that it happens.

* The change that places a marker removes the trigger text if and only if the trigger does not stand behind the last
  statement (`PlaceMarkerLaws.TriggerRemoved`). Otherwise the trigger text stays, and its first statement runs or, when
  a new statement is opened, follows that one (`NewStatement.WhatRuns`, `NewStatement.LandedStatements`; documents in
  `PlaceMarkerExamples.TriggerRunsExample` and `PlaceMarkerExamples.TriggerLeftExample`).
* Removing the marker of a last statement that holds nothing else removes the statement
  (`PlaceMarkerLaws.StatementCountKept`, `PlaceMarkerExamples.EmptiedExample`).
* The separator of a new statement can land in a comment, or be left out because the text above ends with a semicolon
  inside a comment; the marker then joins the statement above
  (`NewStatement.OpensExactlyWhenSeparatorLands`, `PlaceMarkerExamples.SwallowedExample`). Below a last line of literals,
  other characters and a comment at its end it lands unless that comment ends in a semicolon
  (`PlaceMeaning.PlainLineLands`).
* A line that opens a quoted connection name and leaves it open can come alive when the markers behind it are removed or
  replaced. `ConnMarkerParts.Calm` says when that does not happen, and the laws of the view hold exactly then
  (`ConnMarkerLaws.StripIsMarkerFree`, `ConnMarkerLaws.UpsertLaws`, `ConnMarkerLaws.DanglingQuoteComesAlive`).
* A dollar-quoted body followed by exactly the name inside the sentinel and another body or escaped dollar is restored
  wrongly (`SubstitutionMeaning.SubstituteIsMeaning`, with a text in `SubstitutionMeaning.CollisionExample`).
* The injection guard accepts dollar signs and single dashes. Outside of a literal an accepted value is read character by
  character if and only if no dollar sign of it opens a dollar quote and its end makes no comment
  with what follows; then it adds no statement (`GuardedValues.GuardedValueAtTopLevel`, `GuardedValues.DollarValueExample`).
* The highlighter does not know dollar quotes. It agrees with the splitter if and only if every semicolon starts a token
  exactly when it stands at top level; when each dollar quote ends at a token, if and only if no semicolon token starts
  inside one (`Tokenizer.AgreeOnEverySemicolon`, `Tokenizer.AgreeExactlyOutsideQuotes`,
  `Tokenizer.ScannersDifferOnDollarQuote`).
* With a limit an incremental load loses rows exactly when the cut falls between rows of one key
  (`Incremental.CutRunReadOnce`, `Incremental.TieExample`). A limit of zero is no limit for the MongoDB cursor, and the
  only case in which that reader and the SQL reader emit different rows (`Batches.MongoAndSqlAgree`).
* For an account that may not ask for field descriptions, a system that answers without a field table loses every column
  (`SapRead.DirectNeedsMeta`).
* An S3 connector that goes on after a failed put leaves a part number out exactly when a put that fails comes before one
  that succeeds; a local file connector never does (`PartWriters.GapExactlyAfterLoss`,
  `PartWriters.NoGapWhenNumberStays`, `PartWriters.GapExample`). No caller in the repository goes on: the load node stops
  at the first write that fails (apps/worker/src/eai_worker/nodes/load.py:62-84), and the change data sink opens a new
  connector for every write (apps/worker/src/eai_worker/cdc_sink.py:363-372). It concerns a caller that catches the error
  and keeps the connector.
* A move to a folder that does not exist loses what is moved (`SavedTreeRuns.MoveQueryPlaces`,
  `SavedTreeRuns.MovePipelinePlaces`, `SavedTreeRuns.MoveFolderPlaces`; trees in `SavedTreeRuns.QueryLostExample`,
  `SavedTreeRuns.EntryLostExample` and `SavedTreeRuns.FolderLostExample`).

## Model

| member | source | states |
|---|---|---|
| Splitter.SkipString | apps/web/src/canvas/SqlEditor.tsx:532-543 | The inner loop stops where the literal of the recursive reading closes, or at the end. |
| Splitter.SkipIdentifier | apps/web/src/canvas/SqlEditor.tsx:544-549 | The same for a quoted identifier. |
| Splitter.SkipLineComment | apps/web/src/canvas/SqlEditor.tsx:550-553 | The same for a line comment, which ends before its newline. |
| Splitter.SkipBlockComment | apps/web/src/canvas/SqlEditor.tsx:554-559 | The same for a block comment. |
| Splitter.SkipDollar | apps/web/src/canvas/SqlEditor.tsx:560-571 | The same for a dollar quote; an unclosed one reaches the end. |
| SplitterLaws.RangesTile | apps/web/src/canvas/SqlEditor.tsx:525-582 | The ranges and one semicolon between neighbours tile the text, and none starts at its end. |
| SplitterLaws.CutsAreTopLevelSemicolons | apps/web/src/canvas/SqlEditor.tsx:572-577 | A position is the end of a range with text behind it if and only if it is a semicolon that reading from the start reaches outside of literals, identifiers, comments and dollar quotes. |
| SplitterLaws.RangeStartsAtTopLevel | apps/web/src/canvas/SqlEditor.tsx:573-574 | Every range starts at top level. |
| SplitterLaws.NoCutInside | apps/web/src/canvas/SqlEditor.tsx:572-577 | No semicolon inside a range is at top level. |
| SplitterLaws.PieceIsOneStatement | apps/web/src/canvas/SqlEditor.tsx:523-524 | The text of a range, split again, is one statement. |
| SplitterLaws.StatementsRebuildText | apps/web/src/canvas/SqlEditor.tsx:523-524 | Joining the texts of the ranges with semicolons gives the document back, up to a last semicolon. |
| SplitterLaws.SplitComposes | apps/web/src/canvas/SqlEditor.tsx:525-582 | When the first text ends at top level, the ranges of two texts with a semicolon between them are those of the first and the shifted ones of the second. |
| SplitterEdits.LinesReadAlike | apps/web/src/canvas/SqlEditor.tsx:550-553 | Whole lines that end at top level are read the same way whatever follows them. |
| SplitterEdits.DocRanges | apps/web/src/canvas/SqlEditor.tsx:525-582 | The ranges of a document around one statement: those before it, its own, the shifted ones behind it. |
| SplitterEdits.DocOfRange | apps/web/src/canvas/SqlEditor.tsx:525-582 | Every document can be taken apart around each of its ranges. |
| SplitterMeaning.SqlStatementRanges | apps/web/src/canvas/SqlEditor.tsx:525-582 | However the text is spelled by literals, quoted names, comments, dollar-quoted bodies with any tag and single characters, the loop returns the ranges between the semicolons that are single characters; and every text is spelled so. |
| SplitterMeaning.ElementSpelled | apps/web/src/canvas/SqlEditor.tsx:531-571 | Where such an element stands, reading takes it as one element and goes on behind it. |
| SplitterMeaning.ElementProtects | apps/web/src/canvas/SqlEditor.tsx:531-571 | An element at top level protects its text: the cuts are those before it and those of the text behind it read by itself, whatever it holds. |
| SplitterMeaning.EverySpelling | apps/web/src/canvas/SqlEditor.tsx:525-582 | The same for the recursive reading, with the existence of a spelling. |
| Tokenizer.ScanString | apps/web/src/components/Favorites.tsx:79-90 | The loop stops where the literal closes, never past the end. |
| Tokenizer.ScanIdentifier | apps/web/src/components/Favorites.tsx:91-96 | The same for a quoted identifier. |
| Tokenizer.ScanBlockComment | apps/web/src/components/Favorites.tsx:68-73 | The same for a block comment. |
| Tokenizer.ScanLineComment | apps/web/src/components/Favorites.tsx:74-78 | The same for a line comment. |
| Tokenizer.ScanNumber | apps/web/src/components/Favorites.tsx:97-101 | The run of digits and points. |
| Tokenizer.ScanWord | apps/web/src/components/Favorites.tsx:102-107 | The run of word characters. |
| Tokenizer.ScanToken | apps/web/src/components/Favorites.tsx:66-114 | One round of the loop: end and kind of the next token. |
| Tokenizer.TokenizeSql | apps/web/src/components/Favorites.tsx:61-117 | The loop returns the token list of the recursive definition. |
| Tokenizer.TokensRebuildText | apps/web/src/components/Favorites.tsx:61-117 | The tokens of every text concatenate to it. |
| Tokenizer.AgreeOnEverySemicolon | apps/web/src/components/Favorites.tsx:61-117 | For every text the semicolon tokens are the places of the cuts if and only if each semicolon starts a token exactly when it stands at top level. |
| Tokenizer.AgreeExactlyOutsideQuotes | apps/web/src/canvas/SqlEditor.tsx:560-571 | When every dollar quote ends where the highlighter starts a token, the scanners agree if and only if no semicolon token starts inside a dollar quote. |
| Tokenizer.ScannersAgree | apps/web/src/components/Favorites.tsx:108-110 | Where nothing at top level opens a dollar quote, the semicolon tokens stand exactly where the splitter cuts. |
| Tokenizer.NoDollarNoQuote | apps/web/src/canvas/SqlEditor.tsx:562-571 | A text without a dollar sign opens no dollar quote. |
| Tokenizer.ScannersDifferOnDollarQuote | apps/web/src/canvas/SqlEditor.tsx:560-571 | A text with a semicolon inside a dollar quote, on which the two scanners differ. |
| TokenMeaning.TokensMean | apps/web/src/components/Favorites.tsx:61-117 | A list is the token list of a text if and only if its texts concatenate to it and each is, in characters, a comment, a literal or quoted name, a number, a keyword in any case, a name, a punctuation mark or another character. |
| SqlValues.AssertSqlSafe | apps/web/src/canvas/variables.ts:278-291 | The guard throws none exactly when the value holds no quote, double quote, semicolon, backslash, control character, double dash or mark of a block comment; otherwise the first error in order, which names the key and a piece that the value holds. |
| SqlValues.SafeHasNoQuote | apps/web/src/canvas/variables.ts:95-96 | An accepted value holds no single quote. |
| SqlValues.SafeIsHarmless | apps/web/src/canvas/variables.ts:95-96 | The guard accepts a text if and only if no character is a quote, a double quote, a semicolon, a backslash or below the space, and no two neighbours are two dashes or open or close a block comment. |
| SqlValuesLaws.PyStringRoundTrip | apps/web/src/canvas/variables.ts:240-271 | Reading the printed literal by the rules of the Python language gives the text back, and the literal holds no raw control character. |
| SqlValuesLaws.SqlListRoundTrip | apps/web/src/canvas/variables.ts:202-228 | Splitting a guarded list by the rules of SQL literals gives the printed items in order. |
| GuardedValues.GuardedValueKeepsStatements | apps/web/src/canvas/variables.ts:278-291 | Inside a single-quoted literal one accepted value can be exchanged for another without changing the number of statements or the text of any other statement. |
| GuardedValues.GuardedValueAtTopLevel | apps/web/src/canvas/variables.ts:278-291 | At top level an accepted value is read character by character if and only if no dollar sign of it opens a dollar quote and its end makes no comment with what follows; then it adds no cut and leaves the text behind it as it was. |
| GuardedValues.DollarValueExample | apps/web/src/canvas/variables.ts:278-291 | Two dollar signs are accepted and take the semicolon behind them into a dollar quote. |
| ConnMarker.FindMarkers | apps/web/src/canvas/connMarker.ts:60-73 | The loop returns all matches of the marker pattern in order. |
| ConnMarker.CopyGaps | apps/web/src/canvas/connMarker.ts:79-85 | The loop copies what lies between the markers. |
| ConnMarker.StripMarkers | apps/web/src/canvas/connMarker.ts:76-86 | The text without its marker lines. |
| ConnMarker.UpsertMarker | apps/web/src/canvas/connMarker.ts:292-314 | The first marker replaced and the others removed, or a marker put on the first line with content. |
| MarkerMeaning.MatchMeans | apps/web/src/canvas/connMarker.ts:46 | The pattern matches at the start of a line if and only if blanks, two dashes, the word in any case, and a quoted name with doubled quotes, a name up to the end of the line, or no name stand there, and takes that name and that length. |
| MarkerMeaning.MarkersMean | apps/web/src/canvas/connMarker.ts:60-73 | A list is what the search finds if and only if each entry stands at the start of a line behind the one before it, and no other stands between them or behind the last. |
| MarkerMeaning.StripMeans | apps/web/src/canvas/connMarker.ts:76-86 | Stripping leaves exactly the characters that no marker covers. |
| MarkerMeaning.ReplacedInPlace | apps/web/src/canvas/connMarker.ts:295-307 | The first marker is replaced where it stands, by the written line or by nothing, and the characters of the others go. |
| ConnMarkerLaws.UnmarkedInsert | apps/web/src/canvas/connMarker.ts:308-313 | Without a marker the new line stands behind blank lines and in front of the first line with content. |
| ConnMarkerParts.WrittenMatches | apps/web/src/canvas/connMarker.ts:92-94 | A written marker line matches with the same name, quotes included, whatever follows. |
| ConnMarkerParts.OneWrittenMarker | apps/web/src/canvas/connMarker.ts:46-94 | Among lines that show no marker in front of it the written marker is the only one, and removing it leaves what surrounds it. |
| ConnMarkerLaws.UpsertNoneStrips | apps/web/src/canvas/connMarker.ts:295-307 | Choosing the default connection is stripping, for every text. |
| ConnMarkerLaws.StripIsMarkerFree | apps/web/src/canvas/connMarker.ts:75-86 | What is sent to the server holds no marker if and only if no line outside the markers is left open and has its quoted name closed at a line end once the markers are removed. |
| ConnMarkerLaws.UpsertLaws | apps/web/src/canvas/connMarker.ts:286-314 | After a choice there is exactly one marker and its name reads back, if and only if no line comes alive; then the stripped text is unchanged, and a later choice or removal acts as if on the original. |
| ConnMarkerLaws.PutGet | apps/web/src/canvas/connMarker.ts:193-205 | The cell view shows what was put, for every body without a marker. |
| ConnMarkerLaws.PutPut | apps/web/src/canvas/connMarker.ts:193-205 | Only the last put counts. |
| ConnMarkerLaws.GetPut | apps/web/src/canvas/connMarker.ts:193-205 | Putting back what the view shows changes nothing in a source that a choice built. |
| ConnMarkerLaws.TypedMarkerWins | apps/web/src/canvas/connMarker.ts:199-204 | A marker typed into the body replaces that of the old source, if and only if no line of the body comes alive. |
| ConnMarkerLaws.DanglingQuoteComesAlive | apps/web/src/canvas/connMarker.ts:46 | A text whose stripped form shows a marker that the text itself does not show. |
| PlaceMarkerParts.WrittenLineReads | apps/web/src/canvas/connMarker.ts:88-94 | The splitter reads a written marker line as one line comment that ends at top level. |
| PlaceMarkerParts.StripWhole | apps/web/src/canvas/connMarker.ts:76-86 | Stripping keeps one statement one statement. |
| PlaceMarkerParts.UpsertWhole | apps/web/src/canvas/connMarker.ts:292-314 | So does placing or replacing a marker. |
| PlaceMarkerLaws.ChosenTarget | apps/web/src/canvas/connMarker.ts:120-148 | A statement in which no line comes alive resolves to the chosen name, or inherits after a removal, with its SQL text unchanged. |
| PlaceMarkerLaws.ChosenConnResolves | apps/web/src/canvas/connMarker.ts:117-142 | The name of a connection resolves to it when no other name is equal up to space and case. |
| ConnResolve.ResolveMeans | apps/web/src/canvas/connMarker.ts:126-148 | A statement follows the default connection if and only if it shows no marker; with one named marker it goes to the first connection of that name, or to the federated query of that name, and in every other case it is the error for several markers, for no name or for a name that nothing has. |
| NameCompare.NormMeans | apps/web/src/canvas/connMarker.ts:118 | Two names are compared equal if and only if they are the same letters without case once the space around them is gone. |
| PlaceMarkerParts.StatementReplaced | apps/web/src/canvas/SqlEditor.tsx:1352-1357 | Replacing one statement by another keeps all others and their number, and a cursor inside picks the new one. |
| PlaceMarkerLaws.MarkerReachesItsStatement | apps/web/src/canvas/connMarker.ts:218-274 | After the change the statement at the new cursor is the edited one and every other statement keeps its text; when no line comes alive it goes to the chosen connection with its SQL unchanged. |
| PlaceMarkerLaws.TriggerRemoved | apps/web/src/canvas/connMarker.ts:257-273 | In both branches the trigger text is gone from the document if and only if the trigger does not stand behind the last statement. |
| PlaceMarkerLaws.EmptyDocumentMarked | apps/web/src/canvas/connMarker.ts:229-232 | A document that held only the trigger becomes the marker, and that runs. |
| PlaceMarkerLaws.TriggerTextRuns | apps/web/src/canvas/connMarker.ts:265-272 | With the trigger behind the last semicolon and no new statement, the first statement of the trigger text runs. |
| PlaceMarkerLaws.EditedStatementRuns | apps/web/src/canvas/connMarker.ts:212-214 | When no new statement is opened, the edited statement is the one that runs if and only if the trigger does not stand behind the last statement. |
| PlaceMarkerLaws.StatementCountKept | apps/web/src/canvas/connMarker.ts:264-273 | The number of statements stays, or falls by one exactly when nothing is left of the last statement. |
| NewStatement.LandedStatements | apps/web/src/canvas/connMarker.ts:250-262 | When the separator lands, wherever the trigger stands: the text above closed, the new text as the next statement, which the cursor picks, every other statement unchanged, and a trigger text that stays as further statements. |
| NewStatement.UnlandedStatements | apps/web/src/canvas/connMarker.ts:250-262 | When it does not land: the statement above becomes all the text that is written, marker included, the cursor picks it, and every other statement is unchanged. |
| NewStatement.NewStatementOpened | apps/web/src/canvas/connMarker.ts:235-262 | When the separator lands the statement above keeps its text up to trailing space and its connection, and the new statement goes to the chosen one. |
| NewStatement.OpensExactlyWhenSeparatorLands | apps/web/src/canvas/connMarker.ts:252-255 | A new statement is opened, and runs on the chosen connection, if and only if the separator lands at top level; otherwise the statement above is exactly the text that the change writes. |
| NewStatement.WhatRuns | apps/web/src/canvas/connMarker.ts:206-274 | Which text runs after the change, in every case: the edited statement, the trigger text, the new statement, or the text above with the marker. |
| PlaceMarkerExamples.TriggerRunsExample | apps/web/src/canvas/connMarker.ts:265-272 | A document in which the slash of the trigger stays and runs. |
| PlaceMarkerExamples.TriggerLeftExample | apps/web/src/canvas/connMarker.ts:257-261 | A document in which a new statement is opened and the slash of the trigger stays behind it. |
| PlaceMarkerExamples.EmptiedExample | apps/web/src/canvas/connMarker.ts:264-273 | A document whose only statement is gone after its marker is removed. |
| PlaceMarkerExamples.SwallowedExample | apps/web/src/canvas/connMarker.ts:252-255 | A document in which the marker joins the statement above. |
| PlaceMeaning.PickMeans | apps/web/src/canvas/SqlEditor.tsx:1345-1357 | What runs: the selection; without one the whole MongoDB text, and otherwise the first statement that ends at or behind the cursor, or the last. |
| PlaceMeaning.OpensNewMeans | apps/web/src/canvas/connMarker.ts:235-250 | A new statement is opened if and only if it is allowed and a connection is chosen, only blanks stand before the trigger on its line, something other than space and markers stands above it, and nothing but space below. |
| PlaceMeaning.CommentSeen | apps/web/src/canvas/connMarker.ts:281-284 | For a last line of literals, other characters and at most a comment at its end, the check sees the comment if and only if there is one. |
| PlaceMeaning.PlainLineLands | apps/web/src/canvas/connMarker.ts:252-255 | Below such a line at top level the separator is a semicolon, on a new line behind a comment, and lands unless the comment ends in a semicolon. |
| PlaceMeaning.CursorKeepsPlace | apps/web/src/canvas/connMarker.ts:266-273 | Behind the new cursor stands what stood behind the trigger, when the markers of the statement, or the place for the new one, lie before the trigger. |
| PlaceMeaning.CursorBelowMarker | apps/web/src/canvas/connMarker.ts:256-262 | In a new statement the cursor stands on the line below its marker, which stands behind the text above, the separator and an empty line. |
| PlaceMeaning.DropBlanksMeans | apps/web/src/canvas/connMarker.ts:260 | Of what stood behind the trigger the new statement keeps all but the blanks in front. |
| Substitution.MaskDollarQuotes | apps/web/src/canvas/variables.ts:56-75 | The loop masks the named dollar-quoted bodies of the recursive definition and lists them. |
| Substitution.Extract | apps/web/src/canvas/variables.ts:104-113 | The variable names in order of first occurrence, each once. |
| Substitution.ExtractNodeRefs | apps/web/src/canvas/variables.ts:116-125 | The node references, one for each key, in order of first occurrence. |
| Substitution.KeyKnown | apps/web/src/canvas/variables.ts:122 | Whether a reference with this key is in the list. |
| SubstitutionLaws.ElementsSource | apps/web/src/canvas/variables.ts:56-75 | The elements of a text, written as they stood, give the text back. |
| SubstitutionLaws.ElementsOfText | apps/web/src/canvas/variables.ts:56-75 | The bodies among the elements are numbered as in the list of bodies. |
| SubstitutionLaws.PreparedIsEncoded | apps/web/src/canvas/variables.ts:167-169 | Masking and escaping write exactly the elements of the text in encoded form. |
| SubstitutionLaws.RefEncoded | apps/web/src/canvas/variables.ts:13-27 | The combined pattern matches the encoded text where a reference stands among the elements, with the same key and extent. |
| SubstitutionLaws.ReplacedEncoded | apps/web/src/canvas/variables.ts:171-197 | The replacing pass writes the filled segments of the text, or throws the error of the first that fails. |
| SubstitutionMeaning.RestoredExactly | apps/web/src/canvas/variables.ts:77-82 | Unescaping and restoring give the final text if and only if no body swallows the sentinel behind it. |
| SubstitutionMeaning.SubstituteIsMeaning | apps/web/src/canvas/variables.ts:157-200 | Substitution fails exactly where the one-pass meaning fails, with the same error, and otherwise equals it if and only if there is no collision; no value is ever read again. |
| SubstitutionMeaning.CollisionExample | apps/web/src/canvas/variables.ts:44-54 | A text on which the result is not the meaning, for all values. |
| SubstitutionKeys.PassesAgree | apps/web/src/canvas/variables.ts:104-125 | The two separate passes find what the combined pass finds of their kind. |
| SubstitutionKeys.ListedKeysAreLookedUp | apps/web/src/canvas/variables.ts:104-125 | A key is in one of the two lists if and only if substitution looks it up, and neither list repeats one. |
| SubstitutionKeys.ListedInOrder | apps/web/src/canvas/variables.ts:104-125 | Both lists are in the order in which the keys first come in the text. |
| SubstitutionKeys.OnlyListedKeysMatter | apps/web/src/canvas/variables.ts:182-190 | Values under other keys have no influence on what substitution returns. |
| SubstitutionKeys.MissingValueFails | apps/web/src/canvas/variables.ts:154-189 | A listed key without a value makes substitution fail. |
| SubstitutionKeys.FixedKept | apps/web/src/canvas/variables.ts:48-54 | Bodies and escaped dollars outside of references come through in order, whatever the values are. |
| SubstitutionKeys.NodeRefRoundTrip | apps/web/src/canvas/variables.ts:35-42 | The text that the editor inserts for a node reference is read back as that reference. |
| TemplateMeaning.TextSpelled | apps/web/src/canvas/variables.ts:47-75 | However a text is spelled by named dollar-quoted bodies, delimiters that come no more and other characters, the masked bodies are those of the spelling; and every text is spelled so. |
| ReferenceMeaning.PlainMeans | apps/web/src/canvas/variables.ts:44-46 | Dollar signs are paired from the left, so that only the last of a run can stand alone; there is one way. |
| ReferenceMeaning.NodeMeans | apps/web/src/canvas/variables.ts:16-23 | What stands between braces is a node reference if and only if it is a name, a dot, a column without dots and brackets, and perhaps brackets, with space around the parts. |
| ReferenceMeaning.SegmentsMean | apps/web/src/canvas/variables.ts:10-27 | There is one way to take a text apart: a reference wherever a name behind a dollar sign, a name in braces or a node reference in braces stands, and otherwise one element that is kept. |
| SubstitutionValues.EvalMeans | apps/web/src/canvas/variables.ts:182-196 | What is put in for each kind of value: null, truth values, numbers, texts, lists, Python literals in code; or the error for a missing value, a list that is none or empty, or a harmful value in SQL. |
| SubstitutionValues.ContextMeans | apps/web/src/canvas/variables.ts:85-93 | The guard applies if and only if the parameter is named query, where, filter or sql, and Python literals if and only if it is named code, in any case. |
| SubstitutionValues.SubstituteMeans | apps/web/src/canvas/variables.ts:157-200 | Substitution fails with the error of the first reference that cannot be filled in; otherwise every reference is filled in, and the result is put together from what is kept and what is put in, if and only if there is no collision. |
| SubstitutionValues.SubstituteSpelled | apps/web/src/canvas/variables.ts:157-200 | The same from the characters of the text, without the functions that read it. |
| SubstitutionValues.SucceedsExactly | apps/web/src/canvas/variables.ts:157-200 | Substitution succeeds if and only if every reference of the text can be filled in. |
| SubstitutionValues.VariablesHarmlessInSql | apps/web/src/canvas/variables.ts:194 | Where substitution into SQL succeeds, every listed variable has a value and shows only harmless characters. |
| SubstitutionValues.NodeRefsHarmlessInSql | apps/web/src/canvas/variables.ts:194 | So does every listed node reference, and every item of a list of values. |
| Greedy.StaysAhead | apps/sap-connector/src/eai_sap/read_table.py:72-84 | After any number of groups no other way of cutting has come further. |
| Greedy.FewestGroups | apps/sap-connector/src/eai_sap/read_table.py:58-88 | No contiguous partition into groups that fit has fewer groups. |
| Greedy.OneGreedyWay | apps/sap-connector/src/eai_sap/read_table.py:58-88 | Filling greedily determines the groups. |
| SapSplit.SplitFieldsByWidth | apps/sap-connector/src/eai_sap/read_table.py:58-88 | Groups concatenate to the fields, fit counting delimiters, and are filled greedily; the call fails exactly when a field is too wide and names the first. |
| SapSplit.FewestFieldGroups | apps/sap-connector/src/eai_sap/read_table.py:58-88 | No other way to cut the fields into neighbouring groups that fit has fewer groups. |
| SapWhere.SplitWhereClause | apps/sap-connector/src/eai_sap/read_table.py:91-119 | Lines hold exactly the tokens of the clause with its space drawn together, are not empty, fit, and are filled greedily; joined they hold the characters of the clause without the space, in order; the call fails exactly when a token is too long, and names the first. |
| SapWhere.JoinedTokensRead | apps/sap-connector/src/eai_sap/read_table.py:101-102 | Tokens joined by single spaces are read as the same tokens. |
| SapWhere.OneMeaning | apps/sap-connector/src/eai_sap/read_table.py:97-102 | One text and one token list answer to the description of a clause: its space drawn together to single blanks, and taken apart into closed literals and runs without space. |
| SapWhere.LinesKeepClause | apps/sap-connector/src/eai_sap/read_table.py:91-119 | In the joined lines space stands exactly where it stands in the clause or a token starts, and every other character of the clause is there in order. |
| SapWhere.TokenOnOneLine | apps/sap-connector/src/eai_sap/read_table.py:101-102 | Every token, a closed literal among them, stands whole on one line. |
| SapWhere.LinesReadBack | apps/sap-connector/src/eai_sap/read_table.py:91-119 | The lines joined by spaces are read as the tokens of the normalised clause. |
| SapWhere.FewestLines | apps/sap-connector/src/eai_sap/read_table.py:91-119 | No split at token boundaries into lines that fit uses fewer lines. |
| SapRead.ComputedMeta | apps/sap-connector/src/eai_sap/read_table.py:294-300 | The loop computes the offsets from the lengths. |
| SapRead.MetaReads | apps/sap-connector/src/eai_sap/read_table.py:291-310 | With the field table, sent or computed, an answer is read as the projection of its rows; a computed table names the requested fields, each behind the characters of those before it. |
| SapRead.SplitJoined | apps/sap-connector/src/eai_sap/read_table.py:127-130 | Cells without the first character of the delimiter are split where they were joined. |
| SapRead.ParsedBack | apps/sap-connector/src/eai_sap/read_table.py:125-132 | A packed line is parsed as the stripped projection of its row, with and without delimiter. |
| SapRead.GroupAnswered | apps/sap-connector/src/eai_sap/backends/mock.py:86-129 | A group that fits and lines that fit are never refused, and the answer is read as the flat rows of the group. |
| SapRead.ReadTable | apps/sap-connector/src/eai_sap/read_table.py:155-241 | For a described table the merged rows of all groups; a mismatch exactly when a later call saw another number of rows; an unknown field, a token that is too long and a field that is too wide are reported in this order; a warning exactly when there are several groups. |
| SapRead.ReadDirect | apps/sap-connector/src/eai_sap/read_table.py:244-288 | Without field descriptions: one call, refused exactly when the row is too wide, and read with the field table that it carries. |
| SapRead.DirectNeedsMeta | apps/sap-connector/src/eai_sap/read_table.py:279-280 | The one call gives the flat rows if and only if the answer carries its field table or there are no rows. |
| SapRead.MergedIsFlat | apps/sap-connector/src/eai_sap/read_table.py:207-233 | For a table that does not change the merged groups are the flat projection to all columns, for every grouping. |
| SapRead.ReadStatic | apps/sap-connector/src/eai_sap/main.py:147-164 | One page of an unchanged table is that page of the flat table, in either way of reading, and fails exactly for unreadable requests. |
| SapRead.ReadPages | apps/connectors/src/eai_connectors/sap_rfc.py:264-316 | The batches hold the flat table cut at the limit, for every grouping and page size; without a limit n rows take n / p + 1 requests. |
| SapCells.FlatRowMeans | apps/sap-connector/src/eai_sap/read_table.py:122-132 | A row of the flat read has the columns asked for and no other; each shows the text of its cell, cut to the width of the field, without the space at its ends. |
| SapCells.SelectedMeans | apps/sap-connector/src/eai_sap/read_table.py:190-195 | The columns are the fields of the table with the names asked for, in that order, or the error lists exactly the names that the table does not have. |
| SapCells.WantedAt | apps/sap-connector/src/eai_sap/read_table.py:190 | The names asked for are the given ones in upper case, or all of the table when none is given. |
| SapCells.ConditionMeans | apps/sap-connector/src/eai_sap/read_table.py:91-119 | The WHERE text that the system reads holds the characters of the clause without the space, in order. |
| Batches.SqlRead | apps/connectors/src/eai_connectors/sql_base.py:651-689 | The loop over partitions meets the batch contract on the result cut at the limit. |
| Batches.MongoRead | apps/connectors/src/eai_connectors/mongo.py:245-284 | The buffered loop meets the batch contract on what the cursor yields; every batch names the columns asked for, or the keys of the first document. |
| Batches.MongoAndSqlAgree | apps/connectors/src/eai_connectors/mongo.py:251-252 | Over the same rows with the same limit the MongoDB and the SQL reader emit batches with the same rows if and only if the limit is not zero or there are no rows. |
| Batches.Chunk | apps/connectors/src/eai_connectors/sap_rfc.py:353-367 | The index loop meets the batch contract and marks the last batch by its position. |
| Batches.OneWayToBatch | apps/connectors/src/eai_connectors/base.py:155-168 | Two readers that meet the contract emit the same batches for the same rows. |
| Batches.CutAtMeans | apps/connectors/src/eai_connectors/sql_base.py:657-689 | A limit keeps the first rows, as many as it allows. |
| Incremental.MaxKey | apps/connectors/src/eai_connectors/sql_base.py:833-838 | The largest key that is not null, or none. |
| Incremental.MarksNeverFall | apps/connectors/src/eai_connectors/sql_base.py:824-830 | The watermarks of successive batches never fall. |
| Incremental.LargestMarkIsMaxKey | apps/connectors/src/eai_connectors/sql_base.py:674-678 | The largest watermark of the batches is the largest key read. |
| Incremental.ReadOnce | apps/connectors/src/eai_connectors/sql_base.py:824-838 | Over a table that gained only rows above the largest key read, a cut run and a run from that key read each keyed row exactly once if and only if the cut splits no tie. |
| Incremental.CutRunReadOnce | apps/connectors/src/eai_connectors/sql_base.py:657-689 | The batches of a run with a limit and of a run from its largest watermark hold each keyed row exactly once if and only if the cut splits no tie. |
| Incremental.TieExample | apps/connectors/src/eai_connectors/sql_base.py:824-830 | Two rows of one key and a cut between them, of which the second is never read. |
| Incremental.TwoRunsReadOnce | apps/connectors/src/eai_connectors/sql_base.py:824-838 | Without a limit the batches of two runs hold each keyed row exactly once. |
| PartWriters.S3Connector.Write | apps/connectors/src/eai_connectors/s3.py:141-171 | What a write stores, returns and does to the part number, also when the put fails and may have stored something. |
| PartWriters.S3Connector.PurgeRunPrefix | apps/connectors/src/eai_connectors/s3.py:173-187 | Exactly the objects under the run prefix go, their number is returned, counting restarts; when a request fails some of them are gone and the part number stays. |
| PartWriters.LocalFileConnector.Write | apps/connectors/src/eai_connectors/local_file.py:107-132 | The same for files; a failing write may leave anything under the name of the part. |
| PartWriters.LocalFileConnector.PurgeRunPrefix | apps/connectors/src/eai_connectors/local_file.py:134-153 | The loop removes exactly the parts of the current format and counts them, unless one cannot be removed; then it names that file and only parts are gone. |
| PartWriters.PurgeAgain | apps/connectors/src/eai_connectors/s3.py:173-187 | A purge that failed halfway is made good by one that does not fail. |
| PartWriters.AttemptS3 | apps/connectors/src/eai_connectors/s3.py:141-171 | An attempt that stops at a failing put leaves exactly the parts of a prefix of the batches, and possibly something under the next name. |
| PartWriters.AttemptLocal | apps/connectors/src/eai_connectors/local_file.py:107-132 | The same for files. |
| PartWriters.RetryS3 | apps/connectors/src/eai_connectors/s3.py:141-171 | A failed attempt and a full one by a new connector leave the store of one clean attempt, also behind a put that failed after storing. |
| PartWriters.RetryLocal | apps/connectors/src/eai_connectors/local_file.py:107-132 | The same for files, also behind a damaged part. |
| PartWriters.RetryConverges | apps/connectors/src/eai_connectors/s3.py:141-171 | Writing all batches over any prefix of them and any damaged next part gives the clean result. |
| PartWriters.KeysDistinct | apps/connectors/src/eai_connectors/s3.py:151 | Part names never collide, also beyond five digits. |
| PartWriters.AfterPart | apps/connectors/src/eai_connectors/s3.py:150-161 | Part i holds the i-th batch with rows. |
| PartWriters.AfterElsewhere | apps/connectors/src/eai_connectors/s3.py:150-161 | Every object that is not one of the parts is what it was. |
| PartWriters.WriteEveryS3 | apps/connectors/src/eai_connectors/s3.py:141-171 | A connector that tries every batch, whatever the outcomes: the numbers of the stored parts, and the store. |
| PartWriters.WriteEveryLocal | apps/connectors/src/eai_connectors/local_file.py:107-132 | The same for files. |
| PartWriters.GapExactlyAfterLoss | apps/connectors/src/eai_connectors/s3.py:151-163 | The part numbers of S3 are contiguous if and only if no failing put of a batch with rows comes before one that succeeds. |
| PartWriters.NoGapWhenNumberStays | apps/connectors/src/eai_connectors/local_file.py:117-124 | Those of local files always are. |
| PartWriters.LostPartMissing | apps/connectors/src/eai_connectors/s3.py:151-163 | The number that a failing put has used up stays without a part when the put left nothing. |
| PartWriters.GapExample | apps/connectors/src/eai_connectors/s3.py:151-163 | Two batches of which the first is lost: S3 stores part 1 only, local files part 0. |
| PartWriters.PurgedRunIsExact | apps/connectors/src/eai_connectors/s3.py:173-187 | After a purge and an attempt exactly the parts of this attempt lie under the run prefix, and nothing else has changed. |
| PartWriters.PurgedDirIsExact | apps/connectors/src/eai_connectors/local_file.py:134-153 | The same for the parts of the current format in the run directory. |
| PartWriters.OtherRunUntouched | apps/connectors/src/eai_connectors/s3.py:191-197 | No part of a run lies under the path of another run of the same load. |
| PartPaths.KeyMeans | apps/connectors/src/eai_connectors/s3.py:151 | A part lies in its directory under `part-`, its number in five digits or as many as it takes, and the ending of its format. |
| PartPaths.RunPathsMean | apps/connectors/src/eai_connectors/s3.py:191-197 | The path of a run is the prefix without outer slashes, the table and `run_id=` with the run, as far as they are given, with slashes between them; on disk behind the root and the base directory. |
| PartPaths.IsPartMeans | apps/connectors/src/eai_connectors/local_file.py:144 | A purge of files matches any name of the directory with that start and that ending. |
| SavedTree.WalkQueries | apps/web/src/api/savedStore.ts:216-231 | The walk removes the queries with the id and captures the last. |
| SavedTree.MoveQuery | apps/web/src/api/savedStore.ts:233-238 | The tree without the query, and the query appended to the target. |
| SavedTree.WalkPipelines | apps/web/src/api/savedStore.ts:178-191 | The walk removes the entries with the id and collects them in order. |
| SavedTree.MovePipeline | apps/web/src/api/savedStore.ts:172-195 | The tree without the entry, and the first collected entry appended to the target. |
| SavedTree.WalkFolders | apps/web/src/api/savedStore.ts:240-254 | The walk filters a level before it goes below, and captures the last folder with the id. |
| SavedTree.Find | apps/web/src/api/savedStore.ts:262-269 | The search of the cycle guard. |
| SavedTree.MoveFolder | apps/web/src/api/savedStore.ts:256-275 | Unchanged for a missing folder or a target inside it; otherwise taken out and added. |
| SavedTree.PlacedPipelineIds | apps/web/src/api/savedStore.ts:197-208 | The set of pipelines that the tree points to. |
| SavedTreeLaws.PlacedIdsAre | apps/web/src/api/savedStore.ts:197-208 | A pipeline is in that set if and only if some entry in the tree points to it. |
| SavedTreeLaws.UpdatePlaces | apps/web/src/api/savedStore.ts:92-99 | With unique ids an update exchanges the places of one folder and its content for those of the new folder. |
| SavedTreeLaws.AddQueryPlaces | apps/web/src/api/savedStore.ts:237 | A query is put into the folder if and only if it exists. |
| SavedTreeLaws.AddEntryPlaces | apps/web/src/api/savedStore.ts:151 | So is an entry. |
| SavedTreeLaws.AddFolderPlaces | apps/web/src/api/savedStore.ts:108-116 | So is a folder with all it holds. |
| SavedTreeLaws.RenamePlaces | apps/web/src/api/savedStore.ts:92-99 | Renaming exchanges the place of the folder for one in the same folder with the same id and the new name. |
| SavedTreeLaws.RemoveQueryCount | apps/web/src/api/savedStore.ts:131-138 | Removing takes out exactly the queries with the id. |
| SavedTreeLaws.RemovePipelineCount | apps/web/src/api/savedStore.ts:154-161 | Removing takes out exactly the entries with the id. |
| SavedTreeLaws.RemovePipelineIdCount | apps/web/src/api/savedStore.ts:163-170 | Removing takes out exactly the entries that point to the pipeline. |
| SavedTreeLaws.RemoveFolderPlaces | apps/web/src/api/savedStore.ts:101-106 | Removing takes out one folder with all it holds, and both searches find that folder. |
| SavedTreeRuns.MoveQueryPlaces | apps/web/src/api/savedStore.ts:233-238 | A move takes the query from its folder and, if and only if the target exists, puts it there; everything else stays. |
| SavedTreeRuns.MovePipelinePlaces | apps/web/src/api/savedStore.ts:172-195 | The same for an entry. |
| SavedTreeRuns.MoveFolderPlaces | apps/web/src/api/savedStore.ts:256-275 | A move into itself or below changes nothing; any other takes the folder with its content along, and loses it exactly when the target does not exist. |
| SavedTreeRuns.QueryLostExample | apps/web/src/api/savedStore.ts:233-238 | A tree from which a query is gone after a move to a folder that does not exist. |
| SavedTreeRuns.EntryLostExample | apps/web/src/api/savedStore.ts:172-195 | The same for an entry. |
| SavedTreeRuns.FolderLostExample | apps/web/src/api/savedStore.ts:256-275 | The same for a folder with all it holds. |
| SavedTreeRuns.AddPipelinePlaces | apps/web/src/api/savedStore.ts:142-152 | All entries of the pipeline go, and one appears if and only if the folder exists. |
| SavedTreeRuns.EditPlaces | apps/web/src/api/savedStore.ts:118-129 | Editing a query exchanges its place only. |
| SavedTreeRuns.EditKeeps | apps/web/src/api/savedStore.ts:93-195 | Every edit keeps ids unique and every pipeline placed at most once. |
| SavedTreeRuns.RunKeeps | apps/web/src/api/savedStore.ts:93-275 | So does every run of edits whose new entries have fresh ids. |
| SavedTreeOrder.MovedQueryIsLast | apps/web/src/api/savedStore.ts:233-238 | A moved query stands behind all others of its new folder; every other list keeps its order. |
| SavedTreeOrder.MovedEntryIsLast | apps/web/src/api/savedStore.ts:172-195 | So does a moved entry. |
| SavedTreeOrder.AddedEntryIsLast | apps/web/src/api/savedStore.ts:142-152 | So does the entry of a pipeline that is added. |
| SavedTreeOrder.MovedFolderIsLast | apps/web/src/api/savedStore.ts:256-275 | A moved folder stands behind all others of its new level; every other list keeps its order. |
| SavedTreeOrder.EditKeepsOrder | apps/web/src/api/savedStore.ts:118-129 | Editing a query leaves every item where it stands. |
| SavedTreeOrder.RenamedInPlace | apps/web/src/api/savedStore.ts:92-99 | Renaming a folder changes its name where it stands and nothing else. |
| SavedTreeOrder.NewFolderIsLast | apps/web/src/api/savedStore.ts:108-116 | A new folder, which is empty, stands behind all others of its level; nothing else changes. |
| SavedTreeOrder.NewQueryIsLast | apps/web/src/api/savedStore.ts:92-99 | A new query stands behind all others of its folder; nothing else changes. |
| UniqueName.MakeUnique | apps/web/src/api/savedStore.ts:292-315 | The name is outside the taken ones up to space and case; the number is the least free one above the start, found within one more try than there are taken names. |
| UniqueName.CandidatesDiffer | apps/web/src/api/savedStore.ts:310-313 | Different numbers give names that differ also without case. |
| UniqueName.CandidateMeans | apps/web/src/api/savedStore.ts:311-313 | A candidate is the stem, a blank and the number in decimal digits without zeros in front. |
| UniqueName.NumberedMeans | apps/web/src/api/savedStore.ts:307-309 | The search starts behind the number of the name if and only if the name ends in space and digits behind one line that does not end in space. |
| UniqueName.StartMeans | apps/web/src/api/savedStore.ts:307-309 | Otherwise it starts behind the whole name, from one. |
| UniqueName.UsedMeans | apps/web/src/api/savedStore.ts:302-304 | A name is in use if and only if one of the taken names is the same up to space and case. |

## Left out

- PlaceMarkerLaws.MarkerReachesItsStatement: asks that every marker of the edited statement is one line at top level of the splitter, and that the chosen name has no line break.
- NewStatement.NewStatementOpened: asks that the markers above are single lines, that no quoted name dangles there, that a last line above that starts like a marker keeps its own line break, and that the trigger stands at top level.
- ConnMarkerLaws.UpsertLaws: for a name with a line break only one direction is stated.
- PlaceMeaning.PlainLineLands: speaks of a last line without double quotes, block comments and dollar quotes that starts at top level; other lines are covered by NewStatement.OpensExactlyWhenSeparatorLands alone.
- PlaceMeaning.CursorKeepsPlace: one direction; with markers behind the trigger the cursor moves by the change of the whole statement.
- SqlValuesLaws.SqlListRoundTrip: numbers are given by the text that JavaScript prints for them, without commas, quotes or space.
- SubstitutionMeaning.SubstituteIsMeaning: texts and values hold no NUL character.
- SapRead.ReadTable: column order inside a row is not captured, because rows are maps.
- SapRead.ReadPages: the table does not change between calls, no cell holds the first character of the delimiter, and an account without field descriptions gets answers with a field table.
- Batches.SqlRead: a batch is a value, so setting its last flag before the final yield is modelled on values; aliasing of row lists is not captured.
- Batches.MongoRead: a first document without any key, behind which the columns are inferred again, is not described.
- PartWriters.S3Connector.PurgeRunPrefix: the pages of the listing are taken together.
- PartWriters.LocalFileConnector.Write: the check that the resolved path stays below the root is not modelled.
- UniqueName.MakeUnique: numbers at or above 2^53 are exact here.
- Lone carriage returns and the line separators of Unicode as line breaks of the marker pattern, Unicode case folding, surrogate pairs, and lookups that reach the prototype of a JavaScript object.
- HTTP, databases, object stores and the file system: each is a sequence, a map or a parameter.
- Building the WHERE text of an incremental SAP read, BAPI calls, schema discovery, and the SQL that writers generate.
- `malformedPlaceholders`, the flattened folder labels and the other short helpers: each is one pass whose result can be read off its body, and no other result here depends on them.
- User interface, completion sources, notebooks, authentication, AI connectors and the workers around these components.
