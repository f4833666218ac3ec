# Excel filler: a verified model of its reconciliation core

The program reconciles two spreadsheets. The primary table has gaps; the
secondary tables hold the missing values. Rows of the two are matched on a
normalised customer key. The user walks through the keys whose primary row
has gaps, and for each key can do three things:

- auto-fill the gaps from the linked secondary columns;
- drag cell texts across;
- pick values cell by cell in a detail dialog.

The filled table is saved in one of two ways: to a new, time-stamped file, or
back into its workbook, after a backup copy of the old file is made.

This Dafny project models the parts of that program which decide things:

- text, key and missing-value normalisation (`Normalize`, over the ASCII
  primitives of `Text`);
- the value transforms: the street/house-number split, phone normalisation,
  and the postcode-to-state guard (`Transforms`);
- the single-key match engine (`Matcher`);
- the composite-key multi-source matcher (`MultiMatcher`);
- the auto-fill policy, as functions on one row (`FillPolicy`);
- the main window's review session, with the auto-fill runs done in place on
  the primary table (`MainWindow`, over the `DataFrame` class of `Tables`);
- the drag-and-drop tables (`DndTables`);
- the source panel's rendering, search and filter (`SourcePanel`);
- the detail dialog's change collection (`DetailDialog`);
- the three save operations over a file system of workbooks (`ApplyChanges`).

Cells are `Option<string>`. `None` is an empty cell: every table is read
with `dtype=str`, so pandas holds an empty cell as NaN. A row maps column
names to cells. Row labels are the positions of a freshly loaded sheet.

Wherever the program turns a NaN into text, the text is "nan", and so it is
in the model (`Tables.CellStr`, `Tables.ItemText`). This has three effects:

- An empty key cell gets the key "nan", not the empty key. Such a row is
  queued when it has a gap, and it matches the secondary rows whose key cell
  is empty too (`Matcher.EmptyKeyCellIsNan`).
- An empty key field gives the segment "nan" in a composite key
  (`MultiMatcher.EmptyCellSegment`).
- The source panel and the detail dialog show an empty cell as "nan". The
  search and the filter find "nan" in it, and a "1:1" change of an empty
  secondary cell proposes "nan".

Some state is updated in place by the program:

- the data frames;
- the window's session;
- the dialog;
- the source panel;
- the drop target;
- the file system.

Each of these is a `class` whose methods carry `modifies` clauses. Each
in-place loop is proved equal to a specification function. The properties
are proved about those functions.

Three behaviours of the code are worth stating outright:

- **Phone numbers keep every digit.** `normalize_phone("+49 (0)30-1234567")`
  returns `"+490301234567"`: the trunk zero in parentheses is a digit too,
  and it is kept (`Transforms.PhoneExample`).
- **`norm_key` without leading zeros is not idempotent.** `"0 5"` becomes
  `" 5"`, and a second pass gives `"5"`
  (`Normalize.NormKeyDropZerosNotIdempotent`). With zeros kept, the
  matcher's setting, it is idempotent
  (`Normalize.NormKeyKeepZerosIdempotent`).
- **A second batch auto-fill counts a digit-free phone again.** Take a
  linked phone column whose first secondary value holds no digit. It is
  written with `""`, which is still missing, and is counted. A second run
  writes and counts it again
  (`FillPolicy.EmptyPhoneIsRefilled`).

## Model

| member | source | states |
|---|---|---|
| Text.Strip | app/services/normalize.py:10 | the result has no whitespace at either end and is no longer than the input |
| Text.StripIsBothSides | app/services/normalize.py:10 | stripping both sides is right-stripping the left-stripped text |
| Text.StripOfStripped | app/services/normalize.py:10 | stripping a stripped text changes nothing |
| Text.StripIsSlice | app/services/normalize.py:10 | the stripped text is a slice of the input with only whitespace cut off on either side |
| Text.LStrip | app/services/normalize.py:10 | the result is a suffix of the input, what was cut off is whitespace, and it does not start with whitespace |
| Text.RStrip | app/services/normalize.py:10 | the result is a prefix of the input, what was cut off is whitespace, and it does not end in whitespace |
| Text.Words | app/services/multi_matcher.py:12 | `str.split()` yields only non-empty, whitespace-free words |
| Text.SplitJoin | app/services/multi_matcher.py:22 | splitting on a separator undoes joining with it when no part contains it |
| Text.JoinSplit | app/services/multi_matcher.py:22 | joining the parts of a split gives the text back |
| Text.Lower | app/services/normalize.py:21 | lower-casing keeps the length and folds each character on its own |
| Text.LowerIdempotent | app/services/normalize.py:21 | lower-casing twice is lower-casing once |
| Text.Digits | app/services/transforms.py:22 | removing the non-digits leaves only digits and never lengthens the text |
| Text.DigitsAppend | app/services/transforms.py:22 | the digits of a concatenation are the digits of each part, in order |
| Text.DigitsOfDigits | app/services/transforms.py:22 | a text of digits keeps all of them |
| Text.NatToString | app/services/apply_changes.py:9 | `str(n)` is a non-empty string of digits |
| Text.ZeroPad | app/services/apply_changes.py:9 | a zero-padded field is all digits and at least as wide as asked |
| Normalize.StripLeadingZeros | app/services/normalize.py:17 | `lstrip("0")` gives a suffix that does not start with `0` |
| Normalize.NormKey | app/services/normalize.py:14-18 | without leading zeros the key never starts with `0` |
| Normalize.CollapseIsCollapsed | app/services/normalize.py:11 | after `re.sub(r"\s+", " ")` every whitespace is a single space |
| Normalize.CollapseOfCollapsed | app/services/normalize.py:11 | collapsing collapsed text changes nothing |
| Normalize.CollapseNoSpace | app/services/normalize.py:11 | collapsing neither creates nor removes the presence of whitespace |
| Normalize.NormTextIsNormal | app/services/normalize.py:7-12 | `None` gives ""; otherwise the text is stripped with single inner spaces |
| Normalize.NormTextIdempotent | app/services/normalize.py:7-12 | normalising normal text changes nothing |
| Normalize.NormTextIsJoinedWords | app/services/normalize.py:10-11 | `norm_text` equals `" ".join(s.split())` |
| Normalize.NormKeyKeepZerosIdempotent | app/services/normalize.py:14-18 | with leading zeros kept the key is the normal text, and normalising it again changes nothing |
| Normalize.NormKeyOfNormal | app/services/normalize.py:14-18 | on normal text, dropping zeros only strips the leading zeros |
| Normalize.DropZeroExposesSpace | app/services/normalize.py:16-17 | dropping the zero of "0 d" leaves " d" |
| Normalize.NormKeyDropZerosNotIdempotent | app/services/normalize.py:16-17 | the key of "0 5" without zeros is " 5", whose key is "5": not idempotent |
| Normalize.IsMissingOfNormText | app/services/normalize.py:20-22 | the missing test looks only at the normal text; `None` is missing |
| Normalize.MissingWithPadding | app/services/normalize.py:20-22 | any case variant of a missing token, padded with whitespace, is missing |
| Normalize.NotMissingWord | app/services/normalize.py:20-22 | a word whose lower-case form is no missing token is not missing |
| Normalize.NotMissingHasText | app/services/normalize.py:20-22 | a value that is not missing has non-empty stripped text, itself not missing |
| Normalize.NanIsNormalAndMissing | app/services/normalize.py:5-22 | the text "nan" of an empty cell is its own normal form and key, and it is missing |
| Normalize.ZeroAndFalseAreNotMissing | app/services/normalize.py:5 | "0" and "false" are values, not gaps |
| Transforms.HouseNumberScan | app/services/transforms.py:10 | the house-number group of the pattern and a left-to-right scanner accept the same strings |
| Transforms.HouseNumberNoSpace | app/services/transforms.py:10 | a house number starts with a digit and holds no whitespace |
| Transforms.SplitBlank | app/services/transforms.py:4-9 | `None` and blank input give two empty parts |
| Transforms.SplitFoundMatch | app/services/transforms.py:10-13 | a non-empty house part means the pattern matches with the two parts as its groups, and no match has a shorter street group |
| Transforms.SplitFoundNoMatch | app/services/transforms.py:10-12 | an empty house part means no match exists, and the street is the whole stripped text |
| Transforms.MatchGivesHouse | app/services/transforms.py:10-13 | any match of the pattern yields a non-empty house part |
| Transforms.SplitOfStripped | app/services/transforms.py:7-13 | a stripped input is split as it is |
| Transforms.SplitParts | app/services/transforms.py:10-13 | on a match the house part is the last token, in house-number form; the street is non-empty, stripped, newline-free |
| Transforms.SplitJoined | app/services/transforms.py:4-13 | street + " " + house number splits back into the two |
| Transforms.SplitExampleWithNumber | app/services/transforms.py:4-13 | "Main Street 12a" splits into "Main Street" and "12a" |
| Transforms.SplitWithoutNumber | app/services/transforms.py:10-12 | a last token not starting with a digit leaves the whole text as street |
| Transforms.SplitExampleWithoutNumber | app/services/transforms.py:10-12 | "Main Street" has no house part |
| Transforms.DigitsOfStrip | app/services/transforms.py:18-22 | stripping removes no digit |
| Transforms.PhoneShape | app/services/transforms.py:15-23 | blank gives ""; the output is digits, led by `+` exactly when the stripped input is; its digits are the input's digits |
| Transforms.PhoneIdempotent | app/services/transforms.py:15-23 | normalising a normalised number changes nothing |
| Transforms.PhoneWithPlus | app/services/transforms.py:21-23 | a stripped number led by `+` keeps the `+` and all its digits |
| Transforms.PhoneExample | app/services/transforms.py:15-23 | "+49 (0)30-1234567" becomes "+490301234567" |
| Transforms.StateFromZipDe | app/services/transforms.py:25-48 | a state needs the database, an input and exactly five digits, and is stripped and non-empty |
| Transforms.StateDependsOnDigitsOnly | app/services/transforms.py:33-38 | inputs with the same digits get the same state |
| Tables.Without | app/ui/main_window.py:703 | a column is kept exactly when it is not the dropped one, in order |
| Tables.WithoutKeepsDistinct | app/ui/main_window.py:703 | dropping a column keeps the names distinct |
| Tables.SplitView | app/ui/main_window.py:472-474 | the two views' columns concatenate to all columns; the upper one holds twenty unless that is all there is |
| Tables.DataFrame.constructor | app/services/excel_io.py:29-43 | a loaded table holds its columns and rows |
| Tables.DataFrame.SetColumn | app/services/matcher.py:13-14 | `df[name] = values` appends a new column or overwrites an old one, one value per row, and changes nothing else |
| Tables.DataFrame.SetCell | app/ui/main_window.py:738 | `df.at[r, col] = v` changes that one cell only |
| Matcher.FirstRowWithKey | app/services/matcher.py:30-34 | the first row carrying the key, or none when no row does |
| Matcher.GroupIndices | app/services/matcher.py:16 | a group lists, ascending, exactly the positions of rows with that key |
| Matcher.MatchEngine.constructor | app/services/matcher.py:5-16 | both tables gain `_KEY_`, holding `norm_key` of the text of their key cell ("nan" when empty), and nothing else changes |
| Matcher.MatchEngine.KeysWithMissing | app/services/matcher.py:18-28 | the loop returns the scan's keys (`MissingKeys`) |
| Matcher.MatchEngine.HasMissingChecked | app/services/matcher.py:24-27 | true exactly when some checked column the table has is missing in the row |
| Matcher.MissingKeysOrdered | app/services/matcher.py:18-28 | keys follow row order, with duplicates kept |
| Matcher.MissingKeysLength | app/services/matcher.py:18-28 | at most one key per row |
| Matcher.MissingKeysSound | app/services/matcher.py:18-28 | each listed key is that of a keyed row with a gap |
| Matcher.MissingKeysComplete | app/services/matcher.py:18-28 | every keyed row with a gap has its key listed |
| Matcher.MissingKeysMembers | app/services/matcher.py:18-28 | a key is listed exactly when a keyed row with that key has a gap in a checked column; keys are non-empty |
| Matcher.AbsentColumnIgnored | app/services/matcher.py:25 | checking a column the table lacks changes nothing |
| Matcher.MissingKeysAreFound | app/services/matcher.py:18-34 | every listed key leads back to a primary row |
| Matcher.GroupIsFilter | app/services/matcher.py:36-39 | a group holds only rows with its key, is empty for an unknown key, and is non-empty exactly when some row has the key |
| Matcher.GroupsPartition | app/services/matcher.py:16 | each row lies in the group of its own key only, and group sizes sum to the row count |
| Matcher.EmptyKeyCellIsNan | app/services/matcher.py:13-28 | an empty key cell gets the key "nan", so rows with empty key cells share a group, and such a row is queued once it has a gap |
| Matcher.KeysAreNormal | app/services/matcher.py:13-14 | computed keys are normal text; normalising them again changes nothing |
| MultiMatcher.KeyParts | app/services/multi_matcher.py:15-21 | one segment per field |
| MultiMatcher.NormIsLowerNormText | app/services/multi_matcher.py:8-12 | `_norm` is the lower-cased `norm_text` |
| MultiMatcher.NormShape | app/services/multi_matcher.py:8-12 | `None` gives ""; results are stripped, single-spaced and lower-case, and `_norm` is idempotent |
| MultiMatcher.EmptyCellSegment | app/services/multi_matcher.py:8-21 | an empty cell of a key field gives the segment "nan" |
| MultiMatcher.MakeKeySegments | app/services/multi_matcher.py:15-22 | no fields give the empty key; a field the row lacks gives an empty segment |
| MultiMatcher.MakeKeySplits | app/services/multi_matcher.py:22 | the key splits back into its segments when none holds a `\|` |
| MultiMatcher.BlankFieldsKeyNonEmpty | app/services/multi_matcher.py:22 | two or more fields give a non-empty key even when all are blank, so such rows are indexed |
| MultiMatcher.BuildSourceIndex | app/services/multi_matcher.py:51-55 | the row loop builds the index of the rows' keys |
| MultiMatcher.IndexSound | app/services/multi_matcher.py:51-55 | a position under a key has that key; the empty key is never indexed |
| MultiMatcher.IndexComplete | app/services/multi_matcher.py:51-55 | every position with a non-empty key is listed under it |
| MultiMatcher.IndexAscending | app/services/multi_matcher.py:51-55 | each list is in row order |
| MultiMatcher.SourceIndexMembers | app/services/multi_matcher.py:44-55 | in a configured source, a position is under `k` exactly when `k` is non-empty and the row's key is `k` |
| MultiMatcher.SourceIndexAscending | app/services/multi_matcher.py:51-55 | a source's lists are in row order |
| MultiMatcher.UnconfiguredSourceEmpty | app/services/multi_matcher.py:45-49 | a source without key fields gets an empty index |
| MultiMatcher.MultiMatcher.constructor | app/services/multi_matcher.py:37-55 | every source gets the index its rows and fields define |
| MultiMatcher.MultiMatcher.MatchForT1Index | app/services/multi_matcher.py:57-67 | one entry per source, each the list for the primary row's key |
| MultiMatcher.LookupAll | app/services/multi_matcher.py:64-66 | one entry per source id: its list for the key, or [] for the empty key |
| MultiMatcher.MatchesIff | app/services/multi_matcher.py:57-67 | a source row is returned exactly when the primary row exists with a non-empty key, the source has key fields, and the two keys are equal |
| MultiMatcher.MatchesAscending | app/services/multi_matcher.py:57-67 | returned lists are in row order, so duplicate-free |
| FillPolicy.LinkOf | app/ui/main_window.py:714 | a link exists exactly when some link names the column |
| FillPolicy.BatchTotalStep | app/ui/main_window.py:767-800 | the total grows row by row by each row's count |
| FillPolicy.FirstValueIsFirst | app/ui/main_window.py:718-726 | the chosen value is the stripped value of the first secondary row whose cell is not missing |
| FillPolicy.FirstValueNone | app/ui/main_window.py:718-726 | there is none exactly when every cell of the column is missing |
| FillPolicy.FirstValueNotMissing | app/ui/main_window.py:718-726 | the chosen value is non-empty and not missing |
| FillPolicy.HouseFillFrame | app/ui/main_window.py:731-733 | filling house columns keeps every present cell and any other column; an empty house part changes nothing |
| FillPolicy.HouseFillCommutes | app/ui/main_window.py:728-738 | writing a non-house column commutes with the house fill |
| FillPolicy.RowStepShape | app/ui/main_window.py:708-739 | a step does nothing, or writes its missing non-key column after filling house columns |
| FillPolicy.RowStepFrame | app/ui/main_window.py:708-739 | a step keeps every present cell and every cell but its own column and the derived ones |
| FillPolicy.RowStepFires | app/ui/main_window.py:714-739 | with a usable link and a value, a step fills the house columns, writes the linked value, and counts the column |
| FillPolicy.RowStepWrites | app/ui/main_window.py:708-739 | a step counts its column exactly when it is missing, not the key column, and has a candidate, which it then holds |
| FillPolicy.BatchStepWrites | app/ui/main_window.py:778-807 | a batch step adds at most one column to the count, and only a column counted for a reason |
| FillPolicy.BatchWriteShape | app/ui/main_window.py:796-807 | a batch write sets its column, then fills the house columns |
| FillPolicy.BatchStepShape | app/ui/main_window.py:778-807 | a batch step does nothing, or writes its missing column, never `_KEY_` or the key column |
| FillPolicy.BatchStepFrame | app/ui/main_window.py:778-807 | a batch step keeps every present cell and every cell but its column and the derived ones |
| FillPolicy.FillColumnsFrame | app/ui/main_window.py:708-739 | the column loop keeps every present cell and all unvisited non-derived cells |
| FillPolicy.FillLinksFrame | app/ui/main_window.py:778-807 | the links loop keeps every present cell and all unlinked non-derived cells |
| FillPolicy.ExtrasFrame | app/ui/main_window.py:741-752 | the country and state defaults keep every present cell and every non-derived cell |
| FillPolicy.RowFillNeverOverwrites | app/ui/main_window.py:703-752 | the row fill never changes a cell that was not missing |
| FillPolicy.RowFillKeepsKeys | app/ui/main_window.py:703-752 | the row fill never writes `_KEY_`, nor the key column unless it is a derived one |
| FillPolicy.FillColumnsAdded | app/ui/main_window.py:708-739 | the column loop only appends to the count, at most one per column, each counted for a reason |
| FillPolicy.FillColumnsAt | app/ui/main_window.py:708-739 | a missing visited column ends with its candidate when there is one, and is counted exactly then |
| FillPolicy.FillColumnsAtHead | app/ui/main_window.py:708-739 | the same, for the first visited column |
| FillPolicy.RowFillLinkedValue | app/ui/main_window.py:703-752 | a missing display column ends with its candidate when it has one and is counted exactly then; otherwise it is unchanged |
| FillPolicy.RowFillCount | app/ui/main_window.py:703-739 | the count covers only display columns other than the key that were missing and have a candidate, at most one per column |
| FillPolicy.FillLinksAdded | app/ui/main_window.py:778-800 | the links loop only appends to the count, at most one per link, each counted for a reason |
| FillPolicy.BatchRowFrame | app/ui/main_window.py:769-820 | the batch fill never changes a present cell, `_KEY_`, or a non-derived key column |
| FillPolicy.BatchRowCount | app/ui/main_window.py:769-800 | a row counts only if keyed and matched, and only its missing linked columns whose secondary value exists |
| FillPolicy.LabelsDisjoint | app/ui/main_window.py:728-736 | no column is both a street and a phone column, and street columns are not house columns |
| FillPolicy.StepsAgree | app/ui/main_window.py:728-807 | the row step and the batch step write the same for one linked column, despite their different cut order |
| FillPolicy.PhoneWithoutDigits | app/ui/main_window.py:796-797 | a phone value without digits or `+` normalises to "", which is missing |
| FillPolicy.EmptyPhoneIsRefilled | app/ui/main_window.py:783-800 | such a phone column is written with "" and counted, and a second run counts it again |
| MainWindow.ChooseValue | app/ui/main_window.py:718-726 | the scan for `chosen` returns the first stripped non-missing value |
| MainWindow.WriteHouse | app/ui/main_window.py:731-733 | the house part fills exactly the missing house columns of the row |
| MainWindow.RowStepInPlace | app/ui/main_window.py:708-739 | one loop iteration leaves the row as the row step says and reports whether it counted |
| MainWindow.LinkedWriteInPlace | app/ui/main_window.py:728-738 | the house columns are filled first, then the linked value is written |
| MainWindow.BatchStepInPlace | app/ui/main_window.py:778-807 | one batch iteration leaves the row as the batch step says and reports whether it counted |
| MainWindow.BatchWriteInPlace | app/ui/main_window.py:796-807 | the normalised value is written, then split across street and house columns |
| MainWindow.CountryInPlace | app/ui/main_window.py:741-742 | the row becomes the country step's result |
| MainWindow.ZipAt | app/ui/main_window.py:745-749 | the cell of the first postcode column the table has |
| MainWindow.StateInPlace | app/ui/main_window.py:744-752 | the row becomes the state step's result |
| MainWindow.FillColumnsInPlace | app/ui/main_window.py:708-739 | the loop leaves the row and count as the column fill says; other rows unchanged |
| MainWindow.RowFillInPlace | app/ui/main_window.py:703-752 | the row becomes the row fill's result, and the count is its number of counted columns |
| MainWindow.FillLinksInPlace | app/ui/main_window.py:778-807 | the links loop leaves the row and count as the links fill says |
| MainWindow.BatchRowInPlace | app/ui/main_window.py:778-820 | the row becomes the batch fill's result, with its count |
| MainWindow.BatchRowAt | app/ui/main_window.py:769-820 | a keyed, matched row is filled from its own group; any other row is left alone |
| MainWindow.FillAllInPlace | app/ui/main_window.py:769-820 | every row becomes its batch fill, and the total is the sum of the counts |
| MainWindow.ScanColumns | app/ui/main_window.py:444 | the checked columns are exactly those other than `_KEY_` and the key column |
| MainWindow.NewEngine | app/ui/main_window.py:439-442 | the engine keeps leading zeros and the tables only gain columns |
| MainWindow.AppendColumn | app/ui/main_window.py:851 | the new column is appended with the value in every row; keys stay |
| MainWindow.Session.constructor | app/ui/main_window.py:42-61 | a fresh window has its tables and saved settings, no engine and an empty queue |
| MainWindow.Session.ShowKey | app/ui/main_window.py:468-474 | the key becomes current and the shown columns split into twenty and the rest |
| MainWindow.Session.NextKey | app/ui/main_window.py:452-458 | reports the end exactly on an empty queue; otherwise steps forward unless at the last key |
| MainWindow.Session.PrevKey | app/ui/main_window.py:460-465 | steps back unless at or before the first key |
| MainWindow.Session.Scan | app/ui/main_window.py:439-446 | builds the engine, queues the keys of rows with gaps in the checked columns, resets the cursor |
| MainWindow.Session.StartScan | app/ui/main_window.py:434-449 | starts exactly when both tables are loaded; then shows the first queued key if any |
| MainWindow.Session.EditShownCell | app/ui/main_window.py:522-535 | an edited cell of the shown row goes into the primary row of the current key, and nothing else changes |
| MainWindow.Session.AutofillCurrentKeyLinked | app/ui/main_window.py:690-755 | skipped exactly without an engine, key or row; "no match" exactly when the key has no secondary rows; otherwise the row becomes its row fill, with its count |
| MainWindow.Session.AutofillAllLinked | app/ui/main_window.py:758-825 | refused exactly without a scan or links; otherwise every row becomes its batch fill and the total is the sum |
| MainWindow.Session.AddColumnGlobal | app/ui/main_window.py:828-856 | refused without a scan; cancellation and empty, reserved or existing names change nothing; otherwise the trimmed column is appended with the default |
| DndTables.IsMissingLocalAgrees | app/ui/dnd_tables.py:10-16 | the drag-and-drop missing test agrees with `is_missing` on every value |
| DndTables.InsertPos | app/ui/dnd_tables.py:32 | insertion keeps positions sorted by (row, column) and adds the one position |
| DndTables.SortPositions | app/ui/dnd_tables.py:32 | the result is sorted by (row, column) and a permutation of the input |
| DndTables.SortedUnique | app/ui/dnd_tables.py:32 | two sorted arrangements of the same positions are equal |
| DndTables.PresentTexts | app/ui/dnd_tables.py:33 | keeps exactly the non-missing texts of the positions |
| DndTables.DragStartsIffItem | app/ui/dnd_tables.py:24-29 | a drag starts exactly when something is selected or current; with no selection, the current item's text alone is dragged |
| DndTables.DragPayloadIsSortedTexts | app/ui/dnd_tables.py:32-34 | the payload is the non-missing texts in (row, column) order, joined by newlines |
| DndTables.DragPayloadOrderFree | app/ui/dnd_tables.py:31-34 | the payload ignores the order of the selection |
| DndTables.DropOnMissing | app/ui/dnd_tables.py:72-119 | a drop onto a missing cell writes the dragged text unchanged |
| DndTables.DropOnFilled | app/ui/dnd_tables.py:77-117 | a drop onto a filled cell writes exactly on replace or a separator: the dragged text, or old + separator + dragged |
| DndTables.DropCancelled | app/ui/dnd_tables.py:95-116 | closing the menu or cancelling the dialog writes nothing |
| DndTables.MergeKeepsBoth | app/ui/dnd_tables.py:100-119 | what is written ends with the dragged text and is that text or extends the old one |
| DndTables.TargetTable.Drop | app/ui/dnd_tables.py:59-131 | an invalid index writes nothing; otherwise the merged text fills the cell, which becomes current, or nothing changes |
| SourcePanel.Render | app/ui/source_panel.py:172-179 | the view shows the rows under the given headers; its current cell survives only if still inside |
| SourcePanel.SetCurrent | app/ui/source_panel.py:205 | the cell becomes current when the view has it, otherwise there is none |
| SourcePanel.FirstHitUnique | app/ui/source_panel.py:227-239 | the first hit in (view, row, column) order is unique |
| SourcePanel.NextSpotIsAfter | app/ui/source_panel.py:230-232 | scanning from the next cell reaches exactly the cells after the current one |
| SourcePanel.FocusOf | app/ui/source_panel.py:219-223 | the start is the first view with a current cell and the focus |
| SourcePanel.HitsCovered | app/ui/source_panel.py:241-251 | the forward scan plus the wrap miss no hit |
| SourcePanel.WrapReselectsCurrent | app/ui/source_panel.py:241-251 | when the current cell is the only hit, the wrap selects it again |
| SourcePanel.FirstInRow | app/ui/source_panel.py:233-239 | the first column from `c0` whose cell holds the needle, or none |
| SourcePanel.FirstInView | app/ui/source_panel.py:231-239 | the first hit at or after `(r0, c0)` in row-major order, or none |
| SourcePanel.ScanViews | app/ui/source_panel.py:228-239 | the first hit from the start over the given views, or none |
| SourcePanel.MatchingRows | app/ui/source_panel.py:263-266 | keeps, in order, exactly the rows with a cell whose text ("nan" when empty) contains the needle |
| SourcePanel.MatchingRowsIdempotent | app/ui/source_panel.py:263-266 | filtering the filtered rows again changes nothing |
| SourcePanel.MatchingRowsAppend | app/ui/source_panel.py:263-266 | filtering a concatenation filters each part |
| SourcePanel.Panel.constructor | app/ui/source_panel.py:36-43 | a new panel has empty views, an empty cache and no focus |
| SourcePanel.Panel.Views | app/ui/source_panel.py:215 | the upper view, plus the lower one exactly while shown |
| SourcePanel.Panel.RenderRows | app/ui/source_panel.py:164-191 | caches the rows; the upper view gets the first twenty columns; the lower view is shown exactly with more than twenty; focus is forgotten |
| SourcePanel.Panel.RestoreMatchRows | app/ui/source_panel.py:194-195 | renders the cached rows again: the first twenty columns in the upper view, the rest in the lower view, which is shown exactly with more than twenty |
| SourcePanel.Panel.FilterFullTableExact | app/ui/source_panel.py:254-268 | with no needle or table nothing changes; otherwise the matching rows are cached and rendered, with the first twenty columns in the upper view and the lower view shown exactly with more than twenty |
| SourcePanel.Panel.RememberFocus | app/ui/source_panel.py:198-199 | a clicked cell is remembered; nothing else changes |
| SourcePanel.Panel.RestoreFocus | app/ui/source_panel.py:201-208 | the remembered cell becomes current in its view again; with none remembered nothing changes |
| SourcePanel.Panel.SearchNext | app/ui/source_panel.py:210-251 | selects the first hit after the focused cell, else the first hit after the wrap; none exactly when no cell holds the needle |
| DetailDialog.BuildLayout | app/ui/detail_dialog.py:57-64 | secondary column `i` owns widget columns `5i`..`5i+4`: use, value, target, mode, manual |
| DetailDialog.Blocks | app/ui/detail_dialog.py:109-128 | one block per secondary column, read from its five widgets |
| DetailDialog.BlockGrid | app/ui/detail_dialog.py:107-109 | every grid row read block by block |
| DetailDialog.Decide | app/ui/detail_dialog.py:111-141 | unchecked cells are skipped; checked ones are refused without a target or on an empty manual value; otherwise taken for this key and row |
| DetailDialog.RowErrSticky | app/ui/detail_dialog.py:120-133 | a refusal ends the row's collection |
| DetailDialog.RowsErrSticky | app/ui/detail_dialog.py:120-133 | a refusal in an early row ends the collection |
| DetailDialog.RowOkIff | app/ui/detail_dialog.py:109-133 | a row is collected exactly when none of its blocks refuses |
| DetailDialog.RowsOkIff | app/ui/detail_dialog.py:107-133 | the rows are collected exactly when each is clean |
| DetailDialog.CollectOkIff | app/ui/detail_dialog.py:103-145 | collection succeeds exactly when every checked cell has a target and, in manual mode, a value |
| DetailDialog.RowErrIsFirst | app/ui/detail_dialog.py:109-133 | a refused row reports its first refusing block |
| DetailDialog.RowOkContents | app/ui/detail_dialog.py:109-141 | a collected row yields, in column order, the change of each checked block: its target, the value its mode selects, and `T2[r]:col (mode)` |
| DetailDialog.RowsOkContents | app/ui/detail_dialog.py:107-141 | the collected rows yield those changes row after row |
| DetailDialog.CollectOkContents | app/ui/detail_dialog.py:103-145 | on success, the changes are exactly those of the checked cells in row-major order, each with its target, the value its mode selects and `T2[r]:col (mode)`, for the dialog's key and primary row |
| DetailDialog.DecideValue | app/ui/detail_dialog.py:115-141 | "1:1" takes the shown value, even ""; manual mode takes the trimmed text, or refuses when empty |
| DetailDialog.ReadBlock | app/ui/detail_dialog.py:110-128 | reads one block of the grid |
| DetailDialog.CollectRow | app/ui/detail_dialog.py:109-141 | the inner loop gives the row's collection |
| DetailDialog.CollectGrid | app/ui/detail_dialog.py:104-143 | the outer loop gives the whole collection |
| DetailDialog.Dialog.constructor | app/ui/detail_dialog.py:55-101 | the dialog lays out the non-key secondary columns, one grid row per secondary row, initial widgets, no changes |
| DetailDialog.Dialog.Edit | app/ui/detail_dialog.py:72-99 | a user edit changes one widget, keeping its kind |
| DetailDialog.Dialog.CollectChanges | app/ui/detail_dialog.py:103-145 | on success the changes are replaced and the dialog accepted; a refusal keeps the previous changes |
| ApplyChanges.ZeroPadValue | app/services/apply_changes.py:9 | a zero-padded field has exactly its width and reads back as its number |
| ApplyChanges.StampRoundTrip | app/services/apply_changes.py:9 | the time-stamp text reads back as its time stamp, so different minutes give different names |
| ApplyChanges.StemSuffix | app/services/apply_changes.py:27 | stem + suffix is the name; a suffix is a dot plus at least one dot-free character |
| ApplyChanges.BackupIsSibling | app/services/apply_changes.py:25-28 | the backup is in the same directory, differs from the file, and keeps its extension |
| ApplyChanges.WithoutAbsent | app/services/apply_changes.py:12 | a table without `_KEY_` is saved as it is |
| ApplyChanges.WithoutSplits | app/services/apply_changes.py:12 | dropping `_KEY_` keeps the other columns in order |
| ApplyChanges.SavedTableReadsBack | app/services/apply_changes.py:12-13 | a saved table reads back as the table without `_KEY_`: same columns in order, each row its cells |
| ApplyChanges.ReadRowBack | app/services/apply_changes.py:12-13 | one saved row reads back as the row without `_KEY_` |
| ApplyChanges.RemoveSheetKeepsOthers | app/services/apply_changes.py:32-34 | removing a titled sheet keeps every other sheet in order |
| ApplyChanges.RemoveSheetUnique | app/services/apply_changes.py:32-36 | afterwards titles stay unique and the title is free |
| ApplyChanges.ReplaceSheetShape | app/services/apply_changes.py:32-40 | the new sheet comes first, the others follow in order, titles stay unique, and replacing twice is replacing once |
| ApplyChanges.BackupKeepsOriginal | app/services/apply_changes.py:25-28 | the backup holds the old contents; the file and every other path are unchanged |
| ApplyChanges.WriteRows | app/services/apply_changes.py:39-40 | the header row first, then every table row in order |
| ApplyChanges.FileSystem.constructor | app/services/apply_changes.py:22-36 | workbooks hold uniquely titled sheets |
| ApplyChanges.FileSystem.SaveFilled | app/services/apply_changes.py:8-14 | writes the table without `_KEY_` to a new workbook named after the base name and minute |
| ApplyChanges.FileSystem.SaveToPath | app/services/apply_changes.py:16-20 | writes the table without `_KEY_` to exactly the given path |
| ApplyChanges.FileSystem.SaveInPlace | app/services/apply_changes.py:22-43 | backs up first; a missing file or a non-workbook fails with the file untouched; otherwise the sheet is replaced at the front |
| Tables.Get | app/services/matcher.py:25 | definition of `row.get(col)`: `None` for an absent column; used by `Matcher.NeedsFill` and the fill steps |
| Tables.CellStr | app/services/normalize.py:10 | definition of `str(v)` of a cell, "nan" for an empty cell; properties in `Normalize.NanIsNormalAndMissing`, `Matcher.EmptyKeyCellIsNan` |
| Tables.ItemText | app/ui/source_panel.py:179 | definition of an item's text, "" for an absent column; properties in `SourcePanel.MatchingRows`, `DetailDialog.CollectOkContents` |
| Normalize.CollapseSpaces | app/services/normalize.py:11 | definition of the whitespace collapse; properties in `CollapseIsCollapsed`, `CollapseOfCollapsed`, `CollapseNoSpace` |
| Normalize.NormText | app/services/normalize.py:7-12 | definition of `norm_text`; properties in `NormTextIsNormal`, `NormTextIdempotent`, `NormTextIsJoinedWords` |
| Normalize.IsMissing | app/services/normalize.py:20-22 | definition of `is_missing`; properties in `IsMissingOfNormText`, `MissingWithPadding`, `NotMissingWord`, `NotMissingHasText`, `NanIsNormalAndMissing` |
| Transforms.SplitStreetHouse | app/services/transforms.py:4-13 | definition of `split_street_house`; properties in `SplitBlank`, `SplitFoundMatch`, `SplitFoundNoMatch`, `SplitParts`, `SplitJoined` |
| Transforms.SplitStripped | app/services/transforms.py:10-13 | definition of the regex split of the stripped text; properties in `SplitFoundMatch`, `SplitFoundNoMatch`, `MatchGivesHouse` |
| Transforms.NormalizePhone | app/services/transforms.py:15-23 | definition of `normalize_phone`; properties in `PhoneShape`, `PhoneIdempotent`, `PhoneWithPlus`, `PhoneExample` |
| Transforms.StateOf | app/services/transforms.py:37-48 | definition of the state lookup for a postcode; properties in `StateFromZipDe`, `StateDependsOnDigitsOnly` |
| Matcher.RowKey | app/services/matcher.py:21 | definition of `row["_KEY_"]`; properties in `EmptyKeyCellIsNan`, `MissingKeysSound` |
| Matcher.CellKey | app/services/matcher.py:13-14 | definition of `norm_key` of one key cell; properties in `KeysAreNormal`, `EmptyKeyCellIsNan` |
| Matcher.NeedsFill | app/services/matcher.py:22-27 | definition of a queued row: a key and a missing checked cell; properties in `MissingKeysSound`, `MissingKeysComplete` |
| Matcher.MissingKeys | app/services/matcher.py:18-28 | definition of `keys_with_missing`; properties in `MissingKeysSound`, `MissingKeysComplete`, `MissingKeysOrdered`, `MissingKeysLength`, `AbsentColumnIgnored` |
| Matcher.GroupRows | app/services/matcher.py:16 | definition of one `groupby` group; properties in `GroupIsFilter`, `GroupsPartition` |
| Matcher.MatchEngine.T1RowIndexForKey | app/services/matcher.py:30-34 | definition of `t1_row_index_for_key`; properties in `FirstRowWithKey` |
| Matcher.MatchEngine.T2RowsForKey | app/services/matcher.py:36-39 | definition of `t2_rows_for_key`; properties in `GroupIsFilter` |
| MultiMatcher.Norm | app/services/multi_matcher.py:8-12 | definition of `_norm`; properties in `NormIsLowerNormText`, `NormShape` |
| MultiMatcher.MakeKey | app/services/multi_matcher.py:15-22 | definition of `make_key`; properties in `MakeKeySegments`, `MakeKeySplits`, `EmptyCellSegment`, `BlankFieldsKeyNonEmpty` |
| MultiMatcher.FieldsOf | app/services/multi_matcher.py:45 | definition of `profile.src_fields.get(src_id, [])`; properties in `UnconfiguredSourceEmpty` |
| MultiMatcher.IndexOfKeys | app/services/multi_matcher.py:51-55 | definition of one source's index; properties in `IndexSound`, `IndexComplete`, `IndexAscending` |
| MultiMatcher.SourceIndex | app/services/multi_matcher.py:44-55 | definition of `src_index`; properties in `SourceIndexMembers`, `SourceIndexAscending`, `UnconfiguredSourceEmpty` |
| MultiMatcher.MatchList | app/services/multi_matcher.py:64-66 | definition of one source's match list; properties in `MatchesIff`, `MatchesAscending` |
| FillPolicy.FirstValue | app/ui/main_window.py:718-726 | definition of the chosen value; properties in `FirstValueIsFirst`, `FirstValueNone`, `FirstValueNotMissing` |
| FillPolicy.HouseFill | app/ui/main_window.py:731-733 | definition of the house-number write; properties in `HouseFillFrame`, `HouseFillCommutes` |
| FillPolicy.RowStep | app/ui/main_window.py:708-739 | definition of one column of the row fill; properties in `RowStepShape`, `RowStepFrame`, `RowStepFires`, `RowStepWrites` |
| FillPolicy.FillColumns | app/ui/main_window.py:708-739 | definition of the row fill's column loop; properties in `FillColumnsFrame`, `FillColumnsAdded`, `FillColumnsAt` |
| FillPolicy.CountryStep | app/ui/main_window.py:741-742 | definition of the country default; properties in `ExtrasFrame` |
| FillPolicy.StateStep | app/ui/main_window.py:744-752 | definition of the state inference; properties in `ExtrasFrame` |
| FillPolicy.RowFill | app/ui/main_window.py:703-752 | definition of the whole row fill; properties in `RowFillNeverOverwrites`, `RowFillKeepsKeys`, `RowFillLinkedValue`, `RowFillCount` |
| FillPolicy.BatchStep | app/ui/main_window.py:778-807 | definition of one link of the batch fill; properties in `BatchStepShape`, `BatchStepFrame`, `BatchStepWrites` |
| FillPolicy.BatchWrite | app/ui/main_window.py:796-807 | definition of the batch write and street split; properties in `BatchWriteShape` |
| FillPolicy.FillLinks | app/ui/main_window.py:778-807 | definition of the batch fill's link loop; properties in `FillLinksFrame`, `FillLinksAdded` |
| FillPolicy.BatchRow | app/ui/main_window.py:769-820 | definition of the batch fill of one row; properties in `BatchRowFrame`, `BatchRowCount` |
| FillPolicy.BatchTotal | app/ui/main_window.py:767-800 | definition of `total_filled`; properties in `BatchTotalStep` |
| DndTables.IsMissingLocal | app/ui/dnd_tables.py:10-16 | definition of `_is_missing_local`; properties in `IsMissingLocalAgrees` |
| DndTables.DragPayload | app/ui/dnd_tables.py:22-34 | definition of the dragged text; properties in `DragStartsIffItem`, `DragPayloadIsSortedTexts`, `DragPayloadOrderFree` |
| DndTables.MergedText | app/ui/dnd_tables.py:77-119 | definition of the dropped text; properties in `DropOnMissing`, `DropOnFilled`, `DropCancelled`, `MergeKeepsBoth` |
| SourcePanel.TextAt | app/ui/source_panel.py:179 | definition of a view item's text; properties in `Render`, `ScanViews` |
| SourcePanel.RowMatches | app/ui/source_panel.py:264-265 | definition of the filter mask for one row; properties in `MatchingRows`, `MatchingRowsIdempotent`, `MatchingRowsAppend` |
| DetailDialog.InitialWidget | app/ui/detail_dialog.py:70-99 | definition of a fresh widget; properties in `BuildLayout` |
| DetailDialog.SourceInfo | app/ui/detail_dialog.py:140 | definition of the `source_info` text; properties in `CollectOkContents` |
| DetailDialog.Collect | app/ui/detail_dialog.py:103-145 | definition of `collect_changes`; properties in `CollectOkIff`, `CollectOkContents`, `RowErrIsFirst` |
| ApplyChanges.StampText | app/services/apply_changes.py:9 | definition of the minute stamp; properties in `StampRoundTrip` |
| ApplyChanges.Suffix | app/services/apply_changes.py:27 | definition of `Path.suffix`; properties in `StemSuffix`, `BackupIsSibling` |
| ApplyChanges.Stem | app/services/apply_changes.py:27 | definition of `Path.stem`; properties in `StemSuffix`, `BackupIsSibling` |
| ApplyChanges.FilledPath | app/services/apply_changes.py:11 | definition of the new file's name; properties in `FileSystem.SaveFilled` |
| ApplyChanges.BackupPath | app/services/apply_changes.py:25-27 | definition of the backup's name; properties in `BackupIsSibling` |
| ApplyChanges.SavedRows | app/services/apply_changes.py:12 | definition of the table without `_KEY_`; properties in `WithoutAbsent`, `WithoutSplits`, `SavedTableReadsBack` |
| ApplyChanges.ReplaceSheet | app/services/apply_changes.py:32-40 | definition of the sheet replacement; properties in `ReplaceSheetShape`, `RemoveSheetKeepsOthers`, `RemoveSheetUnique` |
| ApplyChanges.BackedUp | app/services/apply_changes.py:25-28 | definition of the copied file system; properties in `BackupKeepsOriginal` |


## Left out

- Qt widgets and rendering are not modelled. This covers layouts, message
  boxes, colours, scrolling, header menus, hidden columns, column order and
  colour preferences. The model keeps only what the logic reads and writes.
- `_pick_text_color_for_bg` is left out: it is floating-point colour
  arithmetic for display only.
- `app/services/settings.py` is not part of this model. It holds JSON
  persistence of the links, cuts and table preferences. A session receives
  those settings as constructor parameters.
- Sheet loading is not modelled: `pick_t1`, `load_t1`, `pick_t2`, `load_t2`,
  `_pick_file`, `_reload`, `list_sheets` (which only lists the sheet names)
  and `load_table`, which reads a sheet and strips the header names
  (`app/services/excel_io.py:42`). A loaded table arrives as a `DataFrame`,
  or as a `Frame` for a source panel, with its column names already
  stripped.
- pandas' NaN is an empty cell (`None`), and its text is "nan". Types other
  than text are not modelled, since the tables are read with `dtype=str`.
- `MainWindow.Session.AutofillCurrentKeyLinked` reads the primary key column
  once, when the scan builds the engine (`app/ui/main_window.py:440`). The
  program reads `cb_t1_key.currentText()` again at fill time
  (`app/ui/main_window.py:704`). The model assumes the combo box is unchanged
  since the scan; a key column chosen after Start without a new scan is not
  modelled.
- `MainWindow.Session.AutofillAllLinked` makes the same assumption for its
  read of the key combo box (`app/ui/main_window.py:766`).
- `Matcher.MatchEngine.constructor` requires both key columns to be present.
  pandas raises `KeyError` for an absent one (`app/services/matcher.py:13-14`),
  and that error is not modelled. `start_scan` takes both keys from combo
  boxes that list the tables' own columns, so no caller can pass an absent
  column.
- Text handling is ASCII only.
  - Whitespace is six characters: space, tab, line feed, carriage return,
    vertical tab and form feed.
  - Python's `str.strip`, `str.split` and `\s` also treat the separators
    `\x1c` to `\x1f` and non-ASCII whitespace as whitespace. Neither is
    modelled.
  - Digits are `0` to `9`, and lower-casing maps only `A` to `Z`, so Unicode
    case folding is not modelled.
  - The street labels still include "straße" as a literal.
- The postcode database (pgeocode) is a parameter, the `Geocoder`. It is
  either unavailable or a lookup function.
- The clock (`datetime.now()`) is a parameter (`Stamp`).
- The file system is a map from paths to contents. A workbook is held as its
  sheets; any other file is held as its bytes.
- Some workbook behaviour is not modelled:
  - I/O errors;
  - writing into a missing directory;
  - chart sheets;
  - cell styles.
- `ApplyChanges.SavedTableReadsBack` compares against `ReadSheet`, a
  reference reader for sheets this program writes, not against
  `pandas.read_excel` itself.
- `ApplyChanges.BackupIsSibling`: the extension is only claimed kept when the
  name has one. A name ending in a dot has no suffix in `pathlib`, so that
  case is left unconstrained.
- `SourcePanel.Panel.FilterFullTableExact`: `str.contains` uses a regular
  expression by default. The model matches the needle as a literal
  substring. A needle holding regex metacharacters is therefore not
  modelled as the program treats it.
- `SourcePanel.Panel.FilterFullTableExact` follows pandas 2, where
  `df.astype(str)` turns an empty cell into the text "nan". pandas' string
  dtype instead keeps the empty cell missing, and `na=False` then never
  matches it. That behaviour is not modelled.
- `SourcePanel.Panel.SearchNext`: Qt's `hasFocus` and current cell are
  approximated. Each view records its current cell and whether it has the
  focus. Selecting a hit gives that view the focus and takes it from the
  other one.
- Keyboard editing (`editItem`) and scrolling are not modelled.
- `MainWindow.Session.EditShownCell` models the edit handler and the drop
  handler as their bodies read. The target table calls
  `on_t1_cell_dropped(row, col, new_text)` with three arguments (at
  `app/ui/dnd_tables.py:135`). The handler takes four
  (`app/ui/main_window.py:537`). As written, a drop therefore reaches only
  the view, not the table. That failing call is not modelled.
- Three main-window dialogs are left out as user interface: the links dialog
  (`open_links_dialog`), the cuts dialog (`open_cuts_dialog`) and
  `quick_copy_from_t2`. Their results enter the model as the session's
  `colLinks`, `cuts` and `countryDefault`. A quick copy is a cell edit
  (`EditShownCell`).
- The save buttons (`save_new_file`, `save_as`, `save_inplace`) only pick
  paths and call the save operations, which `ApplyChanges` models.
- The list of target columns in the detail dialog's combo box is left out.
  A target is modelled as the chosen text.
- The mode box is modelled as its two entries.
- The rendering part of `show_key` is not modelled: filling the two primary
  views and the secondary view with their items. `MainWindow.Session.ShowKey`
  keeps the current key and the column split.
- Aliasing between the engine's tables and the window's tables is modelled:
  they are the same `DataFrame` objects. The copies that
  `t2_rows_for_key` and `match_for_t1_index` return are values.
- `app/main.py` only starts the application and is not part of this model.
- `missing_mask` is left out. It is `is_missing` applied to every cell, and
  no modelled operation calls it.
