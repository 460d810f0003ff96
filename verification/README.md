# Roster-to-calendar extraction, modelled in Dafny

The pharmacy duty roster is a spreadsheet laid out as follows:
- The first cell holds a title such as "113年4月班表". The year in it is in the Minguo era.
- Row 2 holds the day numbers and row 3 the weekday symbols, both starting in column B.
- Every later row starts with a shift label in column A, followed by one cell per day naming the staff on duty.

Given a staff code, the converters do the following:
1. Find every day cell that contains the code.
2. Turn each hit into a record: the date, the weekday, the row's label, and a display label. The display label is the row's label with its "(h:mm-h:mm)" annotations removed and a table of abbreviations applied.
3. Set start and end times from a first-match chain of keyword rules.
4. Add an on-call evening after each inpatient prescription-review shift on a workday.
5. Give the holiday on-call shifts their slot times.
6. Emit the five columns a calendar import expects.

Holidays are read from the gray fill of the day cells. The desktop converter is the exception: it reads the weekday symbol.

There are four converters with the same core:
- `duty_noDL_allfunction.py` is the canonical one.
- `duty_schedule_holiday_editable.py` has an editable abbreviation table and the older gray.
- `duty_schedule_with_holiday_color.py` has a fixed table and the older gray.
- `duty_schedule_web.py` is the desktop one. It uses the weekday symbols, strips the code and filters blank labels.

The model has one engine for all four converters. Each converter is a setting of that engine, with its own chain, holiday policy, label reading, gray and evening display label. Each converter's rule chain is proved equal to a plain `if / elif` reference function written the way that converter spells it.

Modules, in dependency order:
- `Outcomes`: options and the error outcomes of a conversion.
- `Sheet`: cells (a missing cell prints as "nan"), the grid with pandas' padding of short rows, the layout constants, fills and the holiday map.
- `Text`: the Python string built-ins, with their Python semantics:
  - `in`
  - `strip`
  - `lower() == "nan"`
  - `isdigit`
  - `replace`
  - `{:d}` and `{:02d}`
- `Header`: the title pattern `(\d{2,3})年(\d{1,2})月` under `re.search`, the era offset 1911, the kept date columns and the (date, weekday) column index.
- `Normalize`: the annotation pattern, its removal with `re.sub`, and the abbreviation table.
- `Records`: the shift record.
- `Scan`: label and cell reading, and the row scan with its two loops.
- `Rules`: day kinds, rules, the first-match chain, the on-call override and added evenings, and the engine run.
- `Chains`: the three chains (the two older sheet converters share one) and their reference functions.
- `Calendar`: the five-column projection.
- `Pipeline`: each converter end to end, with its error outcomes.

Three behaviours of the code that a reader might not expect:
- **Annotations in display labels.** Annotation removal drops each left-to-right "(h:mm-h:mm)" match once, so a nested annotation leaves a new one behind (`Normalize.NestedAnnotationSurvives`).
- **Empty labels.** The editable and colour converters scan rows whose label strips to "" (`Scan.EmptyLabelOnlyDifference`).
- **Running the engine twice.** A second engine run keeps every assigned time but appends every on-call evening again (`Rules.RunTwice`).

## Model

| member | source | states |
|---|---|---|
| Sheet.BuildHolidayMap | duty_noDL_allfunction.py:183-203 | the map has a key for exactly the columns 2..max_column, and a column is a holiday exactly when its fill is of type rgb and equals the given gray |
| Sheet.HolidayFlagReadsFill | duty_noDL_allfunction.py:229-230 | looking a column up gives a holiday exactly when a column is found, lies in 2..max_column and its fill is the gray; a missing column defaults to a workday |
| Sheet.GraysDisagree | duty_schedule_holiday_editable.py:12-19 | a column filled with the canonical gray FFD9D9D9 is a holiday for the canonical converter and a workday for the converters that look for FFD8D8D8 |
| Sheet.RowFrom1 | duty_noDL_allfunction.py:415-416 | `iloc[r, 1:]` is the row from its second cell to the width of the frame, with missing cells where the row is short |
| Text.ContainsIffOccurs | duty_noDL_allfunction.py:452 | Python's substring test holds exactly when the code occurs at some position of the text |
| Text.StripSpec | duty_noDL_allfunction.py:440 | `strip` returns a contiguous slice without whitespace at its ends, outside of which the text holds only whitespace |
| Text.StripIdempotent | duty_noDL_allfunction.py:440 | stripping a stripped label changes nothing |
| Text.Pad2 | duty_noDL_allfunction.py:420 | `{:02d}` gives digits whose value is the number, two of them exactly when the number is below 100 |
| Text.ReplaceIsSplitJoin | duty_noDL_allfunction.py:459 | the left-to-right replacement equals joining the split pieces with the replacement, as Python documents `replace` |
| Text.SplitJoinRoundTrip | duty_noDL_allfunction.py:459 | splitting on a key and joining with the same key gives the text back |
| Text.ReplaceAbsent | duty_noDL_allfunction.py:459 | replacing a key that does not occur leaves the text unchanged |
| Header.DigitRunUnique | duty_noDL_allfunction.py:405 | a greedy digit run followed by a non-digit stop is the only one the pattern can match there |
| Header.TitleAtSound | duty_noDL_allfunction.py:405 | a title match found at a position is spelled there: 2-3 digits, 年, 1-2 digits, 月 |
| Header.TitleAtComplete | duty_noDL_allfunction.py:405 | anything so spelled at a position is exactly the match the matcher returns there |
| Header.SearchTitle | duty_noDL_allfunction.py:405 | `re.search` returns the leftmost position where the pattern matches, and none when no position matches |
| Header.ParseTitle | duty_noDL_allfunction.py:404-412 | the title fails with TitleFormat exactly when no position matches; otherwise year = captured era + 1911 and month = captured month, both from the leftmost match, so a later pattern in the title is ignored |
| Header.TitleRoundTrip | duty_noDL_allfunction.py:405-411 | writing "<era>年<month>月班表" for any 2-3 digit era and month below 100 and parsing it back gives (era + 1911, month) |
| Header.DateStringShape | duty_noDL_allfunction.py:420 | a date with a four-digit year is YYYY-MM-DD: ten characters, dashes at 4 and 7, and digit fields reading back the year, month and day |
| Header.AprilTitleExample | duty_noDL_allfunction.py:404-412 | the title "113年4月班表" is April 2024 |
| Header.AprilDaysExample | duty_noDL_allfunction.py:415-423 | days 1, 2, 3 under weekdays 一, 二, 三 in the April 2024 roster give the entries 2024-04-01, 2024-04-02 and 2024-04-03 with those weekdays |
| Header.KeptPositionsIncrease | duty_noDL_allfunction.py:419-423 | the kept day positions are in increasing order |
| Header.KeptPositionsCover | duty_noDL_allfunction.py:419-423 | every all-digit day cell is kept |
| Header.DateEntriesAreKeptCells | duty_noDL_allfunction.py:419-423 | the k-th date entry is the formatted date of the k-th all-digit day cell, with the weekday cell of that same position |
| Header.ColumnIndex | duty_noDL_allfunction.py:426-429 | the index has a key for exactly the (date, weekday) pairs of the entries |
| Header.ColumnIndexLastWins | duty_noDL_allfunction.py:426-429 | each key maps to i + 2 for the last entry i that carries it |
| Header.ColumnIndexPositional | duty_schedule_with_holiday_color.py:161-163 | with distinct keys the i-th kept entry maps to i + 2 |
| Header.EntryComesFromIndexedColumn | duty_noDL_allfunction.py:419-429 | when the all-digit day cells lead the row, the i-th entry comes from position i, which is spreadsheet column i + 2, the index it gets |
| Header.ShiftedByLeadingBlank | duty_noDL_allfunction.py:426-429 | with a blank column B before day 1 in column C, day 1 still gets index 2: the index counts kept entries, not columns |
| Normalize.ClockAtComplete | duty_noDL_allfunction.py:454 | any `\d{1,2}:\d{2}` spelled at a position is the one the matcher returns |
| Normalize.TimeAtSound | duty_noDL_allfunction.py:454 | an annotation found at a position is spelled there as "(start-end)" |
| Normalize.TimeAtComplete | duty_noDL_allfunction.py:454 | any annotation spelled at a position is exactly the one the matcher returns there |
| Normalize.FirstTime | duty_noDL_allfunction.py:243 | `re.search` for the annotation returns the leftmost position with a match, and none when no position has one |
| Normalize.DropRemovesEachLeftmostMatch | duty_noDL_allfunction.py:454 | the substitution scan equals the documented `re.sub` loop: find the leftmost match, copy the text before it, drop it, continue after it |
| Normalize.StripRemovesEachLeftmostMatch | duty_noDL_allfunction.py:454 | removing annotations removes every left-to-right, non-overlapping match and nothing else |
| Normalize.NextMatchIsFirstTime | duty_noDL_allfunction.py:454 | the match that loop drops next is the one `re.search` finds from the same position |
| Normalize.DropOneMatch | duty_noDL_allfunction.py:454 | a text with a single match loses exactly that slice |
| Normalize.StripWithoutAnnotation | duty_noDL_allfunction.py:454 | a label without an annotation is left as it is |
| Normalize.NestedAnnotationSurvives | duty_noDL_allfunction.py:454 | "((1:00-2:00)1:00-2:00)" becomes "(1:00-2:00)", which holds an annotation again: removal does not leave the label free of annotations |
| Normalize.TrailingAnnotation | duty_noDL_allfunction.py:454 | when a label's only "(" opens an annotation that ends the label, `re.search` finds that annotation and removal keeps exactly the text before it |
| Normalize.OutpatientLabelExample | duty_noDL_allfunction.py:454 | "門診藥局調劑(09:00-11:00)" holds the annotation 09:00-11:00 at position 6, and without it the label is "門診藥局調劑" |
| Normalize.IncompleteRowsSkipped | duty_noDL_allfunction.py:457-459 | table rows with a missing key or value have no effect: the table acts as its complete rows alone |
| Normalize.AbbreviateInOrder | duty_noDL_allfunction.py:457-459 | the table is applied in table order: a table split in two acts as its first part followed by its second |
| Normalize.AbsentKeyNoEffect | duty_noDL_allfunction.py:457-459 | a table row whose key does not occur in the label leaves it unchanged |
| Normalize.FixedTableLabel | duty_schedule_with_holiday_color.py:174-175 | with the fixed table the display label is the annotation-free label with 調劑複核 replaced by C |
| Scan.ReadLabel | duty_noDL_allfunction.py:434-446 | a row is scanned exactly when its stripped label is not "nan" in any letter case, does not contain the footnote marker, and is non-empty unless the converter keeps empty labels; the label used is the stripped one |
| Scan.CanonicalLabelAgrees | duty_noDL_allfunction.py:434-446 | testing the missing cell before converting it to text skips the same rows as reading it as "nan" |
| Scan.EmptyLabelOnlyDifference | duty_schedule_holiday_editable.py:170-172 | the sheet variants differ from the desktop converter exactly on labels that strip to "", which they scan |
| Scan.DesktopLabelIsCanonical | duty_schedule_web.py:144-146 | the desktop converter skips the same labels as the canonical one |
| Scan.BlankCellMatchesNan | duty_schedule_holiday_editable.py:174-175 | a missing date cell read as "nan" is hit by the codes "a" and "nan" |
| Scan.BlankCellNeverMatches | duty_noDL_allfunction.py:450-452 | a missing date cell read as "" is hit by no non-empty code |
| Scan.RowMatchesPerColumn | duty_noDL_allfunction.py:448-466 | a row gives one record per cell position k + 1 holding the code, dated by the k-th kept day entry, in order, and nothing else |
| Scan.MatchedColumnsIncrease | duty_noDL_allfunction.py:448 | the matching date columns of a row come in increasing order |
| Scan.MatchedColumnsComplete | duty_noDL_allfunction.py:448-452 | every date column whose cell holds the code is among the matching columns |
| Scan.ScanRow | duty_noDL_allfunction.py:433-446 | a skipped row gives no record, and no row gives more records than there are date columns |
| Scan.ScanGridSound | duty_noDL_allfunction.py:433-466 | each record comes from a data row with an accepted label whose cell at position k + 1 holds the code; it carries the date and weekday of the k-th kept day entry, the stripped label, and the label normalised for display |
| Scan.ScanGridComplete | duty_noDL_allfunction.py:433-466 | each such row and column gives its record |
| Scan.ScannedContentIsClean | duty_noDL_allfunction.py:440-446 | a record's raw label is stripped, never a "nan" word, never holds the footnote marker, and is non-empty unless empty labels are kept |
| Scan.ScanRowLoop | duty_noDL_allfunction.py:448-466 | the column loop of one row computes that row's records |
| Scan.ScanLoop | duty_noDL_allfunction.py:432-466 | the row loop computes the records of all data rows, row by row |
| Scan.EmptyCellFoundByVariants | duty_schedule_holiday_editable.py:174-188 | as written, the variants give a record for an empty date cell when the code is "a" |
| Scan.CanonicalRecordsFromFilledCells | duty_noDL_allfunction.py:448-466 | reading a missing cell as "", every record comes from a cell that holds a value containing the code |
| Scan.SpacerColumnMisdated | duty_noDL_allfunction.py:419-463 | as written, with the day row 1, 2, (blank), 3 the three kept entries are read from positions 1..3, so a code in the spacer column is reported on day 3 |
| Scan.OwnColumnDated | duty_noDL_allfunction.py:418-429 | reading each kept day's cell from its own column, every record carries the day and weekday written above the cell that holds the code, whatever gaps the day row has |
| Scan.OwnColumnFindsEveryDay | duty_noDL_allfunction.py:418-429 | reading each kept day's cell from its own column, every cell under a numeric day that holds the code gives a record with that day's date and weekday |
| Rules.KindOfDateAndWeekday | duty_noDL_allfunction.py:226-230 | the day kind depends on the record's date and weekday cell only |
| Rules.FillKindReadsLastColumn | duty_noDL_allfunction.py:226-230 | under the fill policy a record is a holiday exactly when the fill of column k + 2 is the gray, where k is the last date entry carrying its (date, stripped weekday) key |
| Rules.UnindexedIsWorkday | duty_noDL_allfunction.py:229-230 | a record whose key no date entry carries is a workday, whatever the fills |
| Rules.PaddedWeekdayIsWorkday | duty_noDL_allfunction.py:226-230 | a gray column whose weekday cell reads "六 " is a workday: the lookup key is stripped but the index key is not |
| Rules.WeekdayKinds | duty_schedule_web.py:27-32 | under the weekday policy 一..五 are workdays, 六 and 日 holidays, and every other text is neither |
| Rules.BracketCopiesFirstAnnotation | duty_noDL_allfunction.py:242-253 | a bracket rule sets the times of the leftmost "(start-end)" of the label as written, and nothing when there is none |
| Rules.FirstFiring | duty_noDL_allfunction.py:232-286 | the chain consults the first rule whose keywords occur in the label, and no earlier rule fires |
| Rules.Retimed | duty_noDL_allfunction.py:224-309 | the rules change only a record's times |
| Rules.Extras | duty_noDL_allfunction.py:288-297 | every added record is an on-call evening, 17:30-21:30, on a workday, with the converter's evening label, and there are no more of them than records |
| Rules.DropBlankLabelsMembers | duty_schedule_web.py:20 | the desktop filter keeps a record exactly when its stripped label is not exactly "", "nan" or the footnote marker |
| Rules.Run | duty_noDL_allfunction.py:222-314 | the output starts with the kept records in order, changed only in their times, followed by added on-call evenings; there are at most as many added records as kept ones |
| Rules.ApplyTimeRules | duty_noDL_allfunction.py:209-314 | the record loop, which runs the chain, then the added evening, then the override, computes the engine's run |
| Rules.OverrideWins | duty_noDL_allfunction.py:299-309 | a holiday on-call record that names a slot gets that slot's times, whatever rule fired before |
| Rules.UnmatchedKeepsTimes | duty_noDL_allfunction.py:224-309 | a record on which no rule fires, and which is not a holiday on-call shift, is left as it is, so its times stay blank |
| Rules.AssignedTimesAreClocks | duty_noDL_allfunction.py:232-309 | with a chain whose times are clock readings, a record's times are either unchanged or both set to clock readings: start and end are set together |
| Rules.RetimedIdempotent | duty_noDL_allfunction.py:224-309 | setting a record's times a second time gives the same times |
| Rules.ExtrasSource | duty_noDL_allfunction.py:288-297 | each added record comes from a kept inpatient review on a workday with the same date and weekday |
| Rules.ExtrasComplete | duty_noDL_allfunction.py:288-297 | each kept inpatient review on a workday brings its evening, with its date and weekday |
| Rules.ExtrasPerSource | duty_noDL_allfunction.py:288-297 | the i-th added record is the evening of the i-th record that brings one |
| Rules.EveningSourcesExact | duty_noDL_allfunction.py:289 | a record brings an evening exactly when it is an inpatient review on a workday |
| Rules.EveningSourcesIncrease | duty_noDL_allfunction.py:289-297 | records that bring evenings are listed in their order and each only once: exactly one added record per such record |
| Rules.ExtrasRetimed | duty_noDL_allfunction.py:288-297 | setting times does not change which records bring an evening |
| Rules.RunTwice | duty_noDL_allfunction.py:289-312 | running the engine on its own output keeps every record and its times, but appends every on-call evening a second time |
| Chains.PrescriptionSlotsAreReference | duty_noDL_allfunction.py:215-220 | the prescription slots pick the first of 上午 08:00-12:00, 下午 13:30-17:30, 小夜1hr 17:30-18:30 and 小夜 17:30-21:30 present in the label |
| Chains.CanonicalFirst | duty_noDL_allfunction.py:232-286 | the canonical chain fires, first match wins, in the order 調劑複核, 門診藥局調劑, 中2藥局, the prescription group, 抗凝藥師門診, 移植藥師門診 with 上午, 中藥局調劑, 瑞德西偉審核 |
| Chains.CanonicalChainIsReference | duty_noDL_allfunction.py:232-286 | the canonical chain sets the times of the canonical `if / elif` chain on every label, weekday and day kind |
| Chains.DispensingReviewExample | duty_noDL_allfunction.py:232-239 | the label 調劑複核 ends up 13:30-15:00 on a workday and 11:00-15:00 on a holiday; the on-call override does not touch it |
| Chains.OutpatientTakesBracket | duty_noDL_allfunction.py:241-246 | in every chain, a label with 門診藥局調劑 but without 調劑複核 gets the times of its first annotation, or none when it has no annotation |
| Chains.OutpatientDispensingExample | duty_noDL_allfunction.py:241-246 | "門診藥局調劑(09:00-11:00)" gets 09:00-11:00 in every chain, on any day |
| Chains.SheetVariantFirst | duty_schedule_holiday_editable.py:41-84 | the sheet-variant chain has no 中2藥局 rule and tests PreESRD with 上午 after the transplant clinic |
| Chains.SheetVariantChainIsReference | duty_schedule_with_holiday_color.py:47-97 | the sheet-variant chain sets the times of the editable and fill-colour converters' `if / elif` chain |
| Chains.DesktopFirst | duty_schedule_web.py:26-80 | the desktop chain tests the transplant and PreESRD clinics on their names alone |
| Chains.DesktopChainIsReference | duty_schedule_web.py:26-80 | with the day kind read from the weekday, the desktop chain sets the times of the desktop converter's `if / elif` chain, including nothing for 調劑複核 on an unrecognised weekday |
| Chains.PreEsrdMorningUnreachable | duty_schedule_holiday_editable.py:55-76 | the PreESRD rule never fires first: the prescription group takes every label naming PreESRD |
| Chains.SheetVariantAgreesWithCanonical | duty_schedule_with_holiday_color.py:48-97 | without 中2藥局 in the label, the sheet-variant and canonical chains set the same times |
| Chains.SecondCentralPharmacyCanonical | duty_noDL_allfunction.py:248-253 | the canonical chain gives a 中2藥局 label, not taken earlier, its bracketed times |
| Chains.SecondCentralPharmacySheetVariant | duty_schedule_holiday_editable.py:41-84 | the sheet variants set nothing for such a label when no later rule fires |
| Chains.TransplantWithoutMorning | duty_schedule_web.py:55-58 | a transplant-clinic label without 上午 stops the desktop chain with no times, while the sheet variants go on to a later rule |
| Chains.DesktopAgreesWithSheetVariants | duty_schedule_web.py:26-80 | apart from that case, the desktop and sheet-variant chains set the same times for the same day kind |
| Chains.ChainsQuietOnCall | duty_noDL_allfunction.py:232-286 | no rule of any chain fires on the on-call label |
| Chains.ChainsTimed | duty_noDL_allfunction.py:232-286 | every time a chain writes is an h:mm clock reading |
| Calendar.Project | duty_noDL_allfunction.py:479-481 | one calendar row per record, in order: the subject is the display label, start and end date are the record's date, and the times are the record's times |
| Calendar.Table | duty_noDL_allfunction.py:481 | the table is the header Subject, Start Date, Start Time, End Date, End Time followed by one line per row in that column order |
| Calendar.TableShape | duty_schedule_web.py:164-166 | every line has five fields, and below the header End Date equals Start Date, the record's date |
| Pipeline.Prepare | duty_noDL_allfunction.py:395-429 | a missing code stops the conversion, exactly when the code (stripped by the desktop converter) is empty; a title without the pattern stops it with TitleFormat, exactly when no position matches |
| Pipeline.Convert | duty_noDL_allfunction.py:395-481 | a conversion returns the error of the first failing step, and otherwise either rows or NoMatch |
| Pipeline.NoMatchIffNoHit | duty_noDL_allfunction.py:468-471 | the code matches nothing exactly when no row with an accepted label holds it in a cell at position k + 1 for any kept day entry k |
| Pipeline.ConvertSound | duty_noDL_allfunction.py:432-481 | each calendar row is a hit, with its label normalised for display and the date of the k-th kept day entry, read from the cell at position k + 1, or an on-call evening brought by a hit on an inpatient review on that date |
| Pipeline.ConvertComplete | duty_noDL_allfunction.py:432-481 | every hit, the cell at position k + 1 of an accepted row, gives a calendar row with its display label and the date of the k-th kept day entry |
| Pipeline.ConvertKeepsScanned | duty_noDL_allfunction.py:461-481 | each scanned record keeps its place in the calendar, with its display label as subject and its date as start and end date |
| Pipeline.ConvertRowCount | duty_noDL_allfunction.py:468-481 | the calendar has between one and two rows per scanned record |
| Pipeline.DesktopFilterKeepsAll | duty_schedule_web.py:20 | the desktop filter removes none of the desktop scan's records |
| Pipeline.EngineRunTwice | duty_noDL_allfunction.py:289-312 | for every converter, running the engine on its own output keeps the timed records and appends their evenings again |
| Pipeline.SpacedCodeRefusedOnDesktop | duty_schedule_web.py:118-122 | a code of one space is refused by the desktop converter alone |

## Left out

- The user interfaces: the Streamlit pages, the tkinter window, file dialogs, the download buttons and the help PDF. They are presentation and I/O.
- The Google Drive client: listing, downloading and the link parser `extract_drive_file_id`. They belong to file retrieval, not to the conversion.
- Reading the workbook. The grid of cells and the fills of the day row are parameters. The fills are given for columns 2..max_column independently of the grid's width, as openpyxl and pandas read them separately.
- How pandas prints non-text cells. A numeric cell is modelled by its printed text, and a missing cell prints as "nan".
- Unicode digits under `\d` and `isdigit`. Only ASCII digits are modelled.
- Python regular expressions in general. The two patterns the converters use are written out by hand.
- CSV writing with a UTF-8 byte-order mark, and the download file name.
- The abbreviation table as a Python dict. The editors' `dict(zip(...))` keeps only the last value of a repeated key, at its first position. The model applies the table as a list of rows, so the table is assumed to have distinct keys.
- How an empty result ends:
  - The canonical converter warns and stops.
  - The older sheet converters would fail on the missing columns.
  - The desktop converter reports the error.

  All of these are modelled as the outcome NoMatch.
- A short frame. When the title cell or the day and weekday rows are missing, pandas raises an error. This is modelled as the outcome SheetShape.
- Whether the two older sheet converters run as scripts at all. Neither parses as Python:
  - In the editable converter, a string is broken by unescaped quotes at line 127.
  - The editable converter also uses its default table at line 119, before the table is assigned at line 134.
  - The colour converter is mis-indented at lines 168-170.

  The model follows the logic they express.
- Scan.ScanGridSound: like the converters, it reads the cell at position k + 1 of a row and dates it by the k-th kept day entry. The two come from the same spreadsheet column only when the numeric day cells run without a gap from column B (`Header.DigitDaysLeading`, as used by `Header.EntryComesFromIndexedColumn`). Any gap shifts the later days by one column per gap. A blank column B before day 1 is one case: with days [blank, "1", "2"], a code in the day-1 column is dated day 2 (`Header.ShiftedByLeadingBlank`). A spacer column between days is another: with days [1, 2, blank, 3] in B..E, a code in the spacer column D is dated day 3, and column E is never read (`Scan.SpacerColumnMisdated`). This is listed under "## Findings". `Scan.ScanGridComplete`, `Pipeline.NoMatchIffNoHit`, `Pipeline.ConvertSound` and `Pipeline.ConvertComplete` state hits the same way, as the code does. Rosters whose numeric day cells run without a gap from column B are dated correctly.
- Header.DateStringShape: covers four-digit years only. The title pattern's 2-3 digit era plus 1911 always gives one.

## Findings

| source | as written | input that shows it | evidently intended | confidence | as-written member | corrected member |
|---|---|---|---|---|---|---|
| duty_schedule_holiday_editable.py:174-175 (also duty_schedule_with_holiday_color.py:172-173, duty_schedule_web.py:148-149) | a date cell is searched in `str(cell)`, and a missing cell prints as "nan" | a roster row with a usable label and an empty day cell, with the code "a" (or "n", "an", "nan"): the empty cell is reported as a shift of that person | an empty cell holds nobody's code, as the canonical converter reads it (duty_noDL_allfunction.py:450) | not executed | Scan.EmptyCellFoundByVariants | Scan.CanonicalRecordsFromFilledCells |
| duty_noDL_allfunction.py:419-463 (also duty_schedule_holiday_editable.py:159-185, duty_schedule_with_holiday_color.py:155-178, duty_schedule_web.py:137-154) | the k-th kept day entry is paired with the cell at position k + 1, a count of kept days rather than the column the day came from | a day row 1, 2, (blank), 3 in columns B..E: a code in the spacer column D is reported on day 3, and a code in column E (the real day 3) is never found | each day is read from its own column: the comments at duty_noDL_allfunction.py:418 and 425 describe the mapping as one entry per column and the index as the spreadsheet column, counted from B = 2 | not executed | Scan.SpacerColumnMisdated | Scan.OwnColumnDated |

`Pipeline` keeps each converter as its code is written. The corrected members stand next to it and prove what the intended reading guarantees.
