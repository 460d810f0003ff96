/**
 The row scan: every data row (from the fourth row on) with a usable label
 is searched, cell position by cell position, for cells whose text contains
 the staff code; the cell at position k + 1 is dated by the k-th kept day
 entry, and each hit becomes one shift record whose display label is
 the row's label passed through the label normaliser (a parameter here;
 the Normalize module defines it). The converters differ in which labels
 they skip and in how they read a missing cell.
 */
module Scan {
  import opened Outcomes
  import opened Text
  import opened Sheet
  import opened Header
  import opened Records

  /** The footnote marker, written with an ideographic space. */
  const Footnote := "附\U{3000}註"

  /** How a converter reads label and date cells. */
  datatype ScanStyle = ScanStyle(
    keepsEmptyLabels: bool,   // a label that strips to "" is still scanned
    blankCellIsNan: bool)     // a missing date cell is searched as the text "nan"

  /** The canonical converter: empty labels skipped, missing cells read as "". */
  const CanonicalStyle := ScanStyle(false, false)
  /** The editable-table and older fill-colour converters. */
  const SheetVariantStyle := ScanStyle(true, true)
  /** The desktop converter. */
  const DesktopStyle := ScanStyle(false, true)

  /* ---------------------------------------------------------------------
     Labels
     --------------------------------------------------------------------- */

  /** The stripped label of a row, or None when the row is skipped: a
      "nan" label in any letter case, one containing the footnote marker,
      and (unless the style keeps them) one that strips to "". A missing
      label cell reads as "nan" and is therefore always skipped. */
  function ReadLabel(raw: Cell, style: ScanStyle): (r: Option<string>)
    ensures r.Some? <==>
      && (style.keepsEmptyLabels || Strip(Str(raw)) != "")
      && !IsNanWord(Strip(Str(raw)))
      && !Contains(Strip(Str(raw)), Footnote)
    ensures r.Some? ==> r.value == Strip(Str(raw))
  {
    var content := Strip(Str(raw));
    if (!style.keepsEmptyLabels && content == "") || IsNanWord(content) || Contains(content, Footnote)
    then None
    else Some(content)
  }

  /** The canonical converter's label test as written: the missing cell is
      rejected before it is turned into text. */
  function CanonicalLabel(raw: Cell): Option<string> {
    if raw.Blank? then None
    else
      var content := Strip(raw.text);
      if content == "" then None
      else if IsNanWord(content) then None
      else if Contains(content, Footnote) then None
      else Some(content)
  }

  /** Testing the missing cell first is the same as reading it as "nan". */
  lemma CanonicalLabelAgrees(raw: Cell)
    ensures CanonicalLabel(raw) == ReadLabel(raw, CanonicalStyle)
  {
    StripNan();
  }

  /** A missing label cell is skipped by every converter. */
  lemma BlankLabelSkipped(style: ScanStyle)
    ensures ReadLabel(Blank, style).None?
  {
    StripNan();
  }

  /** The converters that keep empty labels differ from the others exactly
      on labels that strip to "": those are scanned, as "". */
  lemma EmptyLabelOnlyDifference(raw: Cell)
    ensures Strip(Str(raw)) == "" ==> ReadLabel(raw, SheetVariantStyle) == Some("")
    ensures Strip(Str(raw)) == "" ==> ReadLabel(raw, DesktopStyle).None?
    ensures Strip(Str(raw)) != "" ==> ReadLabel(raw, SheetVariantStyle) == ReadLabel(raw, DesktopStyle)
  {
    if Strip(Str(raw)) == "" {
      assert !Contains("", Footnote);
    }
  }

  /** The desktop converter skips the same labels as the canonical one. */
  lemma DesktopLabelIsCanonical(raw: Cell)
    ensures ReadLabel(raw, DesktopStyle) == CanonicalLabel(raw)
  {
    CanonicalLabelAgrees(raw);
  }

  /* ---------------------------------------------------------------------
     Date cells
     --------------------------------------------------------------------- */

  /** The text a date cell is searched in. */
  function CellText(c: Cell, style: ScanStyle): (t: string)
    ensures c.Value? ==> t == c.text
    ensures c.Blank? ==> t == (if style.blankCellIsNan then "nan" else "")
  {
    if c.Blank? && !style.blankCellIsNan then "" else Str(c)
  }

  /** The staff code is a substring of the cell's text. */
  predicate CellMatches(code: string, c: Cell, style: ScanStyle) {
    Contains(CellText(c, style), code)
  }

  /** Reading a missing cell as "nan" makes every substring of "nan" hit
      it: the code "a" finds a shift in an empty cell. */
  lemma BlankCellMatchesNan(style: ScanStyle)
    requires style.blankCellIsNan
    ensures CellMatches("a", Blank, style)
    ensures CellMatches("nan", Blank, style)
  {
    assert StartsWith("nan"[1..], "a");
    assert StartsWith("nan", "nan");
  }

  /** Read as "", a missing cell is never hit by a non-empty code. */
  lemma BlankCellNeverMatches(code: string)
    requires code != ""
    ensures !CellMatches(code, Blank, CanonicalStyle)
  {
  }

  /* ---------------------------------------------------------------------
     One row
     --------------------------------------------------------------------- */

  /** The record dated by the k-th kept day entry. */
  function RecordAt(es: seq<DateEntry>, k: nat, content: string, display: string): (s: Shift)
    requires k < |es|
    ensures s.date == es[k].date && s.weekday == es[k].weekday && s.times == Unset
  {
    Shift(es[k].date, es[k].weekday, content, display, Unset)
  }

  /** The first n date columns of row r: column position k + 1 is read and
      paired with the k-th kept date entry. Positions, not spreadsheet
      columns: the cell and the date come from different columns when a
      non-numeric day cell precedes a numeric one. */
  function RowMatches(g: Grid, r: nat, code: string, es: seq<DateEntry>, content: string, display: string,
                      style: ScanStyle, n: nat): (out: seq<Shift>)
    requires r < |g| && n <= |es|
    ensures |out| <= n
  {
    if n == 0 then []
    else
      RowMatches(g, r, code, es, content, display, style, n - 1)
      + (if CellMatches(code, At(g, r, n), style) then [RecordAt(es, n - 1, content, display)] else [])
  }

  /** Positions k < n whose cell (column k + 1) holds the code, in order. */
  function MatchedColumns(g: Grid, r: nat, code: string, style: ScanStyle, n: nat): (ks: seq<nat>)
    requires r < |g|
    ensures forall i :: 0 <= i < |ks| ==> ks[i] < n && CellMatches(code, At(g, r, ks[i] + 1), style)
  {
    if n == 0 then []
    else
      MatchedColumns(g, r, code, style, n - 1)
      + (if CellMatches(code, At(g, r, n), style) then [n - 1] else [])
  }

  /** The matching columns come in increasing order. */
  lemma {:induction false} MatchedColumnsIncrease(g: Grid, r: nat, code: string, style: ScanStyle, n: nat)
    requires r < |g|
    ensures forall i, j :: 0 <= i < j < |MatchedColumns(g, r, code, style, n)| ==>
      MatchedColumns(g, r, code, style, n)[i] < MatchedColumns(g, r, code, style, n)[j]
  {
    if n > 0 {
      MatchedColumnsIncrease(g, r, code, style, n - 1);
    }
  }

  /** Every column before n whose cell holds the code is listed. */
  lemma {:induction false} MatchedColumnsComplete(g: Grid, r: nat, code: string, style: ScanStyle, n: nat, k: nat)
    requires r < |g| && k < n && CellMatches(code, At(g, r, k + 1), style)
    ensures k in MatchedColumns(g, r, code, style, n)
  {
    var prev := MatchedColumns(g, r, code, style, n - 1);
    if k < n - 1 {
      MatchedColumnsComplete(g, r, code, style, n - 1, k);
      assert MatchedColumns(g, r, code, style, n) == prev + (if CellMatches(code, At(g, r, n), style) then [n - 1] else []);
    } else {
      assert MatchedColumns(g, r, code, style, n) == prev + [k];
    }
  }

  /** One record per matching cell position, in order, and nothing else:
      the i-th record belongs to the i-th matching position. */
  lemma {:induction false} RowMatchesPerColumn(g: Grid, r: nat, code: string, es: seq<DateEntry>,
                                               content: string, display: string, style: ScanStyle, n: nat)
    requires r < |g| && n <= |es|
    ensures |RowMatches(g, r, code, es, content, display, style, n)| == |MatchedColumns(g, r, code, style, n)|
    ensures forall i :: 0 <= i < |MatchedColumns(g, r, code, style, n)| ==>
      RowMatches(g, r, code, es, content, display, style, n)[i]
        == RecordAt(es, MatchedColumns(g, r, code, style, n)[i], content, display)
  {
    if n > 0 {
      RowMatchesPerColumn(g, r, code, es, content, display, style, n - 1);
    }
  }

  /** The records of one data row: none when its label is skipped. */
  function ScanRow(g: Grid, r: nat, code: string, es: seq<DateEntry>, style: ScanStyle,
                   normalise: string -> string): (out: seq<Shift>)
    requires r < |g|
    ensures ReadLabel(At(g, r, LabelColumn), style).None? ==> out == []
    ensures |out| <= |es|
  {
    match ReadLabel(At(g, r, LabelColumn), style)
    case None => []
    case Some(content) => RowMatches(g, r, code, es, content, normalise(content), style, |es|)
  }

  /* ---------------------------------------------------------------------
     The whole grid
     --------------------------------------------------------------------- */

  /** The parts laid end to end, in order. */
  function Flatten(parts: seq<seq<Shift>>): seq<Shift> {
    if |parts| == 0 then [] else Flatten(parts[..|parts| - 1]) + parts[|parts| - 1]
  }

  lemma {:induction false} FlattenMember(parts: seq<seq<Shift>>, i: nat, x: Shift)
    requires i < |parts| && x in parts[i]
    ensures x in Flatten(parts)
    decreases |parts|
  {
    if i < |parts| - 1 {
      FlattenMember(parts[..|parts| - 1], i, x);
    }
  }

  lemma {:induction false} FlattenSource(parts: seq<seq<Shift>>, x: Shift)
    requires x in Flatten(parts)
    ensures exists i :: 0 <= i < |parts| && x in parts[i]
    decreases |parts|
  {
    var init := parts[..|parts| - 1];
    if x !in parts[|parts| - 1] {
      FlattenSource(init, x);
      var i :| 0 <= i < |init| && x in init[i];
      assert parts[i] == init[i];
    }
  }

  /** Laying out one more part. */
  lemma FlattenPrefixStep(parts: seq<seq<Shift>>, n: nat)
    requires n < |parts|
    ensures Flatten(parts[..n + 1]) == Flatten(parts[..n]) + parts[n]
  {
    assert parts[..n + 1][..n] == parts[..n];
  }

  /** The records of each data row, row by row. */
  function RowResults(g: Grid, code: string, es: seq<DateEntry>, style: ScanStyle,
                      normalise: string -> string): (rows: seq<seq<Shift>>)
    ensures |g| <= FirstDataRow ==> rows == []
    ensures |g| > FirstDataRow ==> |rows| == |g| - FirstDataRow
    ensures forall i :: 0 <= i < |rows| ==> rows[i] == ScanRow(g, FirstDataRow + i, code, es, style, normalise)
  {
    if |g| <= FirstDataRow then []
    else seq(|g| - FirstDataRow, i requires 0 <= i < |g| - FirstDataRow =>
               ScanRow(g, FirstDataRow + i, code, es, style, normalise))
  }

  /** Records of all data rows, in row order. */
  function ScanGrid(g: Grid, code: string, es: seq<DateEntry>, style: ScanStyle,
                    normalise: string -> string): seq<Shift>
  {
    Flatten(RowResults(g, code, es, style, normalise))
  }

  /** A record the scan emits comes from a data row with a usable label
      whose cell at position k + 1 holds the code; it is dated by the k-th
      kept day entry (the same column only when the kept day cells lead the
      row); its raw label is the row's stripped label and its display label
      is that label normalised. */
  ghost predicate FoundAt(g: Grid, code: string, es: seq<DateEntry>, style: ScanStyle,
                          normalise: string -> string, s: Shift, r: int, k: int)
  {
    && FirstDataRow <= r < |g| && 0 <= k < |es|
    && ReadLabel(At(g, r, LabelColumn), style) == Some(s.content)
    && CellMatches(code, At(g, r, k + 1), style)
    && s == RecordAt(es, k, s.content, normalise(s.content))
  }

  /** Each record among the first n columns comes from a matching column. */
  lemma {:induction false} RowMatchesSound(g: Grid, r: nat, code: string, es: seq<DateEntry>,
                                           content: string, display: string, style: ScanStyle, n: nat, x: Shift)
    requires r < |g| && n <= |es|
    requires x in RowMatches(g, r, code, es, content, display, style, n)
    ensures exists k :: 0 <= k < n && CellMatches(code, At(g, r, k + 1), style)
                        && x == RecordAt(es, k, content, display)
  {
    if x !in RowMatches(g, r, code, es, content, display, style, n - 1) {
      assert CellMatches(code, At(g, r, n), style) && x == RecordAt(es, n - 1, content, display);
    } else {
      RowMatchesSound(g, r, code, es, content, display, style, n - 1, x);
    }
  }

  lemma RowSound(g: Grid, r: nat, code: string, es: seq<DateEntry>, style: ScanStyle,
                 normalise: string -> string, s: Shift)
    requires FirstDataRow <= r < |g| && s in ScanRow(g, r, code, es, style, normalise)
    ensures exists k :: FoundAt(g, code, es, style, normalise, s, r, k)
  {
    var content := ReadLabel(At(g, r, LabelColumn), style).value;
    var display := normalise(content);
    RowMatchesSound(g, r, code, es, content, display, style, |es|, s);
    var k :| 0 <= k < |es| && CellMatches(code, At(g, r, k + 1), style)
             && s == RecordAt(es, k, content, display);
    assert FoundAt(g, code, es, style, normalise, s, r, k);
  }

  lemma ScanGridSound(g: Grid, code: string, es: seq<DateEntry>, style: ScanStyle,
                      normalise: string -> string, s: Shift)
    requires s in ScanGrid(g, code, es, style, normalise)
    ensures exists r, k :: FoundAt(g, code, es, style, normalise, s, r, k)
  {
    var rows := RowResults(g, code, es, style, normalise);
    FlattenSource(rows, s);
    var i :| 0 <= i < |rows| && s in rows[i];
    RowSound(g, FirstDataRow + i, code, es, style, normalise, s);
  }

  /** A matching column among the first n yields its record. */
  lemma {:induction false} RowMatchesComplete(g: Grid, r: nat, code: string, es: seq<DateEntry>,
                                              content: string, display: string, style: ScanStyle, n: nat, k: nat)
    requires r < |g| && k < n <= |es|
    requires CellMatches(code, At(g, r, k + 1), style)
    ensures RecordAt(es, k, content, display) in RowMatches(g, r, code, es, content, display, style, n)
  {
    if k < n - 1 {
      RowMatchesComplete(g, r, code, es, content, display, style, n - 1, k);
    }
  }

  /** A matching date column of a row with a usable label yields its record. */
  lemma RowComplete(g: Grid, r: nat, code: string, es: seq<DateEntry>, style: ScanStyle,
                    normalise: string -> string, k: nat, content: string)
    requires r < |g| && k < |es|
    requires ReadLabel(At(g, r, LabelColumn), style) == Some(content)
    requires CellMatches(code, At(g, r, k + 1), style)
    ensures RecordAt(es, k, content, normalise(content)) in ScanRow(g, r, code, es, style, normalise)
  {
    var display := normalise(content);
    assert ScanRow(g, r, code, es, style, normalise) == RowMatches(g, r, code, es, content, display, style, |es|);
    RowMatchesComplete(g, r, code, es, content, display, style, |es|, k);
  }

  /** The records of any data row are among the records of the scan. */
  lemma RowIncluded(g: Grid, code: string, es: seq<DateEntry>, style: ScanStyle,
                    normalise: string -> string, r: nat, x: Shift)
    requires FirstDataRow <= r < |g| && x in ScanRow(g, r, code, es, style, normalise)
    ensures x in ScanGrid(g, code, es, style, normalise)
  {
    var rows := RowResults(g, code, es, style, normalise);
    assert rows[r - FirstDataRow] == ScanRow(g, r, code, es, style, normalise);
    FlattenMember(rows, r - FirstDataRow, x);
  }

  lemma ScanGridComplete(g: Grid, code: string, es: seq<DateEntry>, style: ScanStyle,
                         normalise: string -> string, r: nat, k: nat, content: string)
    requires FirstDataRow <= r < |g| && k < |es|
    requires ReadLabel(At(g, r, LabelColumn), style) == Some(content)
    requires CellMatches(code, At(g, r, k + 1), style)
    ensures RecordAt(es, k, content, normalise(content)) in ScanGrid(g, code, es, style, normalise)
  {
    RowComplete(g, r, code, es, style, normalise, k, content);
    RowIncluded(g, code, es, style, normalise, r, RecordAt(es, k, content, normalise(content)));
  }

  /** Every record's raw label is one the scan does not skip: stripped,
      never a "nan" word, never containing the footnote marker, and
      non-empty unless the style keeps empty labels. */
  lemma ScannedContentIsClean(g: Grid, code: string, es: seq<DateEntry>, style: ScanStyle,
                              normalise: string -> string, s: Shift)
    requires s in ScanGrid(g, code, es, style, normalise)
    ensures Strip(s.content) == s.content
    ensures !IsNanWord(s.content) && !Contains(s.content, Footnote)
    ensures !style.keepsEmptyLabels ==> s.content != ""
  {
    ScanGridSound(g, code, es, style, normalise, s);
    var r, k :| FoundAt(g, code, es, style, normalise, s, r, k);
    StripIdempotent(Str(At(g, r, LabelColumn)));
  }

  /** One row as the converters scan it: its label checked once, then the
      date columns in order, appending each hit. */
  method ScanRowLoop(g: Grid, r: nat, code: string, es: seq<DateEntry>, style: ScanStyle,
                     normalise: string -> string) returns (row: seq<Shift>)
    requires r < |g|
    ensures row == ScanRow(g, r, code, es, style, normalise)
  {
    row := [];
    match ReadLabel(At(g, r, LabelColumn), style) {
      case None =>
      case Some(content) =>
        var display := normalise(content);
        var c := 1;
        while c <= |es|
          invariant 1 <= c <= |es| + 1
          invariant row == RowMatches(g, r, code, es, content, display, style, c - 1)
        {
          if CellMatches(code, At(g, r, c), style) {
            row := row + [RecordAt(es, c - 1, content, display)];
          }
          c := c + 1;
        }
    }
  }

  /** The scan as the converters run it: the data rows in order. */
  method ScanLoop(g: Grid, code: string, es: seq<DateEntry>, style: ScanStyle,
                  normalise: string -> string) returns (out: seq<Shift>)
    ensures out == ScanGrid(g, code, es, style, normalise)
  {
    out := [];
    if |g| <= FirstDataRow {
      return;
    }
    ghost var rows := RowResults(g, code, es, style, normalise);
    var r := FirstDataRow;
    while r < |g|
      invariant FirstDataRow <= r <= |g|
      invariant out == Flatten(rows[..r - FirstDataRow])
    {
      var row := ScanRowLoop(g, r, code, es, style, normalise);
      FlattenPrefixStep(rows, r - FirstDataRow);
      out := out + row;
      r := r + 1;
    }
    assert rows[..r - FirstDataRow] == rows;
  }

  /** Reading a missing cell as "nan" (as the three variants do), a row
      with a usable label gets a record for an empty date cell when the
      code is "a". */
  lemma EmptyCellFoundByVariants(g: Grid, es: seq<DateEntry>, style: ScanStyle, normalise: string -> string,
                                 r: nat, k: nat, content: string)
    requires style.blankCellIsNan
    requires FirstDataRow <= r < |g| && k < |es| && At(g, r, k + 1) == Blank
    requires ReadLabel(At(g, r, LabelColumn), style) == Some(content)
    ensures RecordAt(es, k, content, normalise(content)) in ScanGrid(g, "a", es, style, normalise)
  {
    BlankCellMatchesNan(style);
    ScanGridComplete(g, "a", es, style, normalise, r, k, content);
  }

  /** Record s was made from the date cell at row r, position k + 1, and
      that cell holds a value containing the code. */
  ghost predicate FilledCellHit(g: Grid, code: string, es: seq<DateEntry>, normalise: string -> string,
                                s: Shift, r: int, k: int)
  {
    && FirstDataRow <= r < |g| && 0 <= k < |es|
    && At(g, r, k + 1).Value? && Contains(At(g, r, k + 1).text, code)
    && s == RecordAt(es, k, s.content, normalise(s.content))
  }

  /** Reading a missing cell as "" (the canonical converter), every record
      comes from a cell that holds a value containing the code. */
  lemma CanonicalRecordsFromFilledCells(g: Grid, code: string, es: seq<DateEntry>, normalise: string -> string, s: Shift)
    requires code != ""
    requires s in ScanGrid(g, code, es, CanonicalStyle, normalise)
    ensures exists r, k :: FilledCellHit(g, code, es, normalise, s, r, k)
  {
    ScanGridSound(g, code, es, CanonicalStyle, normalise, s);
    var r, k :| FoundAt(g, code, es, CanonicalStyle, normalise, s, r, k);
    if At(g, r, k + 1).Blank? {
      BlankCellNeverMatches(code);
    }
    assert FilledCellHit(g, code, es, normalise, s, r, k);
  }

  /* ---------------------------------------------------------------------
     Day cells read by position, not by column
     --------------------------------------------------------------------- */

  /** As written, the k-th kept day entry is paired with the cell at
      position k + 1, whatever column that day came from. With the day row
      1, 2, (blank), 3 in columns B..E, a code in the spacer column D is
      reported on day 3, and column E is never read. */
  lemma SpacerColumnMisdated(ym: YearMonth, days: seq<Option<nat>>, weekdays: seq<Cell>,
                             g: Grid, r: nat, code: string, content: string, display: string, style: ScanStyle)
    requires days == [Some(1), Some(2), None, Some(3)] && |weekdays| == 4 && r < |g|
    requires CellMatches(code, At(g, r, 3), style)
    ensures days[3 - 1].None?
    ensures |DateEntries(ym, days, weekdays, 0)| == 3
    ensures DateEntries(ym, days, weekdays, 0)[2].date == DateString(ym.year, ym.month, 3)
    ensures RecordAt(DateEntries(ym, days, weekdays, 0), 2, content, display)
      in RowMatches(g, r, code, DateEntries(ym, days, weekdays, 0), content, display, style, 3)
  {
    var es := DateEntries(ym, days, weekdays, 0);
    var third := EntryAt(ym, days, weekdays, 3);
    assert DateEntries(ym, days, weekdays, 4) == [];
    assert DateEntries(ym, days, weekdays, 2) == DateEntries(ym, days, weekdays, 3) == [third];
    assert DateEntries(ym, days, weekdays, 1) == [EntryAt(ym, days, weekdays, 1), third];
    assert es == [EntryAt(ym, days, weekdays, 0), EntryAt(ym, days, weekdays, 1), third];
    RowMatchesComplete(g, r, code, es, content, display, style, 3, 2);
  }

  /** The spreadsheet column (A = 0) of each kept day entry: the day row is
      read from column B on, so day position p is column p + 1. */
  function DayColumns(days: seq<Option<nat>>): (cols: seq<nat>)
    ensures |cols| == |KeptPositions(days, 0)|
    ensures forall k :: 0 <= k < |cols| ==> cols[k] == KeptPositions(days, 0)[k] + 1
  {
    var ps := KeptPositions(days, 0);
    seq(|ps|, k requires 0 <= k < |ps| => ps[k] + 1)
  }

  /** The intended reading: the k-th entry's cell is taken from the column
      its day came from. */
  function OwnColumnMatches(g: Grid, r: nat, code: string, es: seq<DateEntry>, cols: seq<nat>,
                            content: string, display: string, style: ScanStyle, n: nat): (out: seq<Shift>)
    requires r < |g| && n <= |es| == |cols|
    ensures |out| <= n
  {
    if n == 0 then []
    else
      OwnColumnMatches(g, r, code, es, cols, content, display, style, n - 1)
      + (if CellMatches(code, At(g, r, cols[n - 1]), style) then [RecordAt(es, n - 1, content, display)] else [])
  }

  lemma {:induction false} OwnColumnSound(g: Grid, r: nat, code: string, es: seq<DateEntry>, cols: seq<nat>,
                                          content: string, display: string, style: ScanStyle, n: nat, x: Shift)
    returns (k: nat)
    requires r < |g| && n <= |es| == |cols|
    requires x in OwnColumnMatches(g, r, code, es, cols, content, display, style, n)
    ensures k < n && CellMatches(code, At(g, r, cols[k]), style) && x == RecordAt(es, k, content, display)
  {
    if x !in OwnColumnMatches(g, r, code, es, cols, content, display, style, n - 1) {
      k := n - 1;
    } else {
      k := OwnColumnSound(g, r, code, es, cols, content, display, style, n - 1, x);
    }
  }

  lemma {:induction false} OwnColumnComplete(g: Grid, r: nat, code: string, es: seq<DateEntry>, cols: seq<nat>,
                                             content: string, display: string, style: ScanStyle, n: nat, k: nat)
    requires r < |g| && k < n <= |es| == |cols|
    requires CellMatches(code, At(g, r, cols[k]), style)
    ensures RecordAt(es, k, content, display) in OwnColumnMatches(g, r, code, es, cols, content, display, style, n)
  {
    if k < n - 1 {
      OwnColumnComplete(g, r, code, es, cols, content, display, style, n - 1, k);
    }
  }

  /** The intended row scan: each kept day's cell is read from the column
      the day came from. */
  function OwnColumnRow(ym: YearMonth, days: seq<Option<nat>>, weekdays: seq<Cell>, g: Grid, r: nat,
                        code: string, content: string, display: string, style: ScanStyle): seq<Shift>
    requires |days| == |weekdays| && r < |g|
  {
    DateEntriesAreKeptCells(ym, days, weekdays, 0);
    OwnColumnMatches(g, r, code, DateEntries(ym, days, weekdays, 0), DayColumns(days),
                     content, display, style, |DayColumns(days)|)
  }

  /** A record dated with the day and weekday written above the cell at
      column c, which holds the code. */
  ghost predicate DatedByOwnColumn(ym: YearMonth, days: seq<Option<nat>>, weekdays: seq<Cell>,
                                   g: Grid, r: nat, code: string, style: ScanStyle, x: Shift, c: int)
    requires |days| == |weekdays| && r < |g|
  {
    && 1 <= c <= |days| && days[c - 1].Some?
    && CellMatches(code, At(g, r, c), style)
    && x.date == DateString(ym.year, ym.month, days[c - 1].value)
    && x.weekday == weekdays[c - 1]
  }

  /** Read by its own column, every record is dated by the day written
      above the cell that holds the code, whatever blank or spacer columns
      the day row has. */
  lemma OwnColumnDated(ym: YearMonth, days: seq<Option<nat>>, weekdays: seq<Cell>, g: Grid, r: nat,
                       code: string, content: string, display: string, style: ScanStyle, x: Shift)
    requires |days| == |weekdays| && r < |g|
    requires x in OwnColumnRow(ym, days, weekdays, g, r, code, content, display, style)
    ensures exists c :: DatedByOwnColumn(ym, days, weekdays, g, r, code, style, x, c)
  {
    var es := DateEntries(ym, days, weekdays, 0);
    var ps := KeptPositions(days, 0);
    var cols := DayColumns(days);
    DateEntriesAreKeptCells(ym, days, weekdays, 0);
    var k := OwnColumnSound(g, r, code, es, cols, content, display, style, |cols|, x);
    var p := ps[k];
    assert cols[k] == p + 1 && days[p].Some?;
    assert es[k] == EntryAt(ym, days, weekdays, p);
    assert x.date == DateString(ym.year, ym.month, days[p].value) && x.weekday == weekdays[p];
    assert DatedByOwnColumn(ym, days, weekdays, g, r, code, style, x, p + 1);
  }

  /** Read by its own column, every cell under a numeric day that holds
      the code gives a record with that day's date and weekday. */
  lemma OwnColumnFindsEveryDay(ym: YearMonth, days: seq<Option<nat>>, weekdays: seq<Cell>, g: Grid, r: nat,
                               code: string, content: string, display: string, style: ScanStyle, c: nat)
    requires |days| == |weekdays| && r < |g|
    requires 1 <= c <= |days| && days[c - 1].Some? && CellMatches(code, At(g, r, c), style)
    ensures exists x :: x in OwnColumnRow(ym, days, weekdays, g, r, code, content, display, style)
                        && DatedByOwnColumn(ym, days, weekdays, g, r, code, style, x, c)
  {
    var es := DateEntries(ym, days, weekdays, 0);
    var ps := KeptPositions(days, 0);
    var cols := DayColumns(days);
    DateEntriesAreKeptCells(ym, days, weekdays, 0);
    KeptPositionsCover(days, 0, c - 1);
    var k :| 0 <= k < |ps| && ps[k] == c - 1;
    OwnColumnComplete(g, r, code, es, cols, content, display, style, |cols|, k);
    assert es[k] == EntryAt(ym, days, weekdays, ps[k]);
    assert DatedByOwnColumn(ym, days, weekdays, g, r, code, style, RecordAt(es, k, content, display), c);
  }
}
