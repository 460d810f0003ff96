/**
 The four converters end to end: the code check, the title, the date
 mapping, the scan, the time rules and the calendar projection, each
 converter with its own settings of the shared engine.
 */
module Pipeline {
  import opened Outcomes
  import opened Text
  import opened Sheet
  import opened Header
  import opened Normalize
  import opened Records
  import opened Scan
  import opened Rules
  import opened Chains
  import opened Calendar

  /** The canonical web converter, the converter with an editable table,
      the one with the fixed table and holiday colour, and the desktop one. */
  datatype Variant = Canonical | HolidayEditable | HolidayColor | DesktopWeekday

  /** What the user supplies: the sheet as read, the fills of the day-row
      cells from column B on, the code typed in, and the abbreviation table
      as edited (ignored by the converters whose table is fixed). */
  datatype Request = Request(grid: Grid, fills: seq<Fill>, code: string, table: seq<AbbrevEntry>)

  /* ---------------------------------------------------------------------
     Per-converter settings
     --------------------------------------------------------------------- */

  /** Only the desktop converter strips the code it is given. */
  function CodeOf(v: Variant, code: string): string {
    if v == DesktopWeekday then Strip(code) else code
  }

  function StyleOf(v: Variant): ScanStyle {
    match v
    case Canonical => CanonicalStyle
    case HolidayEditable => SheetVariantStyle
    case HolidayColor => SheetVariantStyle
    case DesktopWeekday => DesktopStyle
  }

  function TableOf(v: Variant, given: seq<AbbrevEntry>): seq<AbbrevEntry> {
    if v == Canonical || v == HolidayEditable then given else FixedTable
  }

  function ChainOf(v: Variant): seq<Rule> {
    match v
    case Canonical => CanonicalChain
    case HolidayEditable => SheetVariantChain
    case HolidayColor => SheetVariantChain
    case DesktopWeekday => DesktopChain
  }

  function EveningDisplay(v: Variant): string {
    if v == HolidayEditable then "非常班" else OnCall
  }

  /** The canonical converter's gray is FFD9D9D9, the two older sheet
      converters' FFD8D8D8; the desktop converter reads no fills. */
  function PolicyOf(v: Variant, fills: seq<Fill>, es: seq<DateEntry>): Policy {
    match v
    case Canonical => ByFill(BuildHolidayMap(fills, CanonicalGray), ColumnIndex(es))
    case HolidayEditable => ByFill(BuildHolidayMap(fills, OlderGray), ColumnIndex(es))
    case HolidayColor => ByFill(BuildHolidayMap(fills, OlderGray), ColumnIndex(es))
    case DesktopWeekday => ByWeekday
  }

  function EngineOf(v: Variant, fills: seq<Fill>, es: seq<DateEntry>): Engine {
    Engine(ChainOf(v), PolicyOf(v, fills, es), EveningDisplay(v), v == DesktopWeekday)
  }

  /* ---------------------------------------------------------------------
     The steps
     --------------------------------------------------------------------- */

  /** The frame has a first cell to read the title from. */
  predicate Framed(g: Grid) {
    |g| > 0 && Width(g) > 0
  }

  function TitleText(g: Grid): string
    requires |g| > 0
  {
    Str(At(g, TitleRow, LabelColumn))
  }

  /** The date mapping from the day row and the weekday row. */
  function Entries(g: Grid, ym: YearMonth): seq<DateEntry>
    requires Framed(g) && |g| > WeekdayRow
  {
    DateEntries(ym, DayNumbers(RowFrom1(g, DayRow)), RowFrom1(g, WeekdayRow), 0)
  }

  /** The code, the title and the three header rows, checked in the order
      the converters touch them. */
  function Prepare(v: Variant, req: Request): (r: Result<seq<DateEntry>>)
    ensures r == Err(MissingCode) <==> CodeOf(v, req.code) == ""
    ensures r == Err(TitleFormat) <==>
      && CodeOf(v, req.code) != "" && Framed(req.grid)
      && forall i :: 0 <= i <= |TitleText(req.grid)| ==> TitleAt(TitleText(req.grid), i).None?
    ensures r.Err? ==> r.error != NoMatch
    ensures r.Ok? ==> CodeOf(v, req.code) != "" && Framed(req.grid) && |req.grid| > WeekdayRow
  {
    var g := req.grid;
    if CodeOf(v, req.code) == "" then Err(MissingCode)
    else if !Framed(g) then Err(SheetShape)
    else
      match ParseTitle(TitleText(g))
      case Err(e) => Err(e)
      case Ok(ym) => if |g| <= WeekdayRow then Err(SheetShape) else Ok(Entries(g, ym))
  }

  /** The scanned records before the time rules. */
  function Scanned(v: Variant, req: Request, es: seq<DateEntry>): seq<Shift> {
    ScanGrid(req.grid, CodeOf(v, req.code), es, StyleOf(v), c => DisplayLabel(c, TableOf(v, req.table)))
  }

  /** A converter run: the error of the first failing step, no rows when
      the code matched nothing, else the calendar rows of the timed records. */
  function Convert(v: Variant, req: Request): (r: Result<seq<CalendarRow>>)
    ensures Prepare(v, req).Err? ==> r == Err(Prepare(v, req).error)
    ensures Prepare(v, req).Ok? ==> r.Ok? || r == Err(NoMatch)
  {
    match Prepare(v, req)
    case Err(e) => Err(e)
    case Ok(es) =>
      var rs := Scanned(v, req, es);
      if |rs| == 0 then Err(NoMatch)
      else Ok(Project(Run(EngineOf(v, req.fills, es), rs)))
  }

  /* ---------------------------------------------------------------------
     End-to-end properties
     --------------------------------------------------------------------- */

  /** Row r has a label the converter accepts, read as `content`, and the
      cell at position k + 1 of that row holds the (possibly stripped)
      code. */
  ghost predicate HitAt(v: Variant, req: Request, es: seq<DateEntry>, r: int, k: int, content: string) {
    && FirstDataRow <= r < |req.grid| && 0 <= k < |es|
    && ReadLabel(At(req.grid, r, LabelColumn), StyleOf(v)) == Some(content)
    && CellMatches(CodeOf(v, req.code), At(req.grid, r, k + 1), StyleOf(v))
  }

  /** Records of the desktop scan never have a blank label, so its row
      filter removes nothing. */
  lemma DesktopFilterKeepsAll(g: Grid, code: string, es: seq<DateEntry>, normalise: string -> string)
    ensures var rs := ScanGrid(g, code, es, DesktopStyle, normalise);
      DropBlankLabels(rs) == rs
  {
    var rs := ScanGrid(g, code, es, DesktopStyle, normalise);
    forall i | 0 <= i < |rs|
      ensures !BlankLabel(rs[i].content)
    {
      ScannedContentIsClean(g, code, es, DesktopStyle, normalise, rs[i]);
      assert Contains(Footnote, Footnote) by {
        assert StartsWith(Footnote, Footnote);
      }
    }
    DropBlankLabelsKeepsClean(rs);
  }

  /** Every converter's engine works on every scanned record. */
  lemma KeptIsScanned(v: Variant, req: Request, es: seq<DateEntry>)
    ensures Kept(EngineOf(v, req.fills, es), Scanned(v, req, es)) == Scanned(v, req, es)
  {
    if v == DesktopWeekday {
      DesktopFilterKeepsAll(req.grid, CodeOf(v, req.code), es, c => DisplayLabel(c, TableOf(v, req.table)));
    }
  }

  /** The code matches nothing exactly when no row with an accepted label
      holds the code in its cell at position k + 1 for a kept day entry k. */
  lemma NoMatchIffNoHit(v: Variant, req: Request)
    requires Prepare(v, req).Ok?
    ensures Convert(v, req) == Err(NoMatch) <==>
      forall r, k, content :: !HitAt(v, req, Prepare(v, req).value, r, k, content)
  {
    var es := Prepare(v, req).value;
    var normalise := c => DisplayLabel(c, TableOf(v, req.table));
    var rs := Scanned(v, req, es);
    if |rs| > 0 {
      ScanGridSound(req.grid, CodeOf(v, req.code), es, StyleOf(v), normalise, rs[0]);
      var r, k :| FoundAt(req.grid, CodeOf(v, req.code), es, StyleOf(v), normalise, rs[0], r, k);
      assert HitAt(v, req, es, r, k, rs[0].content);
    } else {
      forall r, k, content | HitAt(v, req, es, r, k, content)
        ensures false
      {
        ScanGridComplete(req.grid, CodeOf(v, req.code), es, StyleOf(v), normalise, r, k, content);
      }
    }
  }

  /** The calendar row of a scanned hit: its display label, on the date of
      the k-th kept day entry. */
  ghost predicate HitRow(v: Variant, req: Request, es: seq<DateEntry>, row: CalendarRow) {
    exists r, k, content :: HitAt(v, req, es, r, k, content)
      && row.subject == DisplayLabel(content, TableOf(v, req.table))
      && row.startDate == es[k].date && row.endDate == es[k].date
  }

  /** The on-call evening row brought by a hit on an inpatient review. */
  ghost predicate EveningRow(v: Variant, req: Request, es: seq<DateEntry>, row: CalendarRow) {
    exists r, k, content :: HitAt(v, req, es, r, k, content)
      && Contains(content, InpatientReview)
      && row.subject == EveningDisplay(v)
      && row.startDate == es[k].date && row.endDate == es[k].date
      && row.startTime == OnCallEvening.start && row.endTime == OnCallEvening.end
  }

  /** A scanned record and the hit it was made from. */
  lemma ScannedFromHit(v: Variant, req: Request, es: seq<DateEntry>, s: Shift) returns (r: nat, k: nat)
    requires s in Scanned(v, req, es)
    ensures HitAt(v, req, es, r, k, s.content)
    ensures s.display == DisplayLabel(s.content, TableOf(v, req.table)) && s.date == es[k].date
  {
    var normalise := c => DisplayLabel(c, TableOf(v, req.table));
    ScanGridSound(req.grid, CodeOf(v, req.code), es, StyleOf(v), normalise, s);
    r, k :| FoundAt(req.grid, CodeOf(v, req.code), es, StyleOf(v), normalise, s, r, k);
  }

  /** Each calendar row is either a scanned hit, with the hit's label as
      normalised for display and the date of the k-th kept day entry, read
      from the cell at position k + 1, or an on-call evening brought by a
      hit on an inpatient review on the same date. */
  lemma ConvertSound(v: Variant, req: Request, i: nat)
    requires Convert(v, req).Ok? && i < |Convert(v, req).value|
    ensures HitRow(v, req, Prepare(v, req).value, Convert(v, req).value[i])
         || EveningRow(v, req, Prepare(v, req).value, Convert(v, req).value[i])
  {
    var es := Prepare(v, req).value;
    var rs := Scanned(v, req, es);
    var e := EngineOf(v, req.fills, es);
    KeptIsScanned(v, req, es);
    var out := Run(e, rs);
    assert out == RetimeAll(e, rs) + Extras(e, rs);
    var row := Convert(v, req).value[i];
    assert row == ToRow(out[i]);
    if i < |rs| {
      assert out[i] == Retimed(e, rs[i]);
      var r, k := ScannedFromHit(v, req, es, rs[i]);
      assert HitRow(v, req, es, row);
    } else {
      var n := i - |rs|;
      assert out[i] == Extras(e, rs)[n];
      ExtrasSource(e, rs, n);
      var j :| 0 <= j < |rs| && Contains(rs[j].content, InpatientReview)
        && KindOf(e.policy, rs[j]) == Workday
        && rs[j].date == Extras(e, rs)[n].date && rs[j].weekday == Extras(e, rs)[n].weekday;
      var r, k := ScannedFromHit(v, req, es, rs[j]);
      assert EveningRow(v, req, es, row);
    }
  }

  /** Every hit, the cell at position k + 1 of an accepted row, gives a
      calendar row with its display label and the date of the k-th kept day
      entry. */
  lemma ConvertComplete(v: Variant, req: Request, r: nat, k: nat, content: string)
    requires Prepare(v, req).Ok? && HitAt(v, req, Prepare(v, req).value, r, k, content)
    ensures Convert(v, req).Ok?
    ensures exists i ::
      && 0 <= i < |Convert(v, req).value|
      && Convert(v, req).value[i].subject == DisplayLabel(content, TableOf(v, req.table))
      && Convert(v, req).value[i].startDate == Prepare(v, req).value[k].date
      && Convert(v, req).value[i].endDate == Prepare(v, req).value[k].date
  {
    var es := Prepare(v, req).value;
    var normalise := c => DisplayLabel(c, TableOf(v, req.table));
    var rs := Scanned(v, req, es);
    ScanGridComplete(req.grid, CodeOf(v, req.code), es, StyleOf(v), normalise, r, k, content);
    var s := RecordAt(es, k, content, normalise(content));
    var j :| 0 <= j < |rs| && rs[j] == s;
    ConvertKeepsScanned(v, req, j);
  }

  /** Each scanned record keeps its place in the calendar, with its display
      label as subject and its date as start and end date. */
  lemma ConvertKeepsScanned(v: Variant, req: Request, j: nat)
    requires Prepare(v, req).Ok? && j < |Scanned(v, req, Prepare(v, req).value)|
    ensures Convert(v, req).Ok? && j < |Convert(v, req).value|
    ensures Convert(v, req).value[j].subject == Scanned(v, req, Prepare(v, req).value)[j].display
    ensures Convert(v, req).value[j].startDate == Scanned(v, req, Prepare(v, req).value)[j].date
    ensures Convert(v, req).value[j].endDate == Scanned(v, req, Prepare(v, req).value)[j].date
  {
    var es := Prepare(v, req).value;
    var rs := Scanned(v, req, es);
    KeptIsScanned(v, req, es);
    var out := Run(EngineOf(v, req.fills, es), rs);
    assert out[j] == rs[j].(times := out[j].times);
  }

  /** The calendar has one row per scanned record plus at most one on-call
      evening per record. */
  lemma ConvertRowCount(v: Variant, req: Request)
    requires Convert(v, req).Ok?
    ensures var n := |Scanned(v, req, Prepare(v, req).value)|;
      0 < n <= |Convert(v, req).value| <= 2 * n
  {
    KeptIsScanned(v, req, Prepare(v, req).value);
  }

  /** Feeding a converter's timed records back into its engine keeps them
      as they are and appends their on-call evenings once more. */
  lemma EngineRunTwice(v: Variant, fills: seq<Fill>, es: seq<DateEntry>, rs: seq<Shift>)
    ensures Run(EngineOf(v, fills, es), Run(EngineOf(v, fills, es), rs))
      == Run(EngineOf(v, fills, es), rs) + Extras(EngineOf(v, fills, es), Kept(EngineOf(v, fills, es), rs))
  {
    var e := EngineOf(v, fills, es);
    ChainOfQuiet(v);
    RunTwice(e, rs);
  }

  /** No converter's chain sets times for an on-call evening. */
  lemma ChainOfQuiet(v: Variant)
    ensures QuietOnCall(ChainOf(v))
  {
    ChainsQuietOnCall();
  }

  /** A code of spaces is refused by the desktop converter alone. */
  lemma SpacedCodeRefusedOnDesktop(req: Request)
    requires req.code == " "
    ensures Convert(DesktopWeekday, req) == Err(MissingCode)
    ensures Convert(Canonical, req) != Err(MissingCode)
  {
    assert TrimStart(" ") == "";
  }
}
