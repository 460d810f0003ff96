/**
 The roster spreadsheet as the converter sees it: a grid of cells read
 without a header (pandas), the fill colours of the day-number row
 (openpyxl), the fixed layout of title, day, weekday and data rows, and the
 holiday map derived from the fill colours.
 */
module Sheet {
  import opened Outcomes

  /** One grid cell: missing (NaN) or a value whose `str()` is `text`. */
  datatype Cell = Blank | Value(text: string)

  /** `str(cell)`: a missing cell prints as "nan". */
  function Str(c: Cell): string {
    match c
    case Blank => "nan"
    case Value(t) => t
  }

  /** The grid rows as read; pandas pads short rows with missing cells. */
  type Grid = seq<seq<Cell>>

  /** Number of columns of the frame: the longest row. */
  function Width(g: Grid): (w: nat)
    ensures forall r :: 0 <= r < |g| ==> |g[r]| <= w
    ensures |g| > 0 ==> exists r :: 0 <= r < |g| && |g[r]| == w
    ensures |g| == 0 ==> w == 0
  {
    if |g| == 0 then 0
    else
      var w' := Width(g[..|g| - 1]);
      assert forall r :: 0 <= r < |g| - 1 ==> g[..|g| - 1][r] == g[r];
      if |g[|g| - 1]| > w' then |g[|g| - 1]| else w'
  }

  /** `df.iat[r, c]`, with the padding of short rows made explicit. */
  function At(g: Grid, r: nat, c: nat): Cell
    requires r < |g|
  {
    if c < |g[r]| then g[r][c] else Blank
  }

  /** `df.iloc[r, 1:]`: row r from the second column to the frame's width. */
  function RowFrom1(g: Grid, r: nat): (cells: seq<Cell>)
    requires r < |g|
    ensures |g| > 0 && Width(g) > 0 ==> |cells| == Width(g) - 1
    ensures forall c :: 0 <= c < |cells| ==> cells[c] == At(g, r, c + 1)
  {
    var w := Width(g);
    if w == 0 then [] else seq(w - 1, c requires 0 <= c < w - 1 => At(g, r, c + 1))
  }

  /* ---------------------------------------------------------------------
     Fixed layout (zero-based frame positions unless stated otherwise)
     --------------------------------------------------------------------- */

  const TitleRow: nat := 0
  const DayRow: nat := 1
  const WeekdayRow: nat := 2
  const FirstDataRow: nat := 3
  const LabelColumn: nat := 0
  const FirstDateColumn: nat := 1
  /** Spreadsheet (one-based) number of the first date column, B. */
  const FirstDateSheetColumn: nat := 2

  /* ---------------------------------------------------------------------
     Holiday map from the day-row fill colour
     --------------------------------------------------------------------- */

  /** The foreground colour of a cell fill: its kind ("rgb", "theme",
      "indexed", ...) and its ARGB text. */
  datatype Fill = Fill(colorType: string, rgb: string)

  /** Gray of the canonical converter. */
  const CanonicalGray := "FFD9D9D9"
  /** Gray of the two older fill-colour converters. */
  const OlderGray := "FFD8D8D8"

  predicate IsGray(f: Fill, gray: string) {
    f.colorType == "rgb" && f.rgb == gray
  }

  /** Spreadsheet columns 2 .. max_column, each with its row-2 fill;
      `fills[j]` is the fill of column j + 2, so max_column is |fills| + 1. */
  function BuildHolidayMap(fills: seq<Fill>, gray: string): (m: map<int, bool>)
    ensures forall c :: c in m <==> FirstDateSheetColumn <= c <= |fills| + 1
    ensures forall c :: c in m ==> (m[c] <==> IsGray(fills[c - 2], gray))
  {
    if |fills| == 0 then map[]
    else
      var m' := BuildHolidayMap(fills[..|fills| - 1], gray);
      m'[|fills| + 1 := IsGray(fills[|fills| - 1], gray)]
  }

  /** `holiday_map.get(col_idx, False)`, where col_idx may be None. */
  function HolidayFlag(m: map<int, bool>, col: Option<int>): bool {
    col.Some? && col.value in m && m[col.value]
  }

  /** Looking a date column up in the map: holiday exactly when its fill is
      the gray, and a workday for a missing or out-of-range column. */
  lemma HolidayFlagReadsFill(fills: seq<Fill>, gray: string, col: Option<int>)
    ensures HolidayFlag(BuildHolidayMap(fills, gray), col)
        <==> col.Some? && 2 <= col.value <= |fills| + 1 && IsGray(fills[col.value - 2], gray)
  {
    var m := BuildHolidayMap(fills, gray);
    if col.Some? && 2 <= col.value <= |fills| + 1 {
      assert col.value in m;
    }
  }

  /** The two grays are not interchangeable: a column filled with the
      canonical gray is a workday for the older converters. */
  lemma GraysDisagree(fills: seq<Fill>, c: int)
    requires 2 <= c <= |fills| + 1 && fills[c - 2] == Fill("rgb", CanonicalGray)
    ensures BuildHolidayMap(fills, CanonicalGray)[c]
    ensures !BuildHolidayMap(fills, OlderGray)[c]
  {
  }
}
