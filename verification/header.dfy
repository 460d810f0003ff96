/**
 The three header rows of the roster: the title "<era>年<month>月..." in the
 first cell, the day numbers of row 2 and the weekday symbols of row 3. From
 them come the Gregorian year and month, the kept date columns formatted as
 YYYY-MM-DD, and the (date, weekday) -> spreadsheet column index used to
 find each date's holiday flag.
 */
module Header {
  import opened Outcomes
  import opened Text
  import opened Sheet

  /* ---------------------------------------------------------------------
     Title: the regular expression (\d{2,3})年(\d{1,2})月, searched
     --------------------------------------------------------------------- */

  /** Era and month numerals captured by the title pattern. */
  datatype TitleMatch = TitleMatch(era: string, month: string)

  /** The declarative reading of the pattern: at i, s spells 2-3 digits,
      年, 1-2 digits, 月. */
  ghost predicate TitleSpelledAt(s: string, i: nat, m: TitleMatch) {
    && i <= |s|
    && IsDigitString(m.era) && 2 <= |m.era| <= 3
    && IsDigitString(m.month) && 1 <= |m.month| <= 2
    && StartsWith(s[i..], m.era + "年" + m.month + "月")
  }

  /** Digits of length n at position i, followed by the character `stop`. */
  predicate DigitsThen(s: string, i: nat, n: nat, stop: char) {
    i + n < |s| && DigitsOnly(s[i..i + n]) && s[i + n] == stop
  }

  /** Greedy `\d{lo,hi}` followed by `stop` at i: the digit count that
      works, trying the longest first. At most one count can work, since a
      longer run puts a digit where the shorter one needs `stop`. */
  function DigitRunThen(s: string, i: nat, lo: nat, hi: nat, stop: char): (n: Option<nat>)
    requires lo <= hi
    ensures n.Some? ==> lo <= n.value <= hi && DigitsThen(s, i, n.value, stop)
    ensures n.None? ==> forall k :: lo <= k <= hi ==> !DigitsThen(s, i, k, stop)
    decreases hi - lo
  {
    if DigitsThen(s, i, hi, stop) then Some(hi)
    else if lo == hi then None
    else DigitRunThen(s, i, lo, hi - 1, stop)
  }

  /** A digit run ending in a non-digit `stop` is the one the greedy
      matcher finds: longer counts run into `stop`, which is no digit. */
  lemma {:induction false} DigitRunUnique(s: string, i: nat, lo: nat, hi: nat, stop: char, n: nat)
    requires lo <= n <= hi && !IsDigit(stop) && DigitsThen(s, i, n, stop)
    ensures DigitRunThen(s, i, lo, hi, stop) == Some(n)
    decreases hi - lo
  {
    if hi > n {
      if i + hi < |s| {
        assert s[i..i + hi][n] == stop;
      }
      DigitRunUnique(s, i, lo, hi - 1, stop, n);
    }
  }

  /** The pattern matched at position i (the regex engine's backtracking
      can only ever find this one match there). */
  function TitleAt(s: string, i: nat): (r: Option<TitleMatch>)
    ensures r.Some? ==> IsDigitString(r.value.era) && IsDigitString(r.value.month)
  {
    match DigitRunThen(s, i, 2, 3, '年')
    case None => None
    case Some(e) =>
      match DigitRunThen(s, i + e + 1, 1, 2, '月')
      case None => None
      case Some(k) => Some(TitleMatch(s[i..i + e], s[i + e + 1..i + e + 1 + k]))
  }

  lemma DigitsThenSpelled(s: string, i: nat, n: nat, stop: char)
    requires DigitsThen(s, i, n, stop)
    ensures StartsWith(s[i..], s[i..i + n] + [stop])
  {
    assert s[i..][..n + 1] == s[i..i + n] + [stop];
  }

  /** What the matcher finds at i is spelled there. */
  lemma TitleAtSound(s: string, i: nat)
    requires i <= |s| && TitleAt(s, i).Some?
    ensures TitleSpelledAt(s, i, TitleAt(s, i).value)
  {
    var e := DigitRunThen(s, i, 2, 3, '年').value;
    var j := i + e + 1;
    var k := DigitRunThen(s, j, 1, 2, '月').value;
    var m := TitleAt(s, i).value;
    assert s[i..][..e + 1 + k + 1] == m.era + "年" + m.month + "月";
  }

  /** The two digit runs and their stops, found where the pattern wants
      them, make the match at i. */
  lemma TitleAtFromParts(s: string, i: nat, era: string, month: string)
    requires 2 <= |era| <= 3 && 1 <= |month| <= 2
    requires DigitsThen(s, i, |era|, '年') && s[i..i + |era|] == era
    requires DigitsThen(s, i + |era| + 1, |month|, '月')
    requires s[i + |era| + 1..i + |era| + 1 + |month|] == month
    ensures TitleAt(s, i) == Some(TitleMatch(era, month))
  {
    DigitRunUnique(s, i, 2, 3, '年', |era|);
    DigitRunUnique(s, i + |era| + 1, 1, 2, '月', |month|);
  }

  /** Whatever is spelled at i is exactly what the matcher finds there. */
  lemma TitleAtComplete(s: string, i: nat, m: TitleMatch)
    requires TitleSpelledAt(s, i, m)
    ensures TitleAt(s, i) == Some(m)
  {
    var w := m.era + "年" + m.month + "月";
    assert s[i..i + |w|] == w by {
      assert s[i..][..|w|] == w;
    }
    TitleWordParts(s[i..i + |w|], m.era, m.month);
    SliceOfSlice(s, i, i + |w|, 0, |m.era|);
    SliceOfSlice(s, i, i + |w|, |m.era| + 1, |m.era| + 1 + |m.month|);
    TitleAtFromParts(s, i, m.era, m.month);
  }

  /** Where the era, 年, the month and 月 sit in the spelled title. */
  lemma TitleWordParts(w: string, era: string, month: string)
    requires w == era + "年" + month + "月"
    ensures w[..|era|] == era && w[|era|] == '年'
    ensures w[|era| + 1..|era| + 1 + |month|] == month && w[|era| + 1 + |month|] == '月'
  {
    MiddleOfConcat("", era, "年" + month + "月");
    MiddleOfConcat(era + "年", month, "月");
  }

  lemma SliceOfSlice(s: string, lo: nat, hi: nat, a: nat, b: nat)
    requires lo <= hi <= |s| && a <= b <= hi - lo
    ensures s[lo..hi][a..b] == s[lo + a..lo + b]
  {
    assert forall k :: 0 <= k < b - a ==> s[lo..hi][a..b][k] == s[lo + a + k];
  }

  lemma MiddleOfConcat(a: string, b: string, c: string)
    ensures (a + b + c)[|a|..|a| + |b|] == b
  {
  }

  /** `re.search`: the leftmost position where the pattern matches. */
  function SearchTitle(s: string, from: nat): (r: Option<(nat, TitleMatch)>)
    requires from <= |s|
    ensures r.Some? ==> from <= r.value.0 <= |s| && TitleAt(s, r.value.0) == Some(r.value.1)
    ensures r.Some? ==> forall j :: from <= j < r.value.0 ==> TitleAt(s, j).None?
    ensures r.None? ==> forall j :: from <= j <= |s| ==> TitleAt(s, j).None?
    decreases |s| - from
  {
    match TitleAt(s, from)
    case Some(m) => Some((from, m))
    case None => if from == |s| then None else SearchTitle(s, from + 1)
  }

  /** The year and month a roster covers. */
  datatype YearMonth = YearMonth(year: nat, month: nat)

  /** The regional-calendar (Minguo) era year is the Gregorian year - 1911. */
  const EraOffset: nat := 1911

  /** Title parse: year = captured era + 1911, month as written, both read
      from the leftmost match; a title without the pattern stops the
      conversion. */
  function ParseTitle(title: string): (r: Result<YearMonth>)
    ensures r.Err? <==> forall i :: 0 <= i <= |title| ==> TitleAt(title, i).None?
    ensures r.Err? ==> r.error == TitleFormat
    ensures r.Ok? ==> exists i, m ::
      && 0 <= i <= |title| && TitleAt(title, i) == Some(m)
      && (forall j :: 0 <= j < i ==> TitleAt(title, j).None?)
      && IsDigitString(m.era) && IsDigitString(m.month)
      && r.value == YearMonth(DigitsValue(m.era) + EraOffset, DigitsValue(m.month))
  {
    match SearchTitle(title, 0)
    case None => Err(TitleFormat)
    case Some((i, m)) =>
      Ok(YearMonth(DigitsValue(m.era) + EraOffset, DigitsValue(m.month)))
  }

  /** How the roster's title is normally written: "113年4月班表". */
  function RosterTitle(era: nat, month: nat): string {
    Decimal(era) + "年" + Decimal(month) + "月班表"
  }

  /** Writing a title and parsing it back gives the Gregorian year and the
      month, for every era of 2-3 digits and every month of 1-2 digits. */
  lemma TitleRoundTrip(era: nat, month: nat)
    requires 10 <= era < 1000 && month < 100
    ensures ParseTitle(RosterTitle(era, month)) == Ok(YearMonth(era + EraOffset, month))
  {
    var e := Decimal(era);
    var mo := Decimal(month);
    var t := RosterTitle(era, month);
    assert TitleAt(t, 0) == Some(TitleMatch(e, mo)) by {
      TitleOfNumerals(e, mo, t);
    }
    ParseTitleAtStart(t, TitleMatch(e, mo));
  }

  lemma TitleOfNumerals(e: string, mo: string, t: string)
    requires IsDigitString(e) && 2 <= |e| <= 3 && IsDigitString(mo) && 1 <= |mo| <= 2
    requires t == e + "年" + mo + "月班表"
    ensures TitleAt(t, 0) == Some(TitleMatch(e, mo))
  {
    assert t == e + ("年" + mo + "月" + "班表");
    TitleSpelledAtStart(e, mo, "班表");
    TitleAtComplete(t, 0, TitleMatch(e, mo));
  }

  lemma ParseTitleAtStart(t: string, m: TitleMatch)
    requires TitleAt(t, 0) == Some(m)
    ensures ParseTitle(t) == Ok(YearMonth(DigitsValue(m.era) + EraOffset, DigitsValue(m.month)))
  {
    assert SearchTitle(t, 0) == Some((0, m));
  }

  lemma TitleSpelledAtStart(e: string, mo: string, rest: string)
    requires IsDigitString(e) && 2 <= |e| <= 3 && IsDigitString(mo) && 1 <= |mo| <= 2
    ensures TitleSpelledAt(e + ("年" + mo + "月" + rest), 0, TitleMatch(e, mo))
  {
    var t := e + ("年" + mo + "月" + rest);
    assert t[..|e + "年" + mo + "月"|] == e + "年" + mo + "月";
  }

  /* ---------------------------------------------------------------------
     Day and weekday rows: kept date columns
     --------------------------------------------------------------------- */

  /** One kept date column: the formatted date and the weekday cell as read
      (not stripped, not recomputed from the date). */
  datatype DateEntry = DateEntry(date: string, weekday: Cell)

  /** `f"{year}-{month:02d}-{day:02d}"`. */
  function DateString(year: nat, month: nat, day: nat): string {
    Decimal(year) + "-" + Pad2(month) + "-" + Pad2(day)
  }

  /** For a four-digit year, a date reads back as YYYY-MM-DD: four digits
      giving the year, two giving the month and two giving the day, with
      the dashes at positions 4 and 7. */
  lemma DateStringShape(year: nat, month: nat, day: nat)
    requires 1000 <= year < 10000 && month < 100 && day < 100
    ensures |DateString(year, month, day)| == 10
    ensures DateString(year, month, day)[4] == '-' && DateString(year, month, day)[7] == '-'
    ensures IsDigitString(DateString(year, month, day)[..4])
         && DigitsValue(DateString(year, month, day)[..4]) == year
    ensures IsDigitString(DateString(year, month, day)[5..7])
         && DigitsValue(DateString(year, month, day)[5..7]) == month
    ensures IsDigitString(DateString(year, month, day)[8..10])
         && DigitsValue(DateString(year, month, day)[8..10]) == day
  {
    var y := Decimal(year);
    var mm := Pad2(month);
    var dd := Pad2(day);
    assert |y| == 4 by {
      assert y == Decimal(year / 10) + [DigitChar(year % 10)];
    }
    var d := DateString(year, month, day);
    assert d == y + "-" + mm + "-" + dd;
    assert d[..4] == y;
    assert d[5..7] == mm;
    assert d[8..10] == dd;
  }

  /** A day cell is kept when `str(d).strip().isdigit()`; its day is
      `int(d)`, the value of those digits. */
  function DayNumber(c: Cell): Option<nat> {
    var t := Strip(Str(c));
    if IsDigitString(t) then Some(DigitsValue(t)) else None
  }

  /** The day row read cell by cell. */
  function DayNumbers(days: seq<Cell>): (ns: seq<Option<nat>>)
    ensures |ns| == |days| && forall i :: 0 <= i < |days| ==> ns[i] == DayNumber(days[i])
  {
    seq(|days|, i requires 0 <= i < |days| => DayNumber(days[i]))
  }

  /** The date mapping from position `from` on: one entry per day with a
      number, in column order, paired with the weekday cell of its column. */
  function DateEntries(ym: YearMonth, days: seq<Option<nat>>, weekdays: seq<Cell>, from: nat): (es: seq<DateEntry>)
    requires |days| == |weekdays| && from <= |days|
    ensures |es| <= |days| - from
    decreases |days| - from
  {
    if from == |days| then []
    else
      var rest := DateEntries(ym, days, weekdays, from + 1);
      if days[from].Some? then [EntryAt(ym, days, weekdays, from)] + rest else rest
  }

  /** The entry for the numeric day cell at position p. */
  function EntryAt(ym: YearMonth, days: seq<Option<nat>>, weekdays: seq<Cell>, p: nat): DateEntry
    requires p < |days| == |weekdays| && days[p].Some?
  {
    DateEntry(DateString(ym.year, ym.month, days[p].value), weekdays[p])
  }

  /** Positions from `from` on of the numeric day cells, in order. */
  function KeptPositions(days: seq<Option<nat>>, from: nat): (ps: seq<nat>)
    requires from <= |days|
    ensures forall k :: 0 <= k < |ps| ==> from <= ps[k] < |days| && days[ps[k]].Some?
    decreases |days| - from
  {
    if from == |days| then []
    else if days[from].Some? then [from] + KeptPositions(days, from + 1)
    else KeptPositions(days, from + 1)
  }

  /** The kept positions increase from left to right. */
  lemma {:induction false} KeptPositionsIncrease(days: seq<Option<nat>>, from: nat)
    requires from <= |days|
    ensures forall k, l :: 0 <= k < l < |KeptPositions(days, from)| ==>
      KeptPositions(days, from)[k] < KeptPositions(days, from)[l]
    decreases |days| - from
  {
    if from < |days| {
      KeptPositionsIncrease(days, from + 1);
      var ps := KeptPositions(days, from);
      var rest := KeptPositions(days, from + 1);
      if days[from].Some? {
        assert ps == [from] + rest;
        forall k, l | 0 <= k < l < |ps|
          ensures ps[k] < ps[l]
        {
          assert ps[l] == rest[l - 1];
          if k > 0 {
            assert ps[k] == rest[k - 1];
          }
        }
      } else {
        assert ps == rest;
      }
    }
  }

  /** Every numeric day cell is a kept position. */
  lemma {:induction false} KeptPositionsCover(days: seq<Option<nat>>, from: nat, i: nat)
    requires from <= i < |days| && days[i].Some?
    ensures i in KeptPositions(days, from)
    decreases |days| - from
  {
    if i > from {
      KeptPositionsCover(days, from + 1, i);
    }
  }

  /** Kept date columns are exactly the numeric day cells, in order: the
      k-th entry is the date of the k-th such cell, with its weekday. */
  lemma {:induction false} DateEntriesAreKeptCells(ym: YearMonth, days: seq<Option<nat>>, weekdays: seq<Cell>, from: nat)
    requires |days| == |weekdays| && from <= |days|
    ensures |DateEntries(ym, days, weekdays, from)| == |KeptPositions(days, from)|
    ensures forall k :: 0 <= k < |KeptPositions(days, from)| ==>
      DateEntries(ym, days, weekdays, from)[k] == EntryAt(ym, days, weekdays, KeptPositions(days, from)[k])
    decreases |days| - from
  {
    if from < |days| {
      DateEntriesAreKeptCells(ym, days, weekdays, from + 1);
      var ps := KeptPositions(days, from);
      var rest := KeptPositions(days, from + 1);
      var es := DateEntries(ym, days, weekdays, from);
      var restEs := DateEntries(ym, days, weekdays, from + 1);
      if days[from].Some? {
        var first := EntryAt(ym, days, weekdays, from);
        assert ps == [from] + rest;
        assert es == [first] + restEs;
        forall k | 0 <= k < |ps|
          ensures es[k] == EntryAt(ym, days, weekdays, ps[k])
        {
          if k > 0 {
            assert ps[k] == rest[k - 1];
            assert es[k] == restEs[k - 1];
          }
        }
      } else {
        assert ps == rest && es == restEs;
      }
    }
  }

  /** No non-numeric day cell comes before a numeric one: the numeric day
      cells are a prefix of the day row. */
  predicate DigitDaysLeading(days: seq<Option<nat>>) {
    forall i, j :: 0 <= i < j < |days| && days[j].Some? ==> days[i].Some?
  }

  lemma {:induction false} LeadingKeptPositions(days: seq<Option<nat>>, from: nat)
    requires DigitDaysLeading(days) && from <= |days|
    ensures forall k :: 0 <= k < |KeptPositions(days, from)| ==> KeptPositions(days, from)[k] == from + k
    decreases |days| - from
  {
    if from < |days| {
      LeadingKeptPositions(days, from + 1);
    }
  }

  /* ---------------------------------------------------------------------
     (date, weekday) -> column index
     --------------------------------------------------------------------- */

  /** Key of the column index: the date and the weekday cell as read. */
  type ColumnKey = (string, Cell)

  function KeyOf(e: DateEntry): ColumnKey {
    (e.date, e.weekday)
  }

  /** `{(entry.date, entry.weekday): i + 2 for i, entry in enumerate(es)}`:
      a later entry with the same key overwrites an earlier one. */
  function ColumnIndex(es: seq<DateEntry>): (m: map<ColumnKey, int>)
    ensures forall key :: key in m <==> exists k :: 0 <= k < |es| && KeyOf(es[k]) == key
    decreases |es|
  {
    if |es| == 0 then map[]
    else
      var init := es[..|es| - 1];
      var m' := ColumnIndex(init);
      assert forall k :: 0 <= k < |init| ==> init[k] == es[k];
      m'[KeyOf(es[|es| - 1]) := |es| + 1]
  }

  /** Each key maps to the column of the LAST entry carrying it: column
      index i + 2 for entry i, with no later entry sharing the key. */
  lemma {:induction false} ColumnIndexLastWins(es: seq<DateEntry>, key: ColumnKey)
    requires key in ColumnIndex(es)
    ensures 2 <= ColumnIndex(es)[key] <= |es| + 1
    ensures KeyOf(es[ColumnIndex(es)[key] - 2]) == key
    ensures forall k :: ColumnIndex(es)[key] - 2 < k < |es| ==> KeyOf(es[k]) != key
    decreases |es|
  {
    var init := es[..|es| - 1];
    if KeyOf(es[|es| - 1]) != key {
      assert key in ColumnIndex(init);
      ColumnIndexLastWins(init, key);
      var j := ColumnIndex(init)[key] - 2;
      assert init[j] == es[j];
      assert forall k :: j < k < |init| ==> init[k] == es[k];
    }
  }

  /** With distinct keys, the i-th kept entry maps to column index i + 2. */
  lemma ColumnIndexPositional(es: seq<DateEntry>, i: nat)
    requires i < |es|
    requires forall k, l :: 0 <= k < l < |es| ==> KeyOf(es[k]) != KeyOf(es[l])
    ensures ColumnIndex(es)[KeyOf(es[i])] == i + 2
  {
    assert KeyOf(es[i]) in ColumnIndex(es);
    ColumnIndexLastWins(es, KeyOf(es[i]));
  }

  /** When numeric day cells lead the row, the i-th kept entry is built
      from the day cell at position i, i.e. spreadsheet column i + 2, the
      column index it is given. */
  lemma EntryComesFromIndexedColumn(ym: YearMonth, days: seq<Option<nat>>, weekdays: seq<Cell>, i: nat)
    requires |days| == |weekdays| && DigitDaysLeading(days)
    requires i < |DateEntries(ym, days, weekdays, 0)|
    ensures days[i].Some?
    ensures DateEntries(ym, days, weekdays, 0)[i]
      == DateEntry(DateString(ym.year, ym.month, days[i].value), weekdays[i])
  {
    DateEntriesAreKeptCells(ym, days, weekdays, 0);
    LeadingKeptPositions(days, 0);
    var ps := KeptPositions(days, 0);
    assert ps[i] == i;
  }

  /** Without that precondition the index is positional only: a day row
      whose column B is blank and column C holds 1 gives day 1 (read from
      column C, position 1) column index 2. */
  lemma ShiftedByLeadingBlank(ym: YearMonth)
    ensures var es := DateEntries(ym, [None, Some(1)], [Blank, Value("一")], 0);
      |es| == 1 && es[0].weekday == Value("一") && ColumnIndex(es)[KeyOf(es[0])] == 2
  {
  }

  lemma DayNumberOfBlank()
    ensures DayNumber(Blank) == None
  {
    StripNan();
    assert !IsDigit("nan"[0]);
  }
  /* ---------------------------------------------------------------------
     A worked example: the April 2024 roster
     --------------------------------------------------------------------- */

  /** The title "113年4月班表" is April of 2024 (era 113 + 1911). */
  lemma AprilTitleExample(title: string)
    requires title == "113年4月班表"
    ensures ParseTitle(title) == Ok(YearMonth(2024, 4))
  {
    assert Decimal(113) == "113" && Decimal(4) == "4";
    assert RosterTitle(113, 4) == title;
    TitleRoundTrip(113, 4);
  }

  /** Days 1, 2, 3 under weekdays 一, 二, 三 give 2024-04-01 .. 2024-04-03,
      each with the weekday written under it. */
  lemma AprilDaysExample(days: seq<Cell>, weekdays: seq<Cell>)
    requires days == [Value("1"), Value("2"), Value("3")]
    requires weekdays == [Value("一"), Value("二"), Value("三")]
    ensures DateEntries(YearMonth(2024, 4), DayNumbers(days), weekdays, 0)
      == [DateEntry("2024-04-01", Value("一")), DateEntry("2024-04-02", Value("二")),
          DateEntry("2024-04-03", Value("三"))]
  {
    DigitDayNumber("1");
    DigitDayNumber("2");
    DigitDayNumber("3");
    AprilEntries(DayNumbers(days), weekdays);
  }

  lemma AprilEntries(ns: seq<Option<nat>>, weekdays: seq<Cell>)
    requires ns == [Some(1), Some(2), Some(3)]
    requires weekdays == [Value("一"), Value("二"), Value("三")]
    ensures DateEntries(YearMonth(2024, 4), ns, weekdays, 0)
      == [DateEntry("2024-04-01", Value("一")), DateEntry("2024-04-02", Value("二")),
          DateEntry("2024-04-03", Value("三"))]
  {
    var ym := YearMonth(2024, 4);
    AprilDate(1, "2024-04-01");
    AprilDate(2, "2024-04-02");
    AprilDate(3, "2024-04-03");
    assert DateEntries(ym, ns, weekdays, 3) == [];
    assert DateEntries(ym, ns, weekdays, 2) == [DateEntry("2024-04-03", Value("三"))];
  }

  /** A single-digit day of April 2024, written with its leading zero. */
  lemma AprilDate(day: nat, text: string)
    requires 1 <= day <= 9 && text == "2024-04-0" + [DigitChar(day)]
    ensures DateString(2024, 4, day) == text
  {
    assert Decimal(2024) == "2024";
    assert Pad2(4) == "04";
  }

  /** A single digit in a cell is kept with its value. */
  lemma DigitDayNumber(t: string)
    requires |t| == 1 && '1' <= t[0] <= '9'
    ensures DayNumber(Value(t)) == Some(DigitValue(t[0]))
  {
    assert TrimStart(t) == t;
    assert TrimEnd(t) == t;
    assert DigitsValue(t) == DigitValue(t[0]) by {
      assert t[..0] == [];
    }
  }
}
