/**
 The calendar import table: each shift record becomes one row of the five
 columns a calendar import expects, the day of the shift as both its start
 and end date.
 */
module Calendar {
  import opened Records

  /** The five columns, in this order. */
  const Columns: seq<string> := ["Subject", "Start Date", "Start Time", "End Date", "End Time"]

  datatype CalendarRow = CalendarRow(subject: string, startDate: string, startTime: string,
                                     endDate: string, endTime: string)

  /** A row's fields in column order. */
  function Fields(row: CalendarRow): (fs: seq<string>)
    ensures |fs| == |Columns|
  {
    [row.subject, row.startDate, row.startTime, row.endDate, row.endTime]
  }

  /** Renaming `簡化後內容` to Subject and `日期` to Start Date, and copying
      Start Date into End Date. */
  function ToRow(s: Shift): CalendarRow {
    CalendarRow(s.display, s.date, s.times.start, s.date, s.times.end)
  }

  /** Every record gives one row, in order; the subject is the display
      label, both dates are the record's date and the times are its times. */
  function Project(rs: seq<Shift>): (out: seq<CalendarRow>)
    ensures |out| == |rs|
    ensures forall i :: 0 <= i < |rs| ==>
      && out[i].subject == rs[i].display
      && out[i].startDate == rs[i].date && out[i].endDate == rs[i].date
      && out[i].startTime == rs[i].times.start && out[i].endTime == rs[i].times.end
  {
    seq(|rs|, i requires 0 <= i < |rs| => ToRow(rs[i]))
  }

  /** Projection distributes over concatenation: the rows of the added
      on-call records come after those of the scanned records. */
  lemma ProjectAppend(a: seq<Shift>, b: seq<Shift>)
    ensures Project(a + b) == Project(a) + Project(b)
  {
  }

  /** The table as written out: the header line, then one line per row. */
  function Table(rows: seq<CalendarRow>): (lines: seq<seq<string>>)
    ensures |lines| == |rows| + 1 && lines[0] == Columns
    ensures forall i :: 0 <= i < |rows| ==> lines[i + 1] == Fields(rows[i])
  {
    [Columns] + seq(|rows|, i requires 0 <= i < |rows| => Fields(rows[i]))
  }

  /** Every line of a projected table has one field per column, and on
      every line below the header the End Date field repeats the Start Date
      field. */
  lemma TableShape(rs: seq<Shift>)
    ensures var lines := Table(Project(rs));
      forall l :: 0 <= l < |lines| ==> |lines[l]| == 5
    ensures var lines := Table(Project(rs));
      forall l :: 1 <= l < |lines| ==> lines[l][3] == lines[l][1] == rs[l - 1].date
  {
    var lines := Table(Project(rs));
    forall l | 1 <= l < |lines|
      ensures |lines[l]| == 5 && lines[l][3] == lines[l][1] == rs[l - 1].date
    {
      assert lines[l] == Fields(Project(rs)[l - 1]);
    }
  }
}
