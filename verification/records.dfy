/**
 The shift records the converter builds: one row of the result table
 (date, weekday cell, raw shift label, display label, start and end time).
 */
module Records {
  import opened Sheet

  /** A start/end pair. The converter always writes both together, so the
      model keeps them in one value; "" is an unset time. */
  datatype Times = Times(start: string, end: string)

  /** The times every scanned record starts with. */
  const Unset := Times("", "")

  /** One result row: `日期`, `星期` (the weekday cell as read), `工作內容`
      (the stripped raw label), `簡化後內容` (the display label) and the
      `Start Time` / `End Time` pair. */
  datatype Shift = Shift(date: string, weekday: Cell, content: string, display: string, times: Times)
}
