/**
 The time-rule engine (`apply_time_rules`): the day kind of each record, the
 first-match rule chain that fills the start and end times, the holiday
 override for on-call shifts, and the extra on-call record added after an
 inpatient prescription-review shift on a workday.

 The four converters run the same engine with different data: the chain
 (see Chains), how the day kind is decided (the fill of the date column, or
 the weekday symbol), the display label of the added record, and whether
 records with a blank label are dropped first.
 */
module Rules {
  import opened Outcomes
  import opened Text
  import opened Sheet
  import opened Header
  import opened Normalize
  import opened Records
  import Scan

  /* ---------------------------------------------------------------------
     Day kind
     --------------------------------------------------------------------- */

  /** Workday, holiday, or neither (a weekday symbol outside 一..日). */
  datatype DayKind = Workday | Holiday | Unclassified

  /** How a converter decides the day kind: from the gray fill of the
      record's date column, looked up through the (date, weekday) column
      index, or from the weekday symbol alone. */
  datatype Policy =
    | ByFill(holidays: map<int, bool>, columns: map<ColumnKey, int>)
    | ByWeekday

  /** `str(row["星期"]).strip()`. */
  function WeekdayText(s: Shift): string {
    Strip(Str(s.weekday))
  }

  const WorkingDays: seq<string> := ["一", "二", "三", "四", "五"]
  const RestDays: seq<string> := ["六", "日"]

  /** `column_map.get((row["日期"], weekday), None)`: the key pairs the date
      with the STRIPPED weekday text, while the index is keyed by the cell
      as read. */
  function ColumnOf(columns: map<ColumnKey, int>, s: Shift): Option<int> {
    var key := (s.date, Value(WeekdayText(s)));
    if key in columns then Some(columns[key]) else None
  }

  function KindOf(p: Policy, s: Shift): DayKind {
    match p
    case ByFill(holidays, columns) =>
      if HolidayFlag(holidays, ColumnOf(columns, s)) then Holiday else Workday
    case ByWeekday =>
      var w := WeekdayText(s);
      if w in WorkingDays then Workday
      else if w in RestDays then Holiday
      else Unclassified
  }

  /** The day kind depends on the date and weekday cell only. */
  lemma KindOfDateAndWeekday(p: Policy, s: Shift, t: Shift)
    requires s.date == t.date && s.weekday == t.weekday
    ensures KindOf(p, s) == KindOf(p, t)
  {
  }

  /** Fill policy, end to end: a record whose (date, stripped weekday) key
      was last given by date entry k is a holiday exactly when the fill of
      spreadsheet column k + 2 is the gray. */
  lemma FillKindReadsLastColumn(fills: seq<Fill>, gray: string, es: seq<DateEntry>, s: Shift, k: nat)
    requires k < |es| && KeyOf(es[k]) == (s.date, Value(WeekdayText(s)))
    requires forall l :: k < l < |es| ==> KeyOf(es[l]) != KeyOf(es[k])
    ensures KindOf(ByFill(BuildHolidayMap(fills, gray), ColumnIndex(es)), s) == Holiday
        <==> k + 2 <= |fills| + 1 && IsGray(fills[k], gray)
  {
    var m := ColumnIndex(es);
    var key := KeyOf(es[k]);
    assert key in m;
    ColumnIndexLastWins(es, key);
    assert m[key] == k + 2;
    HolidayFlagReadsFill(fills, gray, Some(k + 2));
  }

  /** A record whose key no date entry carries is a workday under the fill
      policy, whatever the fills are. */
  lemma UnindexedIsWorkday(fills: seq<Fill>, gray: string, es: seq<DateEntry>, s: Shift)
    requires forall k :: 0 <= k < |es| ==> KeyOf(es[k]) != (s.date, Value(WeekdayText(s)))
    ensures KindOf(ByFill(BuildHolidayMap(fills, gray), ColumnIndex(es)), s) == Workday
  {
    assert (s.date, Value(WeekdayText(s))) !in ColumnIndex(es);
  }

  /** A weekday cell with a trailing space never finds its own column: a
      gray Saturday column whose weekday cell reads "六 " is a workday. */
  lemma PaddedWeekdayIsWorkday(fills: seq<Fill>, gray: string, d: string, w: string)
    requires w == "六 "
    ensures var s := Shift(d, Value(w), "", "", Unset);
      KindOf(ByFill(BuildHolidayMap(fills, gray), ColumnIndex([DateEntry(d, Value(w))])), s) == Workday
  {
    var s := Shift(d, Value(w), "", "", Unset);
    StripSpec(w);
    assert TrimStart(w) == w;
    assert TrimEnd(w) == TrimEnd(w[..1]) == w[..1];
    assert WeekdayText(s) == w[..1] != w;
    UnindexedIsWorkday(fills, gray, [DateEntry(d, Value(w))], s);
  }

  /** Weekday policy: the symbols 一..五 are workdays, 六 and 日 holidays,
      and every other text (blank cells read "nan") is neither. */
  lemma WeekdayKinds(s: Shift)
    ensures KindOf(ByWeekday, s) == Workday <==> WeekdayText(s) in WorkingDays
    ensures KindOf(ByWeekday, s) == Holiday <==> WeekdayText(s) in RestDays
    ensures KindOf(ByWeekday, s) == Unclassified
        <==> WeekdayText(s) !in WorkingDays && WeekdayText(s) !in RestDays
  {
  }

  /* ---------------------------------------------------------------------
     Rules and the first-match chain
     --------------------------------------------------------------------- */

  /** When a rule applies: one keyword occurs, one of several occurs, or
      two keywords both occur in the stripped label. */
  datatype Trigger =
    | Has(key: string)
    | HasAny(keys: seq<string>)
    | HasBoth(key: string, also: string)

  /** `any(k in content for k in keys)`. */
  predicate AnyIn(content: string, keys: seq<string>)
    decreases |keys|
  {
    |keys| > 0 && (Contains(content, keys[0]) || AnyIn(content, keys[1..]))
  }

  predicate Fires(t: Trigger, content: string) {
    match t
    case Has(k) => Contains(content, k)
    case HasAny(ks) => AnyIn(content, ks)
    case HasBoth(k, a) => Contains(content, k) && Contains(content, a)
  }

  /** A keyword and the times it selects. */
  datatype Slot = Slot(key: string, times: Times)

  /** The first slot whose keyword occurs in the label (a loop over a dict
      in insertion order that breaks at the first hit). */
  function SlotFor(slots: seq<Slot>, content: string): Option<Times>
    decreases |slots|
  {
    if |slots| == 0 then None
    else if Contains(content, slots[0].key) then Some(slots[0].times)
    else SlotFor(slots[1..], content)
  }

  /** The first slot whose keyword equals the weekday text. */
  function DaySlot(days: seq<Slot>, w: string): Option<Times>
    decreases |days|
  {
    if |days| == 0 then None
    else if days[0].key == w then Some(days[0].times)
    else DaySlot(days[1..], w)
  }

  /** The first `(h:mm-h:mm)` annotation of the label, as a time pair. */
  function Bracket(content: string): Option<Times> {
    match FirstTime(content, 0)
    case None => None
    case Some(found) => Some(Times(found.1.start, found.1.end))
  }

  /** A bracket rule copies the leftmost annotation of the label as
      written, and sets nothing when the label has none. */
  lemma BracketCopiesFirstAnnotation(content: string)
    ensures Bracket(content).None? <==> forall i :: 0 <= i <= |content| ==> TimeAt(content, i).None?
    ensures Bracket(content).Some? ==> exists i ::
      && 0 <= i < |content|
      && OccursAt(content, BracketText(TimeMatch(Bracket(content).value.start, Bracket(content).value.end)), i)
      && forall j :: 0 <= j < i ==> TimeAt(content, j).None?
  {
    var f := FirstTime(content, 0);
    if f.Some? {
      var i := f.value.0;
      TimeAtSound(content, i);
      assert TimeMatch(Bracket(content).value.start, Bracket(content).value.end) == f.value.1;
    }
  }

  /** What a rule sets once it applies; None leaves the times as they are. */
  datatype Effect =
    | ByDay(workday: Times, holiday: Times)
    | Bracketed
    | FirstSlot(slots: seq<Slot>)
    | OnWeekday(days: seq<Slot>)
    | Always(times: Times)

  function EffectTimes(e: Effect, s: Shift, kind: DayKind): Option<Times> {
    match e
    case ByDay(w, h) =>
      if kind == Workday then Some(w) else if kind == Holiday then Some(h) else None
    case Bracketed => Bracket(s.content)
    case FirstSlot(slots) => SlotFor(slots, s.content)
    case OnWeekday(days) => DaySlot(days, WeekdayText(s))
    case Always(t) => Some(t)
  }

  datatype Rule = Rule(trigger: Trigger, effect: Effect)

  /** The `if / elif` chain: the first rule (from `from` on) whose trigger
      fires on the label. */
  function FirstFiring(chain: seq<Rule>, content: string, from: nat): (r: Option<nat>)
    requires from <= |chain|
    ensures r.Some? ==> from <= r.value < |chain| && Fires(chain[r.value].trigger, content)
    ensures r.Some? ==> forall j :: from <= j < r.value ==> !Fires(chain[j].trigger, content)
    ensures r.None? ==> forall j :: from <= j < |chain| ==> !Fires(chain[j].trigger, content)
    decreases |chain| - from
  {
    if from == |chain| then None
    else if Fires(chain[from].trigger, content) then Some(from)
    else FirstFiring(chain, content, from + 1)
  }

  /** One step of the search. */
  lemma FirstFiringStep(chain: seq<Rule>, content: string, from: nat)
    requires from < |chain|
    ensures FirstFiring(chain, content, from)
      == if Fires(chain[from].trigger, content) then Some(from) else FirstFiring(chain, content, from + 1)
  {
  }

  /** The times the chain sets for a record, if any. Only the first rule
      that fires is consulted, even when its effect sets nothing. */
  function ChainTimes(chain: seq<Rule>, s: Shift, kind: DayKind): Option<Times> {
    match FirstFiring(chain, s.content, 0)
    case None => None
    case Some(i) => EffectTimes(chain[i].effect, s, kind)
  }

  /* ---------------------------------------------------------------------
     On-call shifts
     --------------------------------------------------------------------- */

  /** The on-call consultation and pharmacokinetics shift. */
  const OnCall := "非常班之諮詢與藥動服務"

  /** The inpatient prescription-review shift that brings an on-call
      evening with it on workdays. */
  const InpatientReview := "處方判讀 7-住院"

  /** Holiday on-call shifts: morning, afternoon, evening. */
  const OnCallSlots := [
    Slot("上午", Times("08:00", "12:30")),
    Slot("下午", Times("12:30", "17:00")),
    Slot("晚上", Times("17:00", "21:00"))
  ]

  /** The workday on-call evening added after an inpatient review. */
  const OnCallEvening := Times("17:30", "21:30")

  /** The override applied after the chain: a holiday on-call shift takes
      its slot's times, whatever the chain set. */
  function OverrideTimes(s: Shift, kind: DayKind): Option<Times> {
    if Contains(s.content, OnCall) && kind == Holiday then SlotFor(OnCallSlots, s.content) else None
  }

  /** The times a record ends up with: the override, else the chain, else
      the times it had. */
  function AssignedTimes(chain: seq<Rule>, s: Shift, kind: DayKind): Times {
    match OverrideTimes(s, kind)
    case Some(t) => t
    case None =>
      match ChainTimes(chain, s, kind)
      case Some(t) => t
      case None => s.times
  }

  /* ---------------------------------------------------------------------
     The engine
     --------------------------------------------------------------------- */

  /** One converter's configuration of the engine. */
  datatype Engine = Engine(chain: seq<Rule>, policy: Policy, eveningDisplay: string, dropsBlankLabels: bool)

  /** A record after its rules ran: only its times can change. */
  function Retimed(e: Engine, s: Shift): (u: Shift)
    ensures u.date == s.date && u.weekday == s.weekday
    ensures u.content == s.content && u.display == s.display
  {
    s.(times := AssignedTimes(e.chain, s, KindOf(e.policy, s)))
  }

  /** The on-call evening a record brings with it, if any. */
  function Evening(e: Engine, s: Shift): seq<Shift> {
    if BringsEvening(e, s) then [EveningOf(e, s)] else []
  }

  /** An inpatient review on a workday. */
  predicate BringsEvening(e: Engine, s: Shift) {
    Contains(s.content, InpatientReview) && KindOf(e.policy, s) == Workday
  }

  /** The on-call evening on the record's date and weekday. */
  function EveningOf(e: Engine, s: Shift): Shift {
    Shift(s.date, s.weekday, OnCall, e.eveningDisplay, OnCallEvening)
  }

  /** The added records, in the order of the records that bring them.
      Each is an on-call evening on a workday. */
  function Extras(e: Engine, rs: seq<Shift>): (xs: seq<Shift>)
    ensures |xs| <= |rs|
    ensures forall i :: 0 <= i < |xs| ==>
      && xs[i].content == OnCall && xs[i].display == e.eveningDisplay
      && xs[i].times == OnCallEvening && KindOf(e.policy, xs[i]) == Workday
    decreases |rs|
  {
    if |rs| == 0 then []
    else Extras(e, rs[..|rs| - 1]) + Evening(e, rs[|rs| - 1])
  }

  /** The desktop converter's row filter: the stripped label is empty,
      "nan" or the footnote marker. */
  predicate BlankLabel(content: string) {
    var t := Strip(content);
    t == "" || t == "nan" || t == Scan.Footnote
  }

  /** Keep the records whose label is not blank, in order. */
  function DropBlankLabels(rs: seq<Shift>): (ks: seq<Shift>)
    ensures |ks| <= |rs|
    decreases |rs|
  {
    if |rs| == 0 then []
    else
      var last := rs[|rs| - 1];
      DropBlankLabels(rs[..|rs| - 1]) + (if BlankLabel(last.content) then [] else [last])
  }

  /** The records the engine works on. */
  function Kept(e: Engine, rs: seq<Shift>): seq<Shift> {
    if e.dropsBlankLabels then DropBlankLabels(rs) else rs
  }

  function RetimeAll(e: Engine, rs: seq<Shift>): (us: seq<Shift>)
    ensures |us| == |rs|
    ensures forall i :: 0 <= i < |rs| ==> us[i] == Retimed(e, rs[i])
  {
    seq(|rs|, i requires 0 <= i < |rs| => Retimed(e, rs[i]))
  }

  /** `apply_time_rules`: the kept records in order with their times set,
      then the added on-call evenings. */
  function Run(e: Engine, rs: seq<Shift>): (out: seq<Shift>)
    ensures var ks := Kept(e, rs);
      && |ks| <= |out| <= 2 * |ks|
      && (forall i :: 0 <= i < |ks| ==> out[i] == ks[i].(times := out[i].times))
      && (forall i :: |ks| <= i < |out| ==> out[i].content == OnCall && out[i].times == OnCallEvening)
  {
    var ks := Kept(e, rs);
    RetimeAll(e, ks) + Extras(e, ks)
  }

  /** Growing the prefix the loop has handled by one record. */
  lemma PrefixStep(e: Engine, ks: seq<Shift>, i: nat)
    requires i < |ks|
    ensures RetimeAll(e, ks[..i + 1]) == RetimeAll(e, ks[..i]) + [Retimed(e, ks[i])]
    ensures Extras(e, ks[..i + 1]) == Extras(e, ks[..i]) + Evening(e, ks[i])
  {
    assert ks[..i + 1][..i] == ks[..i];
  }

  /** The loop of `apply_time_rules`, step by step in the order the source
      takes them: the chain, the added evening, then the override. */
  method ApplyTimeRules(e: Engine, rs: seq<Shift>) returns (out: seq<Shift>)
    ensures out == Run(e, rs)
  {
    var ks := Kept(e, rs);
    var updated: seq<Shift> := [];
    var extras: seq<Shift> := [];
    var i := 0;
    while i < |ks|
      invariant 0 <= i <= |ks|
      invariant updated == RetimeAll(e, ks[..i])
      invariant extras == Extras(e, ks[..i])
    {
      var s := ks[i];
      var kind := KindOf(e.policy, s);
      var t := s.times;
      var chained := ChainTimes(e.chain, s, kind);
      if chained.Some? {
        t := chained.value;
      }
      var evening: seq<Shift> := [];
      if Contains(s.content, InpatientReview) && kind == Workday {
        evening := [Shift(s.date, s.weekday, OnCall, e.eveningDisplay, OnCallEvening)];
      }
      var over := OverrideTimes(s, kind);
      if over.Some? {
        t := over.value;
      }
      PrefixStep(e, ks, i);
      updated := updated + [s.(times := t)];
      extras := extras + evening;
      i := i + 1;
    }
    assert ks[..i] == ks;
    out := updated + extras;
  }

  /* ---------------------------------------------------------------------
     Properties of the engine
     --------------------------------------------------------------------- */

  /** A holiday on-call record whose label names a slot gets that slot's
      times, whatever rule of the chain fired before. */
  lemma OverrideWins(e: Engine, s: Shift)
    requires Contains(s.content, OnCall) && KindOf(e.policy, s) == Holiday
    requires SlotFor(OnCallSlots, s.content).Some?
    ensures Retimed(e, s).times == SlotFor(OnCallSlots, s.content).value
  {
  }

  /** A record no rule fires on, and that is not a holiday on-call shift,
      keeps its times (so a scanned record keeps blank times). */
  lemma UnmatchedKeepsTimes(e: Engine, s: Shift)
    requires FirstFiring(e.chain, s.content, 0).None?
    requires !(Contains(s.content, OnCall) && KindOf(e.policy, s) == Holiday)
    ensures Retimed(e, s) == s
  {
  }

  predicate ClockTimes(t: Times) {
    IsClock(t.start) && IsClock(t.end)
  }

  predicate SlotsTimed(slots: seq<Slot>) {
    forall i :: 0 <= i < |slots| ==> ClockTimes(slots[i].times)
  }

  predicate EffectTimed(e: Effect) {
    match e
    case ByDay(w, h) => ClockTimes(w) && ClockTimes(h)
    case Bracketed => true
    case FirstSlot(slots) => SlotsTimed(slots)
    case OnWeekday(days) => SlotsTimed(days)
    case Always(t) => ClockTimes(t)
  }

  /** Every time a chain can set is an `h:mm` clock reading. */
  predicate ChainTimed(chain: seq<Rule>) {
    forall i :: 0 <= i < |chain| ==> EffectTimed(chain[i].effect)
  }

  lemma {:induction false} SlotForTimed(slots: seq<Slot>, content: string)
    requires SlotsTimed(slots)
    ensures SlotFor(slots, content).Some? ==> ClockTimes(SlotFor(slots, content).value)
    decreases |slots|
  {
    if |slots| > 0 && !Contains(content, slots[0].key) {
      SlotForTimed(slots[1..], content);
    }
  }

  lemma {:induction false} DaySlotTimed(days: seq<Slot>, w: string)
    requires SlotsTimed(days)
    ensures DaySlot(days, w).Some? ==> ClockTimes(DaySlot(days, w).value)
    decreases |days|
  {
    if |days| > 0 && days[0].key != w {
      DaySlotTimed(days[1..], w);
    }
  }

  /** With a well-timed chain, a record's times are either left as they
      were or both set to clock readings: start and end are set together. */
  lemma AssignedTimesAreClocks(chain: seq<Rule>, s: Shift, kind: DayKind)
    requires ChainTimed(chain)
    ensures var t := AssignedTimes(chain, s, kind); t == s.times || ClockTimes(t)
  {
    assert SlotsTimed(OnCallSlots);
    SlotForTimed(OnCallSlots, s.content);
    match FirstFiring(chain, s.content, 0) {
      case None =>
      case Some(i) =>
        assert EffectTimed(chain[i].effect);
        match chain[i].effect {
          case FirstSlot(slots) => SlotForTimed(slots, s.content);
          case OnWeekday(days) => DaySlotTimed(days, WeekdayText(s));
          case Bracketed =>
            if FirstTime(s.content, 0).Some? {
              var found := FirstTime(s.content, 0).value;
              assert TimeAt(s.content, found.0) == Some(found.1);
            }
          case ByDay(_, _) =>
          case Always(_) =>
        }
    }
  }

  /** Setting the times again gives the same times. */
  lemma RetimedIdempotent(e: Engine, s: Shift)
    ensures Retimed(e, Retimed(e, s)) == Retimed(e, s)
  {
  }

  /** The added records of two runs of records are those of each, in order. */
  lemma {:induction false} ExtrasAppend(e: Engine, a: seq<Shift>, b: seq<Shift>)
    ensures Extras(e, a + b) == Extras(e, a) + Extras(e, b)
    decreases |b|
  {
    if |b| == 0 {
      assert a + b == a;
    } else {
      var b' := b[..|b| - 1];
      assert (a + b)[..|a + b| - 1] == a + b';
      assert (a + b)[|a + b| - 1] == b[|b| - 1];
      ExtrasAppend(e, a, b');
    }
  }

  /** An on-call record is not an inpatient review: it brings nothing. */
  lemma OnCallIsNotReview()
    ensures !Contains(OnCall, InpatientReview)
  {
    AbsentCharNotContained(OnCall, InpatientReview, '處');
  }

  /** The added records bring no records of their own. */
  lemma {:induction false} ExtrasOfOnCall(e: Engine, xs: seq<Shift>)
    requires forall i :: 0 <= i < |xs| ==> xs[i].content == OnCall
    ensures Extras(e, xs) == []
    decreases |xs|
  {
    if |xs| > 0 {
      OnCallIsNotReview();
      ExtrasOfOnCall(e, xs[..|xs| - 1]);
    }
  }

  /** Every added record comes from a kept inpatient review on a workday,
      on the same date and weekday. */
  lemma {:induction false} ExtrasSource(e: Engine, rs: seq<Shift>, i: nat)
    requires i < |Extras(e, rs)|
    ensures exists k :: (0 <= k < |rs| && Contains(rs[k].content, InpatientReview)
      && KindOf(e.policy, rs[k]) == Workday
      && rs[k].date == Extras(e, rs)[i].date && rs[k].weekday == Extras(e, rs)[i].weekday)
    decreases |rs|
  {
    var init := rs[..|rs| - 1];
    if i < |Extras(e, init)| {
      ExtrasSource(e, init, i);
      var k :| 0 <= k < |init| && Contains(init[k].content, InpatientReview)
        && KindOf(e.policy, init[k]) == Workday
        && init[k].date == Extras(e, init)[i].date && init[k].weekday == Extras(e, init)[i].weekday;
      assert rs[k] == init[k];
    } else {
      assert Extras(e, rs)[i] == Evening(e, rs[|rs| - 1])[0];
      assert Contains(rs[|rs| - 1].content, InpatientReview);
    }
  }

  /** And every kept inpatient review on a workday brings one. */
  lemma {:induction false} ExtrasComplete(e: Engine, rs: seq<Shift>, k: nat)
    requires k < |rs| && Contains(rs[k].content, InpatientReview) && KindOf(e.policy, rs[k]) == Workday
    ensures Shift(rs[k].date, rs[k].weekday, OnCall, e.eveningDisplay, OnCallEvening) in Extras(e, rs)
    decreases |rs|
  {
    var init := rs[..|rs| - 1];
    if k < |init| {
      assert init[k] == rs[k];
      ExtrasComplete(e, init, k);
    } else {
      assert Evening(e, rs[k]) == [Shift(rs[k].date, rs[k].weekday, OnCall, e.eveningDisplay, OnCallEvening)];
    }
  }

  /** Positions of the records that bring an evening, in order. */
  function EveningSources(e: Engine, rs: seq<Shift>): seq<nat>
    decreases |rs|
  {
    if |rs| == 0 then []
    else EveningSources(e, rs[..|rs| - 1]) + (if BringsEvening(e, rs[|rs| - 1]) then [|rs| - 1] else [])
  }

  /** The i-th added record is the evening of the i-th record that brings
      one: one added record per such record, in their order. */
  lemma {:induction false} ExtrasPerSource(e: Engine, rs: seq<Shift>)
    ensures |Extras(e, rs)| == |EveningSources(e, rs)|
    ensures forall i :: 0 <= i < |EveningSources(e, rs)| ==>
      EveningSources(e, rs)[i] < |rs| && Extras(e, rs)[i] == EveningOf(e, rs[EveningSources(e, rs)[i]])
    decreases |rs|
  {
    if |rs| > 0 {
      var init := rs[..|rs| - 1];
      ExtrasPerSource(e, init);
      var src := EveningSources(e, rs);
      var prev := EveningSources(e, init);
      forall i | 0 <= i < |prev|
        ensures src[i] < |rs| && Extras(e, rs)[i] == EveningOf(e, rs[src[i]])
      {
        assert src[i] == prev[i];
        assert rs[prev[i]] == init[prev[i]];
      }
    }
  }

  /** A record brings an evening exactly when its position is a source. */
  lemma {:induction false} EveningSourcesExact(e: Engine, rs: seq<Shift>, k: nat)
    requires k < |rs|
    ensures k in EveningSources(e, rs) <==> BringsEvening(e, rs[k])
    decreases |rs|
  {
    var init := rs[..|rs| - 1];
    ExtrasPerSource(e, init);
    if k < |init| {
      EveningSourcesExact(e, init, k);
      assert init[k] == rs[k];
    }
  }

  /** The sources increase, so no record brings two evenings. */
  lemma {:induction false} EveningSourcesIncrease(e: Engine, rs: seq<Shift>)
    ensures forall i, j :: 0 <= i < j < |EveningSources(e, rs)| ==>
      EveningSources(e, rs)[i] < EveningSources(e, rs)[j]
    decreases |rs|
  {
    if |rs| > 0 {
      var init := rs[..|rs| - 1];
      EveningSourcesIncrease(e, init);
      ExtrasPerSource(e, init);
    }
  }

  /** The filter keeps exactly the records whose label is not blank. */
  lemma {:induction false} DropBlankLabelsMembers(rs: seq<Shift>, x: Shift)
    ensures x in DropBlankLabels(rs) <==> x in rs && !BlankLabel(x.content)
    decreases |rs|
  {
    if |rs| > 0 {
      var init := rs[..|rs| - 1];
      DropBlankLabelsMembers(init, x);
      assert rs == init + [rs[|rs| - 1]];
    }
  }

  /** Dropping blank labels from records that have none keeps them all. */
  lemma {:induction false} DropBlankLabelsKeepsClean(rs: seq<Shift>)
    requires forall i :: 0 <= i < |rs| ==> !BlankLabel(rs[i].content)
    ensures DropBlankLabels(rs) == rs
    decreases |rs|
  {
    if |rs| > 0 {
      DropBlankLabelsKeepsClean(rs[..|rs| - 1]);
      assert rs[..|rs| - 1] + [rs[|rs| - 1]] == rs;
    }
  }

  /** The on-call label is not blank. */
  lemma OnCallNotBlank()
    ensures !BlankLabel(OnCall)
  {
    StripKeepsClean(OnCall);
  }

  /** A chain is quiet on the on-call label when none of its rules fire on
      it; each converter's chain is (see Chains). */
  predicate QuietOnCall(chain: seq<Rule>) {
    FirstFiring(chain, OnCall, 0).None?
  }

  /** Added records keep their times when the engine runs again: the chain
      is quiet on them and they fall on workdays, so no override applies. */
  lemma {:induction false} ExtrasSurviveRetiming(e: Engine, rs: seq<Shift>)
    requires QuietOnCall(e.chain)
    ensures RetimeAll(e, Extras(e, rs)) == Extras(e, rs)
  {
    var xs := Extras(e, rs);
    forall i | 0 <= i < |xs|
      ensures Retimed(e, xs[i]) == xs[i]
    {
      UnmatchedKeepsTimes(e, xs[i]);
    }
  }

  /** The engine's output passes its own blank-label filter unchanged. */
  lemma RunIsKept(e: Engine, rs: seq<Shift>)
    ensures Kept(e, Run(e, rs)) == Run(e, rs)
  {
    if e.dropsBlankLabels {
      var ks := Kept(e, rs);
      var us := RetimeAll(e, ks);
      var out := Run(e, rs);
      forall i | 0 <= i < |out|
        ensures !BlankLabel(out[i].content)
      {
        if i < |us| {
          DropBlankLabelsMembers(rs, ks[i]);
        } else {
          OnCallNotBlank();
        }
      }
      DropBlankLabelsKeepsClean(out);
    }
  }

  /** Timing timed records again changes nothing. */
  lemma RetimeAllFixed(e: Engine, ks: seq<Shift>)
    ensures RetimeAll(e, RetimeAll(e, ks)) == RetimeAll(e, ks)
  {
    var us := RetimeAll(e, ks);
    forall i | 0 <= i < |us|
      ensures Retimed(e, us[i]) == us[i]
    {
      RetimedIdempotent(e, ks[i]);
    }
  }

  /** Timing distributes over concatenation. */
  lemma RetimeAllAppend(e: Engine, a: seq<Shift>, b: seq<Shift>)
    ensures RetimeAll(e, a + b) == RetimeAll(e, a) + RetimeAll(e, b)
  {
    var l := RetimeAll(e, a + b);
    var r := RetimeAll(e, a) + RetimeAll(e, b);
    assert forall i :: 0 <= i < |l| ==> l[i] == r[i];
  }

  /** Running the engine on its own output keeps every record and times it
      identically, but adds every on-call evening a second time. */
  lemma RunTwice(e: Engine, rs: seq<Shift>)
    requires QuietOnCall(e.chain)
    ensures Run(e, Run(e, rs)) == Run(e, rs) + Extras(e, Kept(e, rs))
  {
    var ks := Kept(e, rs);
    var us := RetimeAll(e, ks);
    var xs := Extras(e, ks);
    var out := Run(e, rs);
    assert out == us + xs;
    RunIsKept(e, rs);
    assert Run(e, out) == RetimeAll(e, out) + Extras(e, out);
    assert RetimeAll(e, out) == out by {
      RetimeAllAppend(e, us, xs);
      RetimeAllFixed(e, ks);
      ExtrasSurviveRetiming(e, ks);
    }
    assert Extras(e, out) == xs by {
      ExtrasAppend(e, us, xs);
      ExtrasRetimed(e, ks);
      ExtrasOfOnCall(e, xs);
      assert xs + [] == xs;
    }
  }

  /** Setting times does not change which records bring an evening. */
  lemma {:induction false} ExtrasRetimed(e: Engine, rs: seq<Shift>)
    ensures Extras(e, RetimeAll(e, rs)) == Extras(e, rs)
    decreases |rs|
  {
    if |rs| > 0 {
      var init := rs[..|rs| - 1];
      assert RetimeAll(e, rs)[..|rs| - 1] == RetimeAll(e, init);
      ExtrasRetimed(e, init);
      KindOfDateAndWeekday(e.policy, rs[|rs| - 1], Retimed(e, rs[|rs| - 1]));
    }
  }
}
