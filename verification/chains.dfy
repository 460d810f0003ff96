/**
 The rule chains of the four converters, as data for the engine in Rules,
 each paired with a plain `if / elif` reference function written the way
 the converter spells its chain, and proved to agree with it.

 - the canonical converter (duty_noDL_allfunction.py) has a rule for the
   second central pharmacy (中2藥局) and no PreESRD-morning rule;
 - the spreadsheet-editing and color-map converters have no 中2藥局 rule
   and a PreESRD-morning rule after the transplant clinic;
 - the desktop converter tests the transplant and PreESRD clinics on their
   own name and only then looks for 上午.
 */
module Chains {
  import opened Outcomes
  import opened Text
  import opened Records
  import opened Rules
  import Normalize

  /* ---------------------------------------------------------------------
     The rules
     --------------------------------------------------------------------- */

  /** The shifts read against the prescription slot table. */
  const PrescriptionShifts: seq<string> := ["處方判讀", "化療處方判讀", "藥物諮詢", "PreESRD"]

  /** Morning, afternoon, one evening hour, evening; in this order, so that
      "小夜1hr" is tried before "小夜", which it contains. */
  const PrescriptionSlots: seq<Slot> := [
    Slot("上午", Times("08:00", "12:00")),
    Slot("下午", Times("13:30", "17:30")),
    Slot("小夜1hr", Times("17:30", "18:30")),
    Slot("小夜", Times("17:30", "21:30"))
  ]

  /** The clinic morning. */
  const ClinicMorning := Times("08:30", "12:00")

  const DispensingReview := Rule(Has("調劑複核"), ByDay(Times("13:30", "15:00"), Times("11:00", "15:00")))
  const OutpatientDispensing := Rule(Has("門診藥局調劑"), Bracketed)
  const SecondCentralPharmacy := Rule(Has("中2藥局"), Bracketed)
  const PrescriptionReview := Rule(HasAny(PrescriptionShifts), FirstSlot(PrescriptionSlots))
  const AnticoagulationClinic := Rule(Has("抗凝藥師門診"),
    OnWeekday([Slot("二", Times("08:30", "12:00")), Slot("三", Times("13:30", "17:00"))]))
  const TransplantMorning := Rule(HasBoth("移植藥師門診", "上午"), Always(ClinicMorning))
  const PreEsrdMorning := Rule(HasBoth("PreESRD", "上午"), Always(ClinicMorning))
  const TransplantClinic := Rule(Has("移植藥師門診"), FirstSlot([Slot("上午", ClinicMorning)]))
  const PreEsrdClinic := Rule(Has("PreESRD"), FirstSlot([Slot("上午", ClinicMorning)]))
  const HerbalDispensing := Rule(Has("中藥局調劑"), Always(ClinicMorning))
  const RemdesivirReview := Rule(Has("瑞德西偉審核"), Always(Times("08:00", "20:00")))

  const CanonicalChain: seq<Rule> := [
    DispensingReview, OutpatientDispensing, SecondCentralPharmacy, PrescriptionReview,
    AnticoagulationClinic, TransplantMorning, HerbalDispensing, RemdesivirReview
  ]

  const SheetVariantChain: seq<Rule> := [
    DispensingReview, OutpatientDispensing, PrescriptionReview, AnticoagulationClinic,
    TransplantMorning, PreEsrdMorning, HerbalDispensing, RemdesivirReview
  ]

  const DesktopChain: seq<Rule> := [
    DispensingReview, OutpatientDispensing, PrescriptionReview, AnticoagulationClinic,
    TransplantClinic, PreEsrdClinic, HerbalDispensing, RemdesivirReview
  ]

  /* ---------------------------------------------------------------------
     Reference functions, spelled like the converters' branches
     --------------------------------------------------------------------- */

  function Pair(start: string, end: string): Option<Times> {
    Some(Times(start, end))
  }

  function PrescriptionReference(content: string): Option<Times> {
    if Contains(content, "上午") then Pair("08:00", "12:00")
    else if Contains(content, "下午") then Pair("13:30", "17:30")
    else if Contains(content, "小夜1hr") then Pair("17:30", "18:30")
    else if Contains(content, "小夜") then Pair("17:30", "21:30")
    else None
  }

  predicate PrescriptionShift(content: string) {
    Contains(content, "處方判讀") || Contains(content, "化療處方判讀")
    || Contains(content, "藥物諮詢") || Contains(content, "PreESRD")
  }

  function AnticoagulationReference(weekday: string): Option<Times> {
    if weekday == "二" then Pair("08:30", "12:00")
    else if weekday == "三" then Pair("13:30", "17:00")
    else None
  }

  /** The tail every chain shares after its clinic rules. */
  function TailReference(content: string): Option<Times> {
    if Contains(content, "中藥局調劑") then Pair("08:30", "12:00")
    else if Contains(content, "瑞德西偉審核") then Pair("08:00", "20:00")
    else None
  }

  function CanonicalReference(content: string, weekday: string, holiday: bool): Option<Times> {
    if Contains(content, "調劑複核") then
      (if holiday then Pair("11:00", "15:00") else Pair("13:30", "15:00"))
    else if Contains(content, "門診藥局調劑") then Bracket(content)
    else if Contains(content, "中2藥局") then Bracket(content)
    else if PrescriptionShift(content) then PrescriptionReference(content)
    else if Contains(content, "抗凝藥師門診") then AnticoagulationReference(weekday)
    else if Contains(content, "移植藥師門診") && Contains(content, "上午") then Pair("08:30", "12:00")
    else TailReference(content)
  }

  function SheetVariantReference(content: string, weekday: string, holiday: bool): Option<Times> {
    if Contains(content, "調劑複核") then
      (if holiday then Pair("11:00", "15:00") else Pair("13:30", "15:00"))
    else if Contains(content, "門診藥局調劑") then Bracket(content)
    else if PrescriptionShift(content) then PrescriptionReference(content)
    else if Contains(content, "抗凝藥師門診") then AnticoagulationReference(weekday)
    else if Contains(content, "移植藥師門診") && Contains(content, "上午") then Pair("08:30", "12:00")
    else if Contains(content, "PreESRD") && Contains(content, "上午") then Pair("08:30", "12:00")
    else TailReference(content)
  }

  function DesktopReference(content: string, weekday: string): Option<Times> {
    if Contains(content, "調劑複核") then
      (if weekday in ["一", "二", "三", "四", "五"] then Pair("13:30", "15:00")
       else if weekday in ["六", "日"] then Pair("11:00", "15:00")
       else None)
    else if Contains(content, "門診藥局調劑") then Bracket(content)
    else if PrescriptionShift(content) then PrescriptionReference(content)
    else if Contains(content, "抗凝藥師門診") then AnticoagulationReference(weekday)
    else if Contains(content, "移植藥師門診") then
      (if Contains(content, "上午") then Pair("08:30", "12:00") else None)
    else if Contains(content, "PreESRD") then
      (if Contains(content, "上午") then Pair("08:30", "12:00") else None)
    else TailReference(content)
  }

  /* ---------------------------------------------------------------------
     The chains are the converters' branches
     --------------------------------------------------------------------- */

  lemma PrescriptionSlotsAreReference(content: string)
    ensures SlotFor(PrescriptionSlots, content) == PrescriptionReference(content)
  {
  }

  lemma PrescriptionTrigger(content: string)
    ensures Fires(PrescriptionReview.trigger, content) <==> PrescriptionShift(content)
  {
  }

  lemma AnticoagulationIsReference(s: Shift)
    ensures DaySlot(AnticoagulationClinic.effect.days, WeekdayText(s)) == AnticoagulationReference(WeekdayText(s))
  {
  }

  lemma MorningSlot(content: string)
    ensures SlotFor(TransplantClinic.effect.slots, content)
      == if Contains(content, "上午") then Some(ClinicMorning) else None
    ensures SlotFor(PreEsrdClinic.effect.slots, content)
      == if Contains(content, "上午") then Some(ClinicMorning) else None
  {
    assert TransplantClinic.effect.slots[1..] == [];
  }

  /** Under the fill policy every day is a workday or a holiday. */
  lemma FillKindIsClassified(p: Policy, s: Shift)
    requires p.ByFill?
    ensures KindOf(p, s) != Unclassified
  {
  }

  /** The search through each chain, unrolled. */
  lemma CanonicalFirst(c: string)
    ensures FirstFiring(CanonicalChain, c, 0) ==
      if Contains(c, "調劑複核") then Some(0)
      else if Contains(c, "門診藥局調劑") then Some(1)
      else if Contains(c, "中2藥局") then Some(2)
      else if PrescriptionShift(c) then Some(3)
      else if Contains(c, "抗凝藥師門診") then Some(4)
      else if Contains(c, "移植藥師門診") && Contains(c, "上午") then Some(5)
      else if Contains(c, "中藥局調劑") then Some(6)
      else if Contains(c, "瑞德西偉審核") then Some(7)
      else None
  {
    var ch := CanonicalChain;
    PrescriptionTrigger(c);
    FirstFiringStep(ch, c, 0);
    FirstFiringStep(ch, c, 1);
    FirstFiringStep(ch, c, 2);
    FirstFiringStep(ch, c, 3);
    FirstFiringStep(ch, c, 4);
    FirstFiringStep(ch, c, 5);
    FirstFiringStep(ch, c, 6);
    FirstFiringStep(ch, c, 7);
  }

  lemma SheetVariantFirst(c: string)
    ensures FirstFiring(SheetVariantChain, c, 0) ==
      if Contains(c, "調劑複核") then Some(0)
      else if Contains(c, "門診藥局調劑") then Some(1)
      else if PrescriptionShift(c) then Some(2)
      else if Contains(c, "抗凝藥師門診") then Some(3)
      else if Contains(c, "移植藥師門診") && Contains(c, "上午") then Some(4)
      else if Contains(c, "PreESRD") && Contains(c, "上午") then Some(5)
      else if Contains(c, "中藥局調劑") then Some(6)
      else if Contains(c, "瑞德西偉審核") then Some(7)
      else None
  {
    var ch := SheetVariantChain;
    PrescriptionTrigger(c);
    FirstFiringStep(ch, c, 0);
    FirstFiringStep(ch, c, 1);
    FirstFiringStep(ch, c, 2);
    FirstFiringStep(ch, c, 3);
    FirstFiringStep(ch, c, 4);
    FirstFiringStep(ch, c, 5);
    FirstFiringStep(ch, c, 6);
    FirstFiringStep(ch, c, 7);
  }

  lemma DesktopFirst(c: string)
    ensures FirstFiring(DesktopChain, c, 0) ==
      if Contains(c, "調劑複核") then Some(0)
      else if Contains(c, "門診藥局調劑") then Some(1)
      else if PrescriptionShift(c) then Some(2)
      else if Contains(c, "抗凝藥師門診") then Some(3)
      else if Contains(c, "移植藥師門診") then Some(4)
      else if Contains(c, "PreESRD") then Some(5)
      else if Contains(c, "中藥局調劑") then Some(6)
      else if Contains(c, "瑞德西偉審核") then Some(7)
      else None
  {
    var ch := DesktopChain;
    PrescriptionTrigger(c);
    FirstFiringStep(ch, c, 0);
    FirstFiringStep(ch, c, 1);
    FirstFiringStep(ch, c, 2);
    FirstFiringStep(ch, c, 3);
    FirstFiringStep(ch, c, 4);
    FirstFiringStep(ch, c, 5);
    FirstFiringStep(ch, c, 6);
    FirstFiringStep(ch, c, 7);
  }

  /** The canonical chain is the canonical converter's `if / elif` chain. */
  lemma CanonicalChainIsReference(s: Shift, kind: DayKind)
    requires kind != Unclassified
    ensures ChainTimes(CanonicalChain, s, kind) == CanonicalReference(s.content, WeekdayText(s), kind == Holiday)
  {
    var c := s.content;
    CanonicalFirst(c);
    var first := FirstFiring(CanonicalChain, c, 0);
    if first == Some(3) {
      PrescriptionSlotsAreReference(c);
    } else if first == Some(4) {
      AnticoagulationIsReference(s);
    }
  }

  /** The sheet-variant chain is the editing and color-map converters'
      `if / elif` chain. */
  lemma SheetVariantChainIsReference(s: Shift, kind: DayKind)
    requires kind != Unclassified
    ensures ChainTimes(SheetVariantChain, s, kind) == SheetVariantReference(s.content, WeekdayText(s), kind == Holiday)
  {
    var c := s.content;
    SheetVariantFirst(c);
    var first := FirstFiring(SheetVariantChain, c, 0);
    if first == Some(2) {
      PrescriptionSlotsAreReference(c);
    } else if first == Some(3) {
      AnticoagulationIsReference(s);
    }
  }

  /** The desktop chain, with the day kind read from the weekday symbol, is
      the desktop converter's `if / elif` chain. */
  lemma DesktopChainIsReference(s: Shift)
    ensures ChainTimes(DesktopChain, s, KindOf(ByWeekday, s)) == DesktopReference(s.content, WeekdayText(s))
  {
    var c := s.content;
    DesktopFirst(c);
    var first := FirstFiring(DesktopChain, c, 0);
    if first == Some(2) {
      PrescriptionSlotsAreReference(c);
    } else if first == Some(3) {
      AnticoagulationIsReference(s);
    } else if first == Some(4) || first == Some(5) {
      MorningSlot(c);
    }
  }

  /* ---------------------------------------------------------------------
     How the chains differ
     --------------------------------------------------------------------- */

  /** The PreESRD-morning rule never fires first: every label that names
      PreESRD is already taken by the prescription rule before it. */
  lemma PreEsrdMorningUnreachable(content: string)
    ensures FirstFiring(SheetVariantChain, content, 0) != Some(5)
    ensures FirstFiring(DesktopChain, content, 0) != Some(5)
  {
    SheetVariantFirst(content);
    DesktopFirst(content);
    if Contains(content, "PreESRD") {
      assert PrescriptionShift(content);
    }
  }

  /** Apart from the 中2藥局 rule the canonical and sheet-variant chains set
      the same times: the PreESRD-morning rule is dead. */
  lemma SheetVariantAgreesWithCanonical(s: Shift, kind: DayKind)
    requires !Contains(s.content, "中2藥局")
    ensures ChainTimes(SheetVariantChain, s, kind) == ChainTimes(CanonicalChain, s, kind)
  {
    SheetVariantFirst(s.content);
    CanonicalFirst(s.content);
    if Contains(s.content, "PreESRD") {
      assert PrescriptionShift(s.content);
    }
  }

  /** A 中2藥局 label that no earlier rule takes: the canonical converter
      reads its bracketed times ... */
  lemma SecondCentralPharmacyCanonical(s: Shift, kind: DayKind)
    requires Contains(s.content, "中2藥局")
    requires !Contains(s.content, "調劑複核") && !Contains(s.content, "門診藥局調劑")
    ensures ChainTimes(CanonicalChain, s, kind) == Bracket(s.content)
  {
    CanonicalFirst(s.content);
  }

  /** ... while the sheet variants set nothing when no later rule fires. */
  lemma SecondCentralPharmacySheetVariant(s: Shift, kind: DayKind)
    requires Contains(s.content, "中2藥局")
    requires !Contains(s.content, "調劑複核") && !Contains(s.content, "門診藥局調劑") && !PrescriptionShift(s.content)
    requires !Contains(s.content, "抗凝藥師門診") && !Contains(s.content, "移植藥師門診")
    requires !Contains(s.content, "中藥局調劑") && !Contains(s.content, "瑞德西偉審核")
    ensures ChainTimes(SheetVariantChain, s, kind) == None
  {
    SheetVariantFirst(s.content);
  }

  /** A transplant-clinic label without 上午 stops the desktop chain with no
      times, while the sheet variants go on to the later rules. */
  lemma TransplantWithoutMorning(s: Shift, kind: DayKind)
    requires Contains(s.content, "移植藥師門診") && !Contains(s.content, "上午")
    requires Contains(s.content, "中藥局調劑")
    requires !Contains(s.content, "調劑複核") && !Contains(s.content, "門診藥局調劑")
    requires !PrescriptionShift(s.content) && !Contains(s.content, "抗凝藥師門診")
    ensures ChainTimes(DesktopChain, s, kind) == None
    ensures ChainTimes(SheetVariantChain, s, kind) == Some(ClinicMorning)
  {
    SheetVariantFirst(s.content);
    DesktopFirst(s.content);
    MorningSlot(s.content);
  }

  /** Otherwise the desktop chain sets what the sheet variants set, given
      the same day kind. */
  lemma DesktopAgreesWithSheetVariants(s: Shift, kind: DayKind)
    requires !Contains(s.content, "移植藥師門診") || Contains(s.content, "上午")
    ensures ChainTimes(DesktopChain, s, kind) == ChainTimes(SheetVariantChain, s, kind)
  {
    SheetVariantFirst(s.content);
    DesktopFirst(s.content);
    if Contains(s.content, "PreESRD") {
      assert PrescriptionShift(s.content);
    }
  }

  /* ---------------------------------------------------------------------
     Worked examples
     --------------------------------------------------------------------- */

  /** 調劑複核 is 13:30-15:00 on a workday and 11:00-15:00 on a holiday, and
      the on-call override leaves it alone. */
  lemma DispensingReviewExample(s: Shift)
    requires s.content == "調劑複核"
    ensures AssignedTimes(CanonicalChain, s, Workday) == Times("13:30", "15:00")
    ensures AssignedTimes(CanonicalChain, s, Holiday) == Times("11:00", "15:00")
  {
    assert OccursAt(s.content, "調劑複核", 0);
    ContainsIffOccurs(s.content, "調劑複核");
    CanonicalFirst(s.content);
    AbsentCharNotContained(s.content, OnCall, '非');
  }

  /** Every chain gives an outpatient dispensing label that is not a
      dispensing review the times of its first annotation. */
  lemma OutpatientTakesBracket(s: Shift, kind: DayKind)
    requires Contains(s.content, "門診藥局調劑") && !Contains(s.content, "調劑複核")
    ensures ChainTimes(CanonicalChain, s, kind) == Bracket(s.content)
    ensures ChainTimes(SheetVariantChain, s, kind) == Bracket(s.content)
    ensures ChainTimes(DesktopChain, s, kind) == Bracket(s.content)
  {
    CanonicalFirst(s.content);
    SheetVariantFirst(s.content);
    DesktopFirst(s.content);
  }

  /** "門診藥局調劑(09:00-11:00)" takes the times of its annotation, in
      every chain. */
  lemma OutpatientDispensingExample(s: Shift, kind: DayKind)
    requires s.content == "門診藥局調劑(09:00-11:00)"
    ensures ChainTimes(CanonicalChain, s, kind) == Some(Times("09:00", "11:00"))
    ensures ChainTimes(SheetVariantChain, s, kind) == Some(Times("09:00", "11:00"))
    ensures ChainTimes(DesktopChain, s, kind) == Some(Times("09:00", "11:00"))
  {
    var c := s.content;
    Normalize.OutpatientLabelExample(c);
    Normalize.OutpatientKeywords(c);
    OutpatientTakesBracket(s, kind);
  }

  /* ---------------------------------------------------------------------
     Facts the engine lemmas need
     --------------------------------------------------------------------- */

  /* Each keyword has a character the on-call label lacks. One lemma per
     keyword: proving several of these facts together makes the solver
     evaluate the searches on the two constant strings. */
  lemma OnCallLacksReview() ensures !Contains(OnCall, "調劑複核") { AbsentCharNotContained(OnCall, "調劑複核", '調'); }
  lemma OnCallLacksOutpatient() ensures !Contains(OnCall, "門診藥局調劑") { AbsentCharNotContained(OnCall, "門診藥局調劑", '門'); }
  lemma OnCallLacksSecondCentral() ensures !Contains(OnCall, "中2藥局") { AbsentCharNotContained(OnCall, "中2藥局", '中'); }
  lemma OnCallLacksPrescription() ensures !Contains(OnCall, "處方判讀") { AbsentCharNotContained(OnCall, "處方判讀", '處'); }
  lemma OnCallLacksChemotherapy() ensures !Contains(OnCall, "化療處方判讀") { AbsentCharNotContained(OnCall, "化療處方判讀", '化'); }
  lemma OnCallLacksConsultation() ensures !Contains(OnCall, "藥物諮詢") { AbsentCharNotContained(OnCall, "藥物諮詢", '物'); }
  lemma OnCallLacksPreEsrd() ensures !Contains(OnCall, "PreESRD") { AbsentCharNotContained(OnCall, "PreESRD", 'P'); }
  lemma OnCallLacksAnticoagulation() ensures !Contains(OnCall, "抗凝藥師門診") { AbsentCharNotContained(OnCall, "抗凝藥師門診", '抗'); }
  lemma OnCallLacksTransplant() ensures !Contains(OnCall, "移植藥師門診") { AbsentCharNotContained(OnCall, "移植藥師門診", '移'); }
  lemma OnCallLacksHerbal() ensures !Contains(OnCall, "中藥局調劑") { AbsentCharNotContained(OnCall, "中藥局調劑", '中'); }
  lemma OnCallLacksRemdesivir() ensures !Contains(OnCall, "瑞德西偉審核") { AbsentCharNotContained(OnCall, "瑞德西偉審核", '瑞'); }

  /** No rule of any chain fires on the on-call label, so an added on-call
      record is left alone by a second run. */
  lemma ChainsQuietOnCall()
    ensures QuietOnCall(CanonicalChain)
    ensures QuietOnCall(SheetVariantChain)
    ensures QuietOnCall(DesktopChain)
  {
    OnCallLacksReview();
    OnCallLacksOutpatient();
    OnCallLacksSecondCentral();
    OnCallLacksPrescription();
    OnCallLacksChemotherapy();
    OnCallLacksConsultation();
    OnCallLacksPreEsrd();
    OnCallLacksAnticoagulation();
    OnCallLacksTransplant();
    OnCallLacksHerbal();
    OnCallLacksRemdesivir();
    CanonicalFirst(OnCall);
    SheetVariantFirst(OnCall);
    DesktopFirst(OnCall);
  }

  /** Every time a chain writes is an `h:mm` reading. */
  lemma RulesTimed()
    ensures EffectTimed(DispensingReview.effect) && EffectTimed(OutpatientDispensing.effect)
    ensures EffectTimed(SecondCentralPharmacy.effect) && EffectTimed(PrescriptionReview.effect)
    ensures EffectTimed(AnticoagulationClinic.effect) && EffectTimed(TransplantMorning.effect)
    ensures EffectTimed(PreEsrdMorning.effect) && EffectTimed(TransplantClinic.effect)
    ensures EffectTimed(PreEsrdClinic.effect) && EffectTimed(HerbalDispensing.effect)
    ensures EffectTimed(RemdesivirReview.effect)
  {
    assert ClockTimes(ClinicMorning);
    assert SlotsTimed(PrescriptionSlots) by {
      assert ClockTimes(PrescriptionSlots[0].times) && ClockTimes(PrescriptionSlots[1].times);
      assert ClockTimes(PrescriptionSlots[2].times) && ClockTimes(PrescriptionSlots[3].times);
    }
  }

  lemma ChainsTimed()
    ensures ChainTimed(CanonicalChain)
    ensures ChainTimed(SheetVariantChain)
    ensures ChainTimed(DesktopChain)
  {
    RulesTimed();
  }
}
