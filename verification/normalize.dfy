/**
 The shift-label normaliser: the time annotation pattern
 \(\d{1,2}:\d{2}-\d{1,2}:\d{2}\) (searched, and removed as `re.sub` does),
 then the abbreviation table applied pair by pair, in table order, as
 literal `str.replace` calls, skipping pairs with a missing side.
 */
module Normalize {
  import opened Outcomes
  import opened Text

  /* ---------------------------------------------------------------------
     Clock texts and the bracketed time annotation
     --------------------------------------------------------------------- */

  /** t spells `\d{1,2}:\d{2}`, e.g. "9:00" or "09:00". */
  predicate IsClock(t: string) {
    || (|t| == 4 && IsDigit(t[0]) && t[1] == ':' && IsDigit(t[2]) && IsDigit(t[3]))
    || (|t| == 5 && IsDigit(t[0]) && IsDigit(t[1]) && t[2] == ':' && IsDigit(t[3]) && IsDigit(t[4]))
  }

  /** `\d{1,2}:\d{2}` matched at j: two hour digits if they work, else one. */
  function ClockAt(s: string, j: nat): (r: Option<string>)
    ensures r.Some? ==> IsClock(r.value) && OccursAt(s, r.value, j)
  {
    if j + 5 <= |s| && IsClock(s[j..j + 5]) then Some(s[j..j + 5])
    else if j + 4 <= |s| && IsClock(s[j..j + 4]) then Some(s[j..j + 4])
    else None
  }

  /** Any clock spelled at j is the one the matcher returns: the second
      character decides between one and two hour digits. */
  lemma ClockAtComplete(s: string, j: nat, t: string)
    requires IsClock(t) && OccursAt(s, t, j)
    ensures ClockAt(s, j) == Some(t)
  {
    assert s[j..j + |t|] == t;
    if |t| == 4 {
      assert s[j + 1] == ':';
      if j + 5 <= |s| {
        assert !IsClock(s[j..j + 5]);
      }
    }
  }

  /** The two times of an annotation, as written. */
  datatype TimeMatch = TimeMatch(start: string, end: string)

  /** "(" start "-" end ")". */
  function BracketText(m: TimeMatch): string {
    "(" + m.start + "-" + m.end + ")"
  }

  /** The annotation pattern matched at position i. */
  function TimeAt(s: string, i: nat): (r: Option<TimeMatch>)
    ensures r.Some? ==> IsClock(r.value.start) && IsClock(r.value.end)
    ensures r.Some? ==> i + 3 + |r.value.start| + |r.value.end| <= |s|
  {
    if i < |s| && s[i] == '(' then
      match ClockAt(s, i + 1)
      case None => None
      case Some(a) =>
        var j := i + 1 + |a|;
        if j < |s| && s[j] == '-' then
          match ClockAt(s, j + 1)
          case None => None
          case Some(b) =>
            var k := j + 1 + |b|;
            if k < |s| && s[k] == ')' then Some(TimeMatch(a, b)) else None
        else None
    else None
  }

  /** What the matcher finds is spelled at i. */
  lemma TimeAtSound(s: string, i: nat)
    requires TimeAt(s, i).Some?
    ensures OccursAt(s, BracketText(TimeAt(s, i).value), i)
  {
    var m := TimeAt(s, i).value;
    var j := i + 1 + |m.start|;
    var k := j + 1 + |m.end|;
    assert s[i + 1..j] == m.start && s[j + 1..k] == m.end;
    assert s[i..k + 1] == "(" + m.start + "-" + m.end + ")";
  }

  /** The pieces of an annotation spelled at i. */
  lemma BracketSpelled(s: string, i: nat, m: TimeMatch)
    requires OccursAt(s, BracketText(m), i)
    ensures var j := i + 1 + |m.start|; var k := j + 1 + |m.end|;
      && k < |s| && s[i] == '(' && s[j] == '-' && s[k] == ')'
      && OccursAt(s, m.start, i + 1) && OccursAt(s, m.end, j + 1)
  {
    var w := BracketText(m);
    var j := i + 1 + |m.start|;
    var k := j + 1 + |m.end|;
    var a := "(" + m.start;
    var b := a + "-" + m.end;
    assert w == b + ")";
    assert s[i..i + |w|] == w;
    assert w[..|b|] == b && b[..|a|] == a;
    assert s[i..k] == s[i..i + |w|][..|b|] == b;
    assert s[i..j] == s[i..k][..|a|] == a;
    assert s[i + 1..j] == a[1..] == m.start;
    assert s[j + 1..k] == b[|a| + 1..] == m.end;
  }

  /** Whatever annotation is spelled at i is the one the matcher returns. */
  lemma TimeAtComplete(s: string, i: nat, m: TimeMatch)
    requires IsClock(m.start) && IsClock(m.end) && OccursAt(s, BracketText(m), i)
    ensures TimeAt(s, i) == Some(m)
  {
    BracketSpelled(s, i, m);
    ClockAtComplete(s, i + 1, m.start);
    ClockAtComplete(s, i + 1 + |m.start| + 1, m.end);
  }

  /** Length of the text an annotation occupies. */
  function MatchLength(m: TimeMatch): (n: nat)
    ensures n == |BracketText(m)|
  {
    3 + |m.start| + |m.end|
  }

  /** `re.search` from position `from`: the leftmost annotation. */
  function FirstTime(s: string, from: nat): (r: Option<(nat, TimeMatch)>)
    requires from <= |s|
    ensures r.Some? ==> from <= r.value.0 < |s| && TimeAt(s, r.value.0) == Some(r.value.1)
    ensures r.Some? ==> forall j :: from <= j < r.value.0 ==> TimeAt(s, j).None?
    ensures r.None? ==> forall j :: from <= j <= |s| ==> TimeAt(s, j).None?
    decreases |s| - from
  {
    if from == |s| then None
    else
      match TimeAt(s, from)
      case Some(m) => Some((from, m))
      case None => FirstTime(s, from + 1)
  }

  /** An annotation starts with '(' : a text without '(' has none. */
  lemma NoParenNoTime(s: string, from: nat)
    requires from <= |s| && forall j :: from <= j < |s| ==> s[j] != '('
    ensures FirstTime(s, from).None?
  {
  }

  /* ---------------------------------------------------------------------
     Removing annotations: `re.sub(pattern, "", s)`
     --------------------------------------------------------------------- */

  /** The matches of a pattern in s, given as the length of the match
      starting at each position (0 where none starts); every match stays
      inside s. */
  ghost predicate Spans(s: string, span: nat -> nat) {
    forall j :: 0 <= j < |s| ==> j + span(j) <= |s|
  }

  /** The substitution scan from position i: where a match starts it is
      dropped whole and scanning resumes after it; otherwise the character
      is kept. */
  function DropFrom(s: string, span: nat -> nat, i: nat): (r: string)
    requires i <= |s| && Spans(s, span)
    ensures |r| <= |s| - i
    decreases |s| - i
  {
    if i == |s| then ""
    else if span(i) > 0 then DropFrom(s, span, i + span(i))
    else [s[i]] + DropFrom(s, span, i + 1)
  }

  /** The leftmost match at or after i, or |s| when there is none. */
  function NextMatch(s: string, span: nat -> nat, i: nat): (p: nat)
    requires i <= |s|
    ensures i <= p <= |s|
    ensures p < |s| ==> span(p) > 0
    ensures forall j :: i <= j < p ==> span(j) == 0
    decreases |s| - i
  {
    if i == |s| || span(i) > 0 then i else NextMatch(s, span, i + 1)
  }

  /** `re.sub` as documented: search the leftmost match, copy the text
      before it, drop it, and search again after it. */
  function DropBySearch(s: string, span: nat -> nat, i: nat): string
    requires i <= |s| && Spans(s, span)
    decreases |s| - i
  {
    var p := NextMatch(s, span, i);
    if p == |s| then s[i..] else s[i..p] + DropBySearch(s, span, p + span(p))
  }

  /** The search-and-drop loop drops a match at its start position. */
  lemma SearchAtMatch(s: string, span: nat -> nat, i: nat)
    requires i < |s| && Spans(s, span) && span(i) > 0
    ensures DropBySearch(s, span, i) == DropBySearch(s, span, i + span(i))
  {
    assert NextMatch(s, span, i) == i;
    assert s[i..i] == [];
  }

  /** Where no match starts, the search-and-drop loop copies the character
      and goes on from the next one. */
  lemma SearchStepsOver(s: string, span: nat -> nat, i: nat)
    requires i < |s| && Spans(s, span) && span(i) == 0
    ensures DropBySearch(s, span, i) == [s[i]] + DropBySearch(s, span, i + 1)
  {
    var p := NextMatch(s, span, i + 1);
    assert NextMatch(s, span, i) == p;
    if p == |s| {
      assert s[i..] == [s[i]] + s[i + 1..];
    } else {
      var rest := DropBySearch(s, span, p + span(p));
      assert s[i..p] == [s[i]] + s[i + 1..p];
      assert [s[i]] + (s[i + 1..p] + rest) == ([s[i]] + s[i + 1..p]) + rest;
    }
  }

  /** Every left-to-right, non-overlapping match is removed and nothing
      else is: the scan equals the search-and-drop loop. */
  lemma {:induction false} DropRemovesEachLeftmostMatch(s: string, span: nat -> nat, i: nat)
    requires i <= |s| && Spans(s, span)
    ensures DropFrom(s, span, i) == DropBySearch(s, span, i)
    decreases |s| - i
  {
    if i == |s| {
      assert NextMatch(s, span, i) == i;
    } else if span(i) > 0 {
      DropRemovesEachLeftmostMatch(s, span, i + span(i));
      SearchAtMatch(s, span, i);
    } else {
      DropRemovesEachLeftmostMatch(s, span, i + 1);
      SearchStepsOver(s, span, i);
    }
  }

  /** With no match from i on, the rest of the text is kept as it is. */
  lemma {:induction false} DropWithoutMatch(s: string, span: nat -> nat, i: nat)
    requires i <= |s| && Spans(s, span)
    requires forall j :: i <= j < |s| ==> span(j) == 0
    ensures DropFrom(s, span, i) == s[i..]
    decreases |s| - i
  {
    if i < |s| {
      DropWithoutMatch(s, span, i + 1);
      assert s[i..] == [s[i]] + s[i + 1..];
    }
  }

  /** A text holding a single match from i on loses exactly that match. */
  lemma DropOneMatch(s: string, span: nat -> nat, i: nat, p: nat)
    requires i <= p < |s| && Spans(s, span) && span(p) > 0
    requires forall j :: i <= j < p ==> span(j) == 0
    requires forall j :: p + span(p) <= j < |s| ==> span(j) == 0
    ensures DropFrom(s, span, i) == s[i..p] + s[p + span(p)..]
  {
    var q := p + span(p);
    DropRemovesEachLeftmostMatch(s, span, i);
    assert NextMatch(s, span, i) == p;
    assert NextMatch(s, span, q) == |s|;
  }

  /** Length of the annotation starting at i, 0 when none does. */
  function TimeSpan(s: string, i: nat): (n: nat)
    ensures n > 0 <==> TimeAt(s, i).Some?
    ensures i + n <= |s| || n == 0
  {
    match TimeAt(s, i)
    case None => 0
    case Some(m) => MatchLength(m)
  }

  /** The annotations of s, as spans. */
  function TimeSpans(s: string): (span: nat -> nat)
    ensures Spans(s, span)
    ensures forall j :: span(j) == TimeSpan(s, j)
  {
    j => TimeSpan(s, j)
  }

  /** `re.sub(pattern, "", s)` for the annotation pattern. */
  function StripTimes(s: string): (r: string)
    ensures |r| <= |s|
  {
    DropFrom(s, TimeSpans(s), 0)
  }

  /** Every annotation found left to right by `re.search` is removed, and
      nothing else is. */
  lemma StripRemovesEachLeftmostMatch(s: string)
    ensures StripTimes(s) == DropBySearch(s, TimeSpans(s), 0)
  {
    DropRemovesEachLeftmostMatch(s, TimeSpans(s), 0);
  }

  /** The leftmost match the search-and-drop loop looks for is the one
      `re.search` returns. */
  lemma NextMatchIsFirstTime(s: string, i: nat)
    requires i <= |s|
    ensures NextMatch(s, TimeSpans(s), i) < |s| <==> FirstTime(s, i).Some?
    ensures FirstTime(s, i).Some? ==> FirstTime(s, i).value.0 == NextMatch(s, TimeSpans(s), i)
  {
    var span := TimeSpans(s);
    var p := NextMatch(s, span, i);
    var f := FirstTime(s, i);
    if f.Some? {
      var q := f.value.0;
      assert span(q) == TimeSpan(s, q) > 0;
    }
  }

  /** A label without annotation is left as it is. */
  lemma StripWithoutAnnotation(s: string)
    requires FirstTime(s, 0).None?
    ensures StripTimes(s) == s
  {
    DropWithoutMatch(s, TimeSpans(s), 0);
  }

  /** Removal is not a guarantee that no annotation remains: a nested
      annotation, once its inner match is removed, leaves a new one. */
  lemma NestedAnnotationSurvives(s: string)
    requires s == "((1:00-2:00)1:00-2:00)"
    ensures StripTimes(s) == "(1:00-2:00)"
    ensures TimeAt(StripTimes(s), 0) == Some(TimeMatch("1:00", "2:00"))
  {
    NestedSpelling(s);
    NestedShapeStripped(s);
    AnnotationAlone("(1:00-2:00)");
  }

  /** The letters of the nested example that the matcher looks at. */
  lemma NestedSpelling(s: string)
    requires s == "((1:00-2:00)1:00-2:00)"
    ensures |s| == 22 && s[1] == '('
    ensures OccursAt(s, BracketText(TimeMatch("1:00", "2:00")), 1)
    ensures forall j :: 12 <= j < |s| ==> s[j] != '('
    ensures s[0..1] + s[12..] == "(1:00-2:00)"
  {
    assert s[1..12] == BracketText(TimeMatch("1:00", "2:00"));
  }

  /** An opening bracket right after another cannot start an annotation at
      the first one: no hour digit follows it. */
  lemma ParenThenParen(s: string, i: nat)
    requires i + 1 < |s| && s[i + 1] == '('
    ensures TimeAt(s, i).None?
  {
    assert ClockAt(s, i + 1).None? by {
      assert !IsDigit(s[i + 1]);
    }
  }

  /** Any text shaped like the nested example loses only its inner
      annotation. */
  lemma NestedShapeStripped(s: string)
    requires |s| == 22 && s[1] == '('
    requires OccursAt(s, BracketText(TimeMatch("1:00", "2:00")), 1)
    requires forall j :: 12 <= j < |s| ==> s[j] != '('
    ensures StripTimes(s) == s[0..1] + s[12..]
  {
    var span := TimeSpans(s);
    ParenThenParen(s, 0);
    TimeAtComplete(s, 1, TimeMatch("1:00", "2:00"));
    assert span(1) == 11;
    DropOneMatch(s, span, 0, 1);
  }

  lemma AnnotationAlone(r: string)
    requires r == "(1:00-2:00)"
    ensures TimeAt(r, 0) == Some(TimeMatch("1:00", "2:00"))
  {
    var m := TimeMatch("1:00", "2:00");
    assert OccursAt(r, BracketText(m), 0) by {
      assert r[0..11] == BracketText(m);
    }
    TimeAtComplete(r, 0, m);
  }

  /** A label whose only '(' opens an annotation that ends the label: the
      search finds that annotation and removal keeps the text before it. */
  lemma TrailingAnnotation(s: string, p: nat, m: TimeMatch)
    requires IsClock(m.start) && IsClock(m.end)
    requires p + MatchLength(m) == |s| && OccursAt(s, BracketText(m), p)
    requires forall j :: 0 <= j < p ==> s[j] != '('
    ensures FirstTime(s, 0) == Some((p, m))
    ensures StripTimes(s) == s[..p]
  {
    TimeAtComplete(s, p, m);
    assert forall j :: 0 <= j < p ==> TimeAt(s, j).None?;
    var span := TimeSpans(s);
    assert span(p) == |s| - p;
    DropOneMatch(s, span, 0, p);
  }

  /** The letters of the outpatient example that the matcher looks at. */
  lemma OutpatientSpelling(s: string)
    requires s == "門診藥局調劑(09:00-11:00)"
    ensures |s| == 19 && s[..6] == "門診藥局調劑"
    ensures forall j :: 0 <= j < 6 ==> s[j] != '('
    ensures OccursAt(s, BracketText(TimeMatch("09:00", "11:00")), 6)
  {
    assert s[6..19] == BracketText(TimeMatch("09:00", "11:00"));
  }

  /** The outpatient example names outpatient dispensing and not the
      dispensing review. */
  lemma OutpatientKeywords(s: string)
    requires s == "門診藥局調劑(09:00-11:00)"
    ensures Contains(s, "門診藥局調劑") && !Contains(s, "調劑複核")
  {
    assert OccursAt(s, "門診藥局調劑", 0);
    ContainsIffOccurs(s, "門診藥局調劑");
    AbsentCharNotContained(s, "調劑複核", '複');
  }

  /** "門診藥局調劑(09:00-11:00)": the annotation found is 09:00-11:00, and
      the label shown without it is "門診藥局調劑". */
  lemma OutpatientLabelExample(s: string)
    requires s == "門診藥局調劑(09:00-11:00)"
    ensures FirstTime(s, 0) == Some((6, TimeMatch("09:00", "11:00")))
    ensures StripTimes(s) == "門診藥局調劑"
  {
    OutpatientSpelling(s);
    TrailingAnnotation(s, 6, TimeMatch("09:00", "11:00"));
  }

  /* ---------------------------------------------------------------------
     Abbreviation table
     --------------------------------------------------------------------- */

  /** One row of the abbreviation table; either side may be missing. */
  datatype AbbrevEntry = AbbrevEntry(key: Option<string>, value: Option<string>)

  predicate Complete(e: AbbrevEntry) {
    e.key.Some? && e.value.Some?
  }

  /** One row applied: a literal replace, or nothing for an incomplete row. */
  function ApplyEntry(s: string, e: AbbrevEntry): string {
    if Complete(e) then ReplaceAll(s, e.key.value, e.value.value) else s
  }

  /** The table applied row by row, in table order. */
  function Abbreviate(s: string, table: seq<AbbrevEntry>): string
    decreases |table|
  {
    if |table| == 0 then s else Abbreviate(ApplyEntry(s, table[0]), table[1..])
  }

  /** The complete rows of a table, in order. */
  function CompleteRows(table: seq<AbbrevEntry>): (t: seq<AbbrevEntry>)
    ensures forall k :: 0 <= k < |t| ==> Complete(t[k])
    ensures |t| <= |table|
  {
    if |table| == 0 then []
    else if Complete(table[0]) then [table[0]] + CompleteRows(table[1..])
    else CompleteRows(table[1..])
  }

  /** Rows with a missing key or value change nothing: the table acts as
      its complete rows alone. */
  lemma {:induction false} IncompleteRowsSkipped(s: string, table: seq<AbbrevEntry>)
    ensures Abbreviate(s, table) == Abbreviate(s, CompleteRows(table))
    decreases |table|
  {
    if |table| > 0 {
      IncompleteRowsSkipped(ApplyEntry(s, table[0]), table[1..]);
      if Complete(table[0]) {
        var t := [table[0]] + CompleteRows(table[1..]);
        assert t[1..] == CompleteRows(table[1..]);
      } else {
        IncompleteRowsSkipped(s, table[1..]);
      }
    }
  }

  /** Table order is application order: a table split in two acts as its
      first part followed by its second. */
  lemma {:induction false} AbbreviateInOrder(s: string, t1: seq<AbbrevEntry>, t2: seq<AbbrevEntry>)
    ensures Abbreviate(s, t1 + t2) == Abbreviate(Abbreviate(s, t1), t2)
    decreases |t1|
  {
    if |t1| > 0 {
      assert (t1 + t2)[0] == t1[0] && (t1 + t2)[1..] == t1[1..] + t2;
      AbbreviateInOrder(ApplyEntry(s, t1[0]), t1[1..], t2);
    } else {
      assert t1 + t2 == t2;
    }
  }

  /** A row whose key is not in the label leaves the label unchanged. */
  lemma AbsentKeyNoEffect(s: string, e: AbbrevEntry)
    requires Complete(e) && |e.key.value| > 0 && !Contains(s, e.key.value)
    ensures ApplyEntry(s, e) == s
  {
    ReplaceAbsent(s, e.key.value, e.value.value);
  }

  /** Display label: annotations removed first, then the table applied. */
  function DisplayLabel(raw: string, table: seq<AbbrevEntry>): string {
    Abbreviate(StripTimes(raw), table)
  }

  function Row(k: string, v: string): AbbrevEntry {
    AbbrevEntry(Some(k), Some(v))
  }

  /** The default table of the canonical converter. */
  const CanonicalDefaults: seq<AbbrevEntry> := [
    Row("調劑複核", "C"), Row("處方判讀", "判讀"), Row("藥物諮詢", "諮詢"),
    Row("門診藥局調劑", "門診"), Row("中正 2樓", "中2"), Row("中正13樓", "中13"),
    Row("思源樓", "思源"), Row("長青樓", "長青"), Row("抗凝藥師門診", "抗凝門診"),
    Row("移植藥師門診", "移植門診"), Row("中藥局調劑", "中藥局"),
    Row("非常班之諮詢與藥動服務", "假日oncall")
  ]

  /** The default table of the editable-table fill-colour converter. */
  const EditableDefaults: seq<AbbrevEntry> := [
    Row("調劑複核", "C"), Row("處方判讀", "判讀"), Row("化療處方判讀", "化療判讀"),
    Row("藥物諮詢", "諮詢"), Row("門診藥局調劑", "門診"), Row("抗凝藥師門診", "抗凝門診"),
    Row("移植藥師門診", "移植門診"), Row("中藥局調劑", "中藥局")
  ]

  /** The desktop and older fill-colour converters only abbreviate
      調劑複核 to C. */
  const FixedTable: seq<AbbrevEntry> := [Row("調劑複核", "C")]

  /** With the fixed table the display label is the stripped label with
      調劑複核 replaced by C. */
  lemma FixedTableLabel(raw: string)
    ensures DisplayLabel(raw, FixedTable) == ReplaceAll(StripTimes(raw), "調劑複核", "C")
  {
  }
}
