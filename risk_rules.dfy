/**
  Rule-based labelling of one day of wearable vitals (data/build_health_risk_dataset.py):
  a decision table that maps heart rate, SpO2, intensity, sleep and steps to a
  risk level (green, yellow, red) with a fixed recommendation; the rendering of
  the same vitals as one sentence for the text classifier; and the assembly of
  the training rows (one per day, then the hand-written synthetic rows).
 */
module RiskRules {
  import opened Wrappers
  import opened Strings
  import opened SeqStats

  datatype Risk = Green | Yellow | Red

  /** Severity order: green < yellow < red. */
  function Severity(r: Risk): nat {
    match r
    case Green => 0
    case Yellow => 1
    case Red => 2
  }

  function RiskName(r: Risk): string {
    match r
    case Green => "green"
    case Yellow => "yellow"
    case Red => "red"
  }

  const GreenAdvice := "Continue normal activity. Stay hydrated."
  const YellowAdvice := "Monitor vital signs. Consider rest and hydration soon."
  const RedAdvice := "Heat stress or fatigue risk. Rest and rehydrate. Seek shade. Recommend rest in 10 min."

  /** `_rec_green`, `_rec_yellow`, `_rec_red`. */
  function Recommendation(r: Risk): (t: string)
    ensures t in {GreenAdvice, YellowAdvice, RedAdvice}
  {
    match r
    case Green => GreenAdvice
    case Yellow => YellowAdvice
    case Red => RedAdvice
  }

  /** Different risks get different advice, so the advice identifies the risk. */
  lemma RecommendationInjective(a: Risk, b: Risk)
    ensures Recommendation(a) == Recommendation(b) <==> a == b
  {
    if a != b {
      assert Recommendation(a)[0] != Recommendation(b)[0] || |Recommendation(a)| != |Recommendation(b)|;
    }
  }

  /** One cell of a daily-summary row: the column is missing, the cell is NaN, or it holds a number. */
  datatype Cell = Absent | NaN | Num(n: int)

  /** The columns of health_daily_summary.csv that the rules and the text read. */
  datatype Vitals = Vitals(
    hrAvg: Cell, hrMax: Cell, hrResting: Cell, spo2: Cell,
    steps: Cell, intensity: Cell, calories: Cell, sleep: Cell)

  // ---------------------------------------------------------------- decision table

  /**
    `float(row.get(col) or 0)`: a missing column reads as 0; a NaN cell is
    truthy and stays NaN (None here), and every comparison with it is false.
   */
  function AsFloat(c: Cell): Option<int> {
    match c
    case Absent => Some(0)
    case NaN => None
    case Num(n) => Some(n)
  }

  predicate Gt(x: Option<int>, c: int) { x.Some? && x.value > c }
  predicate Ge(x: Option<int>, c: int) { x.Some? && x.value >= c }
  predicate Lt(x: Option<int>, c: int) { x.Some? && x.value < c }
  predicate Le(x: Option<int>, c: int) { x.Some? && x.value <= c }

  /** `(x or 0) <= 0` on a cell: missing, or a number at most 0; a NaN cell never passes. */
  predicate AtMostZero(c: Cell) {
    c.Absent? || (c.Num? && c.n <= 0)
  }

  /** The early "no data" test: heart rate, SpO2 and intensity all at most 0. */
  predicate NoData(v: Vitals): (b: bool)
    ensures b <==> AtMostZero(v.hrAvg) && AtMostZero(v.hrMax) && AtMostZero(v.spo2) && AtMostZero(v.intensity)
  {
    Le(AsFloat(v.hrAvg), 0) && Le(AsFloat(v.hrMax), 0) && Le(AsFloat(v.spo2), 0) && Le(AsFloat(v.intensity), 0)
  }

  /** Severe strain: any of the red conditions. */
  predicate RedSign(v: Vitals): (b: bool)
    ensures b ==> !NoData(v)
  {
    var hrAvg, hrMax, spo2 := AsFloat(v.hrAvg), AsFloat(v.hrMax), AsFloat(v.spo2);
    var intensity, sleep := AsFloat(v.intensity), AsFloat(v.sleep);
    || Gt(hrAvg, 100) || Gt(hrMax, 120)
    || (Gt(spo2, 0) && Lt(spo2, 90))
    || (Gt(intensity, 45) && Lt(sleep, 30))
  }

  /** Elevated strain: any of the yellow conditions. */
  predicate YellowSign(v: Vitals): (b: bool)
    ensures b ==> !NoData(v)
  {
    var hrAvg, hrMax, spo2 := AsFloat(v.hrAvg), AsFloat(v.hrMax), AsFloat(v.spo2);
    var intensity, sleep, steps := AsFloat(v.intensity), AsFloat(v.sleep), AsFloat(v.steps);
    || (Gt(hrAvg, 85) && Le(hrAvg, 100)) || (Gt(hrMax, 100) && Le(hrMax, 120))
    || (Ge(spo2, 90) && Lt(spo2, 95) && Gt(spo2, 0))
    || (Gt(intensity, 20) && Lt(sleep, 60))
    || (Gt(steps, 5000) && Gt(hrAvg, 80) && Lt(sleep, 300))
  }

  /** `assign_risk_and_recommendation`: the risk level and its advice. */
  function AssignRisk(v: Vitals): (r: (Risk, string))
    ensures r.1 == Recommendation(r.0)
  {
    if NoData(v) then (Green, GreenAdvice)
    else
      var risk := if RedSign(v) then Red else if YellowSign(v) then Yellow else Green;
      var rec := if risk == Red then RedAdvice else if risk == Yellow then YellowAdvice else GreenAdvice;
      (risk, rec)
  }

  /** With no heart rate, SpO2 or intensity above 0 the day is green, whatever steps and sleep say. */
  lemma NoDataIsGreen(v: Vitals, steps: Cell, sleep: Cell)
    requires NoData(v)
    ensures AssignRisk(v.(steps := steps, sleep := sleep)) == (Green, GreenAdvice)
  {
  }

  /** The "no data" early return never changes the outcome: no red or yellow sign can hold then. */
  lemma NoDataGuardRedundant(v: Vitals)
    ensures AssignRisk(v).0 == (if RedSign(v) then Red else if YellowSign(v) then Yellow else Green)
  {
  }

  /** A day is red exactly when one of the red conditions holds. */
  lemma RedExactly(v: Vitals)
    ensures AssignRisk(v).0 == Red <==> RedSign(v)
    ensures AssignRisk(v).0 == Red <==>
      (|| Gt(AsFloat(v.hrAvg), 100) || Gt(AsFloat(v.hrMax), 120)
       || (Gt(AsFloat(v.spo2), 0) && Lt(AsFloat(v.spo2), 90))
       || (Gt(AsFloat(v.intensity), 45) && Lt(AsFloat(v.sleep), 30)))
  {
    NoDataGuardRedundant(v);
  }

  /** A day is yellow exactly when no red condition and some yellow condition holds. */
  lemma YellowExactly(v: Vitals)
    ensures AssignRisk(v).0 == Yellow <==> !RedSign(v) && YellowSign(v)
    ensures AssignRisk(v).0 == Green <==> !RedSign(v) && !YellowSign(v)
  {
    NoDataGuardRedundant(v);
  }

  /** A SpO2 of 0 (no reading) is the least alarming SpO2: any other SpO2 cell gives at least the same level. */
  lemma {:induction false} ZeroSpO2NeverRaises(v: Vitals, c: Cell)
    ensures Severity(AssignRisk(v.(spo2 := Num(0))).0) <= Severity(AssignRisk(v.(spo2 := c)).0)
  {
    NoDataGuardRedundant(v.(spo2 := Num(0)));
    NoDataGuardRedundant(v.(spo2 := c));
  }

  /** A higher average heart rate never lowers the risk level. */
  lemma {:induction false} HrAvgMonotone(v: Vitals, lo: int, hi: int)
    requires lo <= hi
    ensures Severity(AssignRisk(v.(hrAvg := Num(lo))).0) <= Severity(AssignRisk(v.(hrAvg := Num(hi))).0)
  {
    NoDataGuardRedundant(v.(hrAvg := Num(lo)));
    NoDataGuardRedundant(v.(hrAvg := Num(hi)));
  }

  /** Less sleep never lowers the risk level. */
  lemma {:induction false} SleepAntitone(v: Vitals, less: int, more: int)
    requires less <= more
    ensures Severity(AssignRisk(v.(sleep := Num(more))).0) <= Severity(AssignRisk(v.(sleep := Num(less))).0)
  {
    NoDataGuardRedundant(v.(sleep := Num(more)));
    NoDataGuardRedundant(v.(sleep := Num(less)));
  }

  /** Resting heart rate and calories are read but play no part in the decision. */
  lemma RestingAndCaloriesIgnored(v: Vitals, resting: Cell, calories: Cell)
    ensures AssignRisk(v.(hrResting := resting, calories := calories)) == AssignRisk(v)
  {
  }

  // ---------------------------------------------------------------- text rendering

  const NoVitalsText := "No vital signs recorded."

  /** `pd.notna(x) and x > 0`. */
  predicate Positive(c: Cell) { c.Num? && c.n > 0 }

  predicate AnyPositive(v: Vitals) {
    || Positive(v.hrAvg) || Positive(v.hrMax) || Positive(v.hrResting) || Positive(v.spo2)
    || Positive(v.steps) || Positive(v.intensity) || Positive(v.calories) || Positive(v.sleep)
  }

  /** `sleep {h}h{m}m` for a positive number of minutes. */
  function SleepFragment(total: nat): string {
    "sleep " + NatToString(total / 60) + "h" + NatToString(total % 60) + "m"
  }

  /** The sleep fragment splits the minutes into whole hours and 0..59 remaining minutes. */
  lemma SleepFragmentSplitsMinutes(total: nat)
    ensures exists h: nat, m: nat ::
      SleepFragment(total) == "sleep " + NatToString(h) + "h" + NatToString(m) + "m"
      && h * 60 + m == total && m < 60
  {
    var h, m := total / 60, total % 60;
    assert SleepFragment(total) == "sleep " + NatToString(h) + "h" + NatToString(m) + "m";
  }

  /** `f"{name}{int(value)}{unit}"`. */
  function FragmentText(name: string, n: nat, unit: string): string {
    name + NatToString(n) + unit
  }

  /** The fragment of one column, present only when the value is positive. */
  function Fragment(c: Cell, name: string, unit: string): (f: Option<string>)
    ensures f.Some? <==> Positive(c)
  {
    if Positive(c) then Some(FragmentText(name, c.n, unit)) else None
  }

  function SleepPart(c: Cell): (f: Option<string>)
    ensures f.Some? <==> Positive(c)
  {
    if Positive(c) then Some(SleepFragment(c.n)) else None
  }

  function Opt(x: Option<string>): seq<string> {
    if x.Some? then [x.value] else []
  }

  /** The fragments of the positive columns, in the fixed order of the sentence. */
  function Fragments(v: Vitals): seq<string> {
    Opt(Fragment(v.hrAvg, "HR average ", " bpm")) + Opt(Fragment(v.hrMax, "HR max ", " bpm"))
    + Opt(Fragment(v.hrResting, "resting HR ", " bpm")) + Opt(Fragment(v.spo2, "SpO2 ", " percent"))
    + Opt(Fragment(v.steps, "steps ", "")) + Opt(Fragment(v.intensity, "active ", " minutes"))
    + Opt(Fragment(v.calories, "calories ", "")) + Opt(SleepPart(v.sleep))
  }

  /** The sentence for one day: the fragments joined by single spaces. */
  function VitalsText(v: Vitals): (text: string)
    ensures Fragments(v) == [] ==> text == NoVitalsText
    ensures Fragments(v) != [] ==> StartsWith(text, Fragments(v)[0])
  {
    var parts := Fragments(v);
    if parts == [] then NoVitalsText
    else
      JoinStartsWithFirst(parts, " ");
      Join(parts, " ")
  }

  /** One `if pd.notna(x) and x > 0: parts.append(...)` step of `vitals_to_text`. */
  method AppendIfPositive(parts: seq<string>, c: Cell, name: string, unit: string) returns (r: seq<string>)
    ensures r == parts + Opt(Fragment(c, name, unit))
  {
    r := parts;
    if Positive(c) {
      r := r + [name + NatToString(c.n) + unit];
    }
  }

  /** `vitals_to_text`: appends each fragment whose value is positive, in column order. */
  method VitalsToText(v: Vitals) returns (text: string)
    ensures text == VitalsText(v)
  {
    var parts: seq<string> := [];
    parts := AppendIfPositive(parts, v.hrAvg, "HR average ", " bpm");
    parts := AppendIfPositive(parts, v.hrMax, "HR max ", " bpm");
    parts := AppendIfPositive(parts, v.hrResting, "resting HR ", " bpm");
    parts := AppendIfPositive(parts, v.spo2, "SpO2 ", " percent");
    parts := AppendIfPositive(parts, v.steps, "steps ", "");
    parts := AppendIfPositive(parts, v.intensity, "active ", " minutes");
    parts := AppendIfPositive(parts, v.calories, "calories ", "");
    ghost var before := parts;
    if Positive(v.sleep) {
      var h := v.sleep.n / 60;
      var m := v.sleep.n % 60;
      parts := parts + ["sleep " + NatToString(h) + "h" + NatToString(m) + "m"];
    }
    assert parts == before + Opt(SleepPart(v.sleep));
    assert [] + Opt(Fragment(v.hrAvg, "HR average ", " bpm")) == Opt(Fragment(v.hrAvg, "HR average ", " bpm"));
    assert parts == Fragments(v);
    if parts == [] {
      text := NoVitalsText;
    } else {
      text := Join(parts, " ");
    }
  }

  /** The joined sentence starts with the first fragment. */
  lemma {:induction false} JoinStartsWithFirst(parts: seq<string>, sep: string)
    requires parts != []
    ensures StartsWith(Join(parts, sep), parts[0])
  {
  }

  /** A fragment that cannot be mistaken for the no-vitals sentence: it does not start with 'N'. */
  predicate Lead(x: string) {
    |x| > 0 && x[0] != 'N'
  }

  /** A present fragment starts with its column name. */
  lemma FragmentLead(c: Cell, name: string, unit: string)
    requires Lead(name)
    ensures forall x :: x in Opt(Fragment(c, name, unit)) ==> Lead(x)
  {
    if Positive(c) {
      assert FragmentText(name, c.n, unit)[0] == name[0];
    }
  }

  /** A present sleep fragment starts with "sleep". */
  lemma SleepLead(c: Cell)
    ensures forall x :: x in Opt(SleepPart(c)) ==> Lead(x)
  {
    if Positive(c) {
      assert SleepFragment(c.n)[0] == 's';
    }
  }

  /** The fragments are present exactly for the positive columns, and none starts with 'N'. */
  lemma FragmentsLead(v: Vitals)
    ensures |Fragments(v)| > 0 <==> AnyPositive(v)
    ensures forall x :: x in Fragments(v) ==> Lead(x)
  {
    FragmentLead(v.hrAvg, "HR average ", " bpm");
    FragmentLead(v.hrMax, "HR max ", " bpm");
    FragmentLead(v.hrResting, "resting HR ", " bpm");
    FragmentLead(v.spo2, "SpO2 ", " percent");
    FragmentLead(v.steps, "steps ", "");
    FragmentLead(v.intensity, "active ", " minutes");
    FragmentLead(v.calories, "calories ", "");
    SleepLead(v.sleep);
  }

  /** "No vital signs recorded." is produced exactly when no column is positive. */
  lemma NoVitalsExactly(v: Vitals)
    ensures VitalsText(v) == NoVitalsText <==> !AnyPositive(v)
  {
    var parts := Fragments(v);
    FragmentsLead(v);
    if |parts| > 0 {
      JoinStartsWithFirst(parts, " ");
      assert parts[0] in parts;
      assert VitalsText(v)[0] == parts[0][0];
    }
  }

  // ---------------------------------------------------------------- dataset rows

  /** One training row: `{"text", "risk_level", "recommendation"}`. */
  datatype DatasetRow = DatasetRow(text: string, riskLevel: string, recommendation: string)

  function Example(text: string, r: Risk): DatasetRow {
    DatasetRow(text, RiskName(r), Recommendation(r))
  }

  /** The recommendation of a row is the advice of the risk the row is labelled with. */
  ghost predicate Consistent(row: DatasetRow) {
    exists r: Risk :: row.riskLevel == RiskName(r) && row.recommendation == Recommendation(r)
  }

  /**
    The text of the synthetic example at position `i` (0 to 38): rest and
    light duty first, then sustained effort, heat stress and exhaustion,
    then borderline days.
   */
  function SyntheticText(i: int): string {
    match i
    case 0 => "HR average 58 bpm HR max 75 resting HR 52 SpO2 99 percent steps 1200 active 3 minutes sleep 7h"
    case 1 => "HR average 62 bpm HR max 80 SpO2 98 percent steps 2000 sleep 6h30m"
    case 2 => "HR average 65 bpm HR max 82 resting HR 55 SpO2 98 percent steps 1500 active 5 minutes sleep 7h"
    case 3 => "HR average 68 bpm HR max 88 resting HR 60 SpO2 97 percent steps 2500 active 8 minutes sleep 6h"
    case 4 => "HR average 70 bpm HR max 90 SpO2 97 percent steps 3000 sleep 6h"
    case 5 => "HR average 72 bpm HR max 92 resting HR 64 steps 1800 active 10 minutes sleep 8h"
    case 6 => "HR average 75 bpm HR max 95 SpO2 96 percent steps 3500 active 12 minutes calories 180 sleep 5h30m"
    case 7 => "HR average 78 bpm HR max 98 resting HR 66 steps 4000 active 15 minutes sleep 5h"
    case 8 => "SpO2 98 percent steps 2200 sleep 7h calories 150"
    case 9 => "HR average 64 bpm HR max 78 SpO2 99 percent active 2 minutes sleep 8h"
    case 10 => "HR average 84 bpm HR max 102 SpO2 96 percent steps 5500 active 22 minutes sleep 4h"
    case 11 => "HR average 86 bpm HR max 108 resting HR 72 steps 6000 active 25 minutes sleep 3h30m"
    case 12 => "HR average 88 bpm HR max 105 SpO2 95 percent steps 5000 active 25 minutes sleep 4h"
    case 13 => "HR average 90 bpm HR max 112 resting HR 78 steps 6500 active 28 minutes calories 420 sleep 3h"
    case 14 => "HR average 92 bpm HR max 115 SpO2 94 percent steps 7000 active 30 minutes sleep 2h"
    case 15 => "HR average 82 bpm HR max 105 resting HR 69 steps 2276 active 17 minutes calories 175"
    case 16 => "HR average 85 bpm HR max 100 SpO2 93 percent steps 4500 active 35 minutes sleep 1h"
    case 17 => "HR average 87 bpm HR max 110 resting HR 74 steps 5800 active 20 minutes sleep 4h"
    case 18 => "HR average 91 bpm HR max 118 SpO2 94 percent active 38 minutes sleep 2h30m"
    case 19 => "HR average 83 bpm HR max 98 steps 5200 active 24 minutes sleep 5h"
    case 20 => "HR average 89 bpm HR max 106 SpO2 95 percent steps 6200 active 26 minutes calories 380"
    case 21 => "HR average 94 bpm HR max 116 resting HR 80 steps 7500 active 32 minutes sleep 1h30m"
    case 22 => "HR average 108 bpm HR max 125 SpO2 87 percent steps 8000 active 50 minutes sleep 0h"
    case 23 => "HR average 105 bpm HR max 122 SpO2 88 percent active 45 minutes"
    case 24 => "HR average 102 bpm HR max 118 SpO2 89 percent steps 7000 sleep 0h30m"
    case 25 => "HR average 112 bpm HR max 128 SpO2 86 percent steps 9000 active 55 minutes sleep 0h"
    case 26 => "HR average 110 bpm HR max 130 resting HR 95 SpO2 85 percent steps 8500 active 52 minutes"
    case 27 => "HR average 106 bpm HR max 124 SpO2 88 percent active 48 minutes sleep 0h20m"
    case 28 => "HR average 115 bpm HR max 132 SpO2 84 percent steps 10000 active 60 minutes calories 650"
    case 29 => "HR average 104 bpm HR max 120 SpO2 87 percent steps 7200 active 46 minutes sleep 0h"
    case 30 => "HR average 118 bpm HR max 135 SpO2 83 percent active 58 minutes sleep 0h15m"
    case 31 => "HR average 100 bpm HR max 121 SpO2 86 percent steps 6800 active 50 minutes sleep 0h25m"
    case 32 => "SpO2 85 percent HR average 109 bpm HR max 126 steps 7800 active 54 minutes"
    case 33 => "HR average 113 bpm HR max 129 SpO2 86 percent resting HR 92 active 56 minutes sleep 0h"
    case 34 => "HR average 98 bpm HR max 119 SpO2 91 percent steps 6000 active 42 minutes sleep 0h45m"
    case 35 => "HR average 97 bpm HR max 118 SpO2 92 percent active 40 minutes sleep 1h"
    case 36 => "HR average 80 bpm HR max 96 resting HR 68 steps 4200 active 18 minutes sleep 5h"
    case 37 => "HR average 99 bpm HR max 120 SpO2 90 percent steps 6500 active 44 minutes sleep 0h30m"
    case _ => "HR average 81 bpm HR max 99 steps 3800 active 16 minutes sleep 5h30m"
  }

  /**
    The label of the synthetic example at position `i`: 10 green rows, 12
    yellow, 12 red, then the borderline rows yellow, yellow, green, red, green.
   */
  function SyntheticLabel(i: int): Risk {
    if i < 10 then Green
    else if i < 22 then Yellow
    else if i < 34 then Red
    else if i < 36 then Yellow
    else if i == 36 then Green
    else if i == 37 then Red
    else Green
  }

  /** `synthetic_examples`: the 39 hand-written rows, each with the advice of its own label. */
  function SyntheticExamples(): (rows: seq<DatasetRow>)
    ensures |rows| == 39
  {
    seq(39, i => Example(SyntheticText(i), SyntheticLabel(i)))
  }

  /** Every synthetic row carries the label of its position and the advice of that label. */
  lemma SyntheticExamplesShape()
    ensures forall i :: 0 <= i < 39 ==>
      SyntheticExamples()[i].riskLevel == RiskName(SyntheticLabel(i)) && Consistent(SyntheticExamples()[i])
  {
    forall i | 0 <= i < 39 ensures Consistent(SyntheticExamples()[i]) {
      assert SyntheticExamples()[i] == Example(SyntheticText(i), SyntheticLabel(i));
    }
  }

  /** Consistency of every row survives concatenation. */
  lemma ConcatConsistent(a: seq<DatasetRow>, b: seq<DatasetRow>)
    requires forall i :: 0 <= i < |a| ==> Consistent(a[i])
    requires forall i :: 0 <= i < |b| ==> Consistent(b[i])
    ensures forall i :: 0 <= i < |a + b| ==> Consistent((a + b)[i])
  {
    forall i | 0 <= i < |a + b| ensures Consistent((a + b)[i]) {
      if i < |a| { assert (a + b)[i] == a[i]; } else { assert (a + b)[i] == b[i - |a|]; }
    }
  }

  /** The row built for one day of vitals. */
  function DayRow(v: Vitals): (row: DatasetRow)
    ensures Consistent(row)
  {
    var (risk, rec) := AssignRisk(v);
    DatasetRow(VitalsText(v), RiskName(risk), rec)
  }

  /** One turn of the `build_dataset` loop: the day's text, then its risk and advice. */
  method BuildDayRow(v: Vitals) returns (row: DatasetRow)
    ensures row == DayRow(v)
  {
    var text := VitalsToText(v);
    var (risk, rec) := AssignRisk(v);
    row := DatasetRow(text, RiskName(risk), rec);
  }

  /** The loop of `build_dataset`: one row per day, in input order. */
  method BuildDayRows(days: seq<Vitals>) returns (rows: seq<DatasetRow>)
    ensures |rows| == |days|
    ensures forall i :: 0 <= i < |days| ==> rows[i] == DayRow(days[i])
  {
    rows := [];
    for i := 0 to |days|
      invariant rows == Map(DayRow, days[..i])
    {
      var row := BuildDayRow(days[i]);
      MapPrefix(DayRow, days, i);
      rows := rows + [row];
    }
    assert days[..|days|] == days;
    forall i | 0 <= i < |days| ensures rows[i] == DayRow(days[i]) {
      MapAt(DayRow, days, i);
    }
  }

  /** Every row built from a day is consistent. */
  lemma DayRowsConsistent(days: seq<Vitals>, rows: seq<DatasetRow>)
    requires |rows| == |days|
    requires forall i :: 0 <= i < |days| ==> rows[i] == DayRow(days[i])
    ensures forall i :: 0 <= i < |rows| ==> Consistent(rows[i])
  {
    forall i | 0 <= i < |rows| ensures Consistent(rows[i]) {
      assert rows[i] == DayRow(days[i]);
    }
  }

  /** `build_dataset`: one row per day, in input order, then the synthetic rows. */
  method BuildDataset(days: seq<Vitals>) returns (rows: seq<DatasetRow>)
    ensures |rows| == |days| + 39
    ensures forall i :: 0 <= i < |days| ==> rows[i] == DayRow(days[i])
    ensures rows[|days|..] == SyntheticExamples()
    ensures forall i :: 0 <= i < |rows| ==> Consistent(rows[i])
  {
    var dayRows := BuildDayRows(days);
    DayRowsConsistent(days, dayRows);
    SyntheticExamplesShape();
    ConcatConsistent(dayRows, SyntheticExamples());
    rows := dayRows + SyntheticExamples();
    assert rows[|days|..] == SyntheticExamples();
    forall i | 0 <= i < |days| ensures rows[i] == DayRow(days[i]) {
      assert rows[i] == dayRows[i];
    }
  }
}
