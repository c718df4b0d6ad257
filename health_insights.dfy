/**
  The device-export readers of the health report: the "value in the middle"
  CSV reader (the Value column of the export holds unquoted commas, so a line
  is cut into a fixed number of leading fields, a fixed number of trailing
  fields, and everything between them rejoined as Value), the steps-row
  parser, the sport-session field extraction and the raw fitness summary.
 */
module HealthInsights {
  import opened Wrappers
  import opened Strings
  import opened EncodedValues
  import opened SeqStats

  // ---------------------------------------------------------------- value-in-the-middle lines

  /** One data line cut into its leading fields, its Value and its trailing fields. */
  datatype MiddleSplit = MiddleSplit(start: seq<string>, value: string, end: seq<string>)

  predicate NoComma(fields: seq<string>) {
    forall k :: 0 <= k < |fields| ==> ',' !in fields[k]
  }

  /** Joining `a ++ [join(m)] ++ b` is joining `a ++ m ++ b`, for non-empty `m` and `b`. */
  lemma {:induction false} JoinMiddle(a: seq<string>, m: seq<string>, b: seq<string>, sep: string)
    requires m != [] && b != []
    ensures Join(a + [Join(m, sep)] + b, sep) == Join(a + m + b, sep)
  {
    JoinAppend([Join(m, sep)], b, sep);
    JoinAppend(m, b, sep);
    assert Join([Join(m, sep)] + b, sep) == Join(m + b, sep);
    if a != [] {
      assert a + [Join(m, sep)] + b == a + ([Join(m, sep)] + b);
      assert a + m + b == a + (m + b);
      JoinAppend(a, [Join(m, sep)] + b, sep);
      JoinAppend(a, m + b, sep);
    } else {
      assert a + [Join(m, sep)] + b == [Join(m, sep)] + b;
      assert a + m + b == m + b;
    }
  }

  /**
    The per-line cut of `_read_csv_value_in_middle`: None when the line has
    fewer than `numStart + numEnd` comma-separated fields (the line is
    skipped); otherwise the leading and trailing fields, which hold no comma,
    and the Value, which glued back between them with commas gives the line
    again. With exactly `numStart + numEnd` fields the Value is empty.
   */
  function SplitValueInMiddle(line: string, numStart: nat, numEnd: nat): (r: Option<MiddleSplit>)
    requires numEnd >= 1
    ensures r.None? <==> |Split(line, ',')| < numStart + numEnd
    ensures r.Some? ==> |r.value.start| == numStart && |r.value.end| == numEnd
    ensures r.Some? ==> NoComma(r.value.start) && NoComma(r.value.end)
    ensures r.Some? && |Split(line, ',')| > numStart + numEnd ==>
      Join(r.value.start + [r.value.value] + r.value.end, ",") == line
    ensures r.Some? && |Split(line, ',')| == numStart + numEnd ==>
      r.value.value == "" && Join(r.value.start + r.value.end, ",") == line
  {
    var parts := Split(line, ',');
    if |parts| < numStart + numEnd then None
    else
      var start := parts[..numStart];
      var middle := parts[numStart..|parts| - numEnd];
      var end := parts[|parts| - numEnd..];
      assert parts == start + middle + end;
      assert middle != [] ==> Join(start + [Join(middle, ",")] + end, ",") == line by {
        if middle != [] {
          JoinMiddle(start, middle, end, ",");
        }
      }
      assert middle == [] ==> parts == start + end;
      Some(MiddleSplit(start, Join(middle, ","), end))
  }

  /**
    The dictionary built for one line: with a five-name header the names at
    0, 1, 2 and 4 and the key "Value" (the header's fourth name is not used);
    otherwise the leading names paired with the leading fields, then "Value",
    then the last header name bound to the first trailing field. Later keys
    overwrite earlier equal ones, as in a Python dict display.
   */
  function RowOf(header: seq<string>, ms: MiddleSplit): (row: map<string, string>)
    requires |header| >= 1 && |ms.end| >= 1
    requires |header| == 5 ==> |ms.start| >= 3
    ensures header[|header| - 1] in row && row[header[|header| - 1]] == ms.end[0]
    ensures header[|header| - 1] != "Value" ==> "Value" in row && row["Value"] == ms.value
    ensures |header| == 5 ==> row.Keys == {header[0], header[1], header[2], "Value", header[4]}
    ensures |header| == 5 ==> forall i :: 0 <= i < 3 && LeadKey(header, i, 3) ==> row[header[i]] == ms.start[i]
    ensures |header| != 5 ==>
      forall i :: 0 <= i < Min(|header|, |ms.start|) && LeadKey(header, i, Min(|header|, |ms.start|))
        ==> header[i] in row && row[header[i]] == ms.start[i]
  {
    if |header| == 5 then FiveNameRow(header, ms) else ZipRow(header, ms)
  }

  /** The dict display used for a five-name header. */
  function FiveNameRow(header: seq<string>, ms: MiddleSplit): (row: map<string, string>)
    requires |header| == 5 && |ms.start| >= 3 && |ms.end| >= 1
    ensures row.Keys == {header[0], header[1], header[2], "Value", header[4]}
    ensures row[header[4]] == ms.end[0]
    ensures header[4] != "Value" ==> row["Value"] == ms.value
    ensures forall i :: 0 <= i < 3 && LeadKey(header, i, 3) ==> row[header[i]] == ms.start[i]
  {
    map[header[0] := ms.start[0], header[1] := ms.start[1], header[2] := ms.start[2],
        "Value" := ms.value, header[4] := ms.end[0]]
  }

  /** `dict(zip(header[:n], start))`, then "Value", then the last header name. */
  function ZipRow(header: seq<string>, ms: MiddleSplit): (row: map<string, string>)
    requires |header| >= 1 && |ms.end| >= 1
    ensures header[|header| - 1] in row && row[header[|header| - 1]] == ms.end[0]
    ensures header[|header| - 1] != "Value" ==> "Value" in row && row["Value"] == ms.value
    ensures forall i :: 0 <= i < Min(|header|, |ms.start|) && LeadKey(header, i, Min(|header|, |ms.start|)) ==>
      header[i] in row && row[header[i]] == ms.start[i]
  {
    var n := Min(|header|, |ms.start|);
    var names := header[..n];
    ZipValues(names, ms.start);
    assert forall i :: 0 <= i < n ==> names[i] == header[i] && names[i + 1..] == header[i + 1..n] && names[i] in Zip(names, ms.start);
    Zip(names, ms.start)["Value" := ms.value][header[|header| - 1] := ms.end[0]]
  }

  /**
    The leading name at `i` keeps its field in the row: no later leading name
    (before `n`), nor "Value", nor the last header name, is equal to it.
   */
  predicate LeadKey(header: seq<string>, i: nat, n: nat)
    requires i < n <= |header|
  {
    header[i] !in header[i + 1..n] && header[i] != "Value" && header[i] != header[|header| - 1]
  }

  function Min(a: nat, b: nat): nat { if a <= b then a else b }

  /** `dict(zip(names, values))`: pairs up to the shorter list, a later equal name overwriting. */
  function Zip(names: seq<string>, values: seq<string>): (m: map<string, string>)
    requires |names| <= |values|
    ensures m.Keys == set k | 0 <= k < |names| :: names[k]
    decreases |names|
  {
    if names == [] then map[]
    else Zip(names[..|names| - 1], values)[names[|names| - 1] := values[|names| - 1]]
  }

  /** Each name not repeated later in the list holds the value at its own position. */
  lemma {:induction false} ZipValues(names: seq<string>, values: seq<string>)
    requires |names| <= |values|
    ensures forall k :: 0 <= k < |names| && names[k] !in names[k + 1..] ==> Zip(names, values)[names[k]] == values[k]
    decreases |names|
  {
    if names != [] {
      var n := |names| - 1;
      var init := names[..n];
      ZipValues(init, values);
      forall k | 0 <= k < n && names[k] !in names[k + 1..] ensures Zip(names, values)[names[k]] == values[k] {
        assert names[n] == names[k + 1..][n - k - 1];
        assert init[k] == names[k] && init[k + 1..] == names[k + 1..n];
      }
    }
  }

  /** The row a data line contributes, if any. */
  function LineRow(header: seq<string>, line: string, numStart: nat, numEnd: nat): Option<map<string, string>>
    requires |header| >= 1 && numStart >= 3 && numEnd >= 1
  {
    match SplitValueInMiddle(line, numStart, numEnd)
    case None => None
    case Some(ms) => Some(RowOf(header, ms))
  }

  function OptRow(r: Option<map<string, string>>): seq<map<string, string>> {
    if r.Some? then [r.value] else []
  }

  /** The rows one data line contributes: none or one. */
  function LineRows(header: seq<string>, numStart: nat, numEnd: nat): string -> seq<map<string, string>>
    requires |header| >= 1 && numStart >= 3 && numEnd >= 1
  {
    line => OptRow(LineRow(header, line, numStart, numEnd))
  }

  /** The rows of the data lines, in order; lines with too few fields contribute nothing. */
  function ParseRows(header: seq<string>, lines: seq<string>, numStart: nat, numEnd: nat): seq<map<string, string>>
    requires |header| >= 1 && numStart >= 3 && numEnd >= 1
  {
    FlatMap(LineRows(header, numStart, numEnd), lines)
  }

  /** Rows keep the order of their lines: the rows of two blocks of lines are the rows of each, one after the other. */
  lemma ParseRowsAppend(header: seq<string>, a: seq<string>, b: seq<string>, numStart: nat, numEnd: nat)
    requires |header| >= 1 && numStart >= 3 && numEnd >= 1
    ensures ParseRows(header, a + b, numStart, numEnd)
         == ParseRows(header, a, numStart, numEnd) + ParseRows(header, b, numStart, numEnd)
  {
    FlatMapAppend(LineRows(header, numStart, numEnd), a, b);
  }

  /** Each line yields at most one row, and a line with too few fields yields none. */
  lemma {:induction false} ParseRowsBound(header: seq<string>, lines: seq<string>, numStart: nat, numEnd: nat)
    requires |header| >= 1 && numStart >= 3 && numEnd >= 1
    ensures |ParseRows(header, lines, numStart, numEnd)| <= |lines|
    ensures (forall k :: 0 <= k < |lines| ==> |Split(lines[k], ',')| < numStart + numEnd)
            ==> ParseRows(header, lines, numStart, numEnd) == []
    decreases |lines|
  {
    if lines != [] {
      ParseRowsBound(header, lines[..|lines| - 1], numStart, numEnd);
      assert ParseRows(header, lines, numStart, numEnd)
          == ParseRows(header, lines[..|lines| - 1], numStart, numEnd)
           + OptRow(LineRow(header, lines[|lines| - 1], numStart, numEnd));
    }
  }

  /** `[line.strip() for line in f if line.strip()]`. */
  function NonBlank(lines: seq<string>): (r: seq<string>)
    ensures |r| <= |lines|
    ensures forall k :: 0 <= k < |r| ==> r[k] != "" && Strip(r[k]) == r[k]
    decreases |lines|
  {
    if lines == [] then []
    else
      var t := Strip(lines[|lines| - 1]);
      TrimIdempotent(lines[|lines| - 1], IsSpace);
      NonBlank(lines[..|lines| - 1]) + (if t != "" then [t] else [])
  }

  /** The loop over the data lines: one row per line with enough fields, in line order. */
  method RowsOfLines(header: seq<string>, data: seq<string>, numStart: nat, numEnd: nat)
    returns (rows: seq<map<string, string>>)
    requires |header| >= 1 && numStart >= 3 && numEnd >= 1
    ensures rows == ParseRows(header, data, numStart, numEnd)
  {
    rows := [];
    for i := 0 to |data|
      invariant rows == ParseRows(header, data[..i], numStart, numEnd)
    {
      var line := data[i];
      FlatMapPrefix(LineRows(header, numStart, numEnd), data, i);
      match SplitValueInMiddle(line, numStart, numEnd)
      case None =>
      case Some(ms) =>
        rows := rows + [RowOf(header, ms)];
    }
    assert data[..|data|] == data;
  }

  /**
    `_read_csv_value_in_middle` on the lines of a file: blank lines are
    dropped, the first remaining line is the header, and every later line
    with enough fields becomes one row, in file order. A file with no
    non-blank line gives no rows.
   */
  method ReadCsvValueInMiddle(fileLines: seq<string>, numStart: nat, numEnd: nat)
    returns (rows: seq<map<string, string>>)
    requires numStart >= 3 && numEnd >= 1
    ensures NonBlank(fileLines) == [] ==> rows == []
    ensures NonBlank(fileLines) != [] ==>
      rows == ParseRows(Split(NonBlank(fileLines)[0], ','), NonBlank(fileLines)[1..], numStart, numEnd)
    ensures |rows| < |fileLines| || rows == []
  {
    var lines := NonBlank(fileLines);
    if lines == [] {
      return [];
    }
    var header := Split(lines[0], ',');
    rows := RowsOfLines(header, lines[1..], numStart, numEnd);
    ParseRowsBound(header, lines[1..], numStart, numEnd);
  }

  // ---------------------------------------------------------------- steps rows

  const CaloriesKey := "calories+ACIAIg-:"
  const DistanceKey := "distance+ACIAIg-:"
  const StepsKey := "steps+ACIAIg-:"

  /**
    `parse_steps_row`: (steps, distance, calories), in that order, each the
    number after its key or 0 when the key is absent; a missing value gives
    (0, 0, 0).
   */
  function ParseStepsRow(v: Option<string>): (r: (nat, nat, nat))
    ensures v.None? ==> r == (0, 0, 0)
    ensures v.Some? && NoMatch(v.value, StepsKey) ==> r.0 == 0
    ensures v.Some? && NoMatch(v.value, DistanceKey) ==> r.1 == 0
    ensures v.Some? && NoMatch(v.value, CaloriesKey) ==> r.2 == 0
    ensures v.Some? ==> forall i :: IsFirstMatch(v.value, StepsKey, i) ==> r.0 == DigitsValue(DigitRun(v.value, i + |StepsKey|))
    ensures v.Some? ==> forall i :: IsFirstMatch(v.value, DistanceKey, i) ==> r.1 == DigitsValue(DigitRun(v.value, i + |DistanceKey|))
    ensures v.Some? ==> forall i :: IsFirstMatch(v.value, CaloriesKey, i) ==> r.2 == DigitsValue(DigitRun(v.value, i + |CaloriesKey|))
  {
    match v
    case None => (0, 0, 0)
    case Some(s) => (FieldOr0(s, StepsKey), FieldOr0(s, DistanceKey), FieldOr0(s, CaloriesKey))
  }

  /** A key whose first character never occurs in a string is not found in it. */
  lemma FirstCharAbsent(s: string, key: string)
    requires key != [] && key[0] !in s
    ensures NoMatch(s, key)
  {
  }

  /** A value that carries only a step count parses as (steps, 0, 0). */
  lemma StepsOnlyRow(n: nat)
    ensures ParseStepsRow(Some(StepsKey + NatToString(n))) == (n, 0, 0)
  {
    var d := NatToString(n);
    var s := StepsKey + d;
    assert forall k :: 0 <= k < |d| ==> s[|StepsKey| + k] == d[k];
    assert 'c' !in s && 'd' !in s by {
      forall k | 0 <= k < |s| ensures s[k] != 'c' && s[k] != 'd' {
        if k >= |StepsKey| { assert IsDigit(d[k - |StepsKey|]); }
      }
    }
    FirstCharAbsent(s, DistanceKey);
    FirstCharAbsent(s, CaloriesKey);
    assert [] + StepsKey + d + [] == s;
    ReadsBackWrittenNumber([], StepsKey, n, []);
  }

  // ---------------------------------------------------------------- sport sessions

  const TotalCalKey := "total+AF8-cal+ACIAIg-:"
  const DurationKey := "duration+ACIAIg-:"
  const AvgHrmKey := "avg+AF8-hrm+ACIAIg-:"
  const MaxHrmKey := "max+AF8-hrm+ACIAIg-:"
  const VitalityKey := "vitality+ACIAIg-:"

  /** One badminton session; the session date is not part of this model. */
  datatype Session = Session(calories: nat, durationSec: nat, avgHr: nat, maxHr: nat, vitality: nat)

  /**
    The fields of one sport record: calories from the `calories` key, or from
    the `total_cal` key when the first is absent; every other field is the
    number after its key, 0 when absent.
   */
  function SessionOf(v: string): (s: Session)
    ensures !NoMatch(v, CaloriesKey) ==> s.calories == FieldOr0(v, CaloriesKey)
    ensures NoMatch(v, CaloriesKey) ==> s.calories == FieldOr0(v, TotalCalKey)
    ensures NoMatch(v, CaloriesKey) && NoMatch(v, TotalCalKey) ==> s.calories == 0
    ensures NoMatch(v, DurationKey) ==> s.durationSec == 0
    ensures NoMatch(v, AvgHrmKey) ==> s.avgHr == 0
    ensures NoMatch(v, MaxHrmKey) ==> s.maxHr == 0
    ensures NoMatch(v, VitalityKey) ==> s.vitality == 0
    ensures s.durationSec == FieldOr0(v, DurationKey) && s.avgHr == FieldOr0(v, AvgHrmKey)
    ensures s.maxHr == FieldOr0(v, MaxHrmKey) && s.vitality == FieldOr0(v, VitalityKey)
  {
    var cal := match NumberAfter(v, CaloriesKey)
      case Some(n) => n
      case None => FieldOr0(v, TotalCalKey);
    Session(cal, FieldOr0(v, DurationKey), FieldOr0(v, AvgHrmKey), FieldOr0(v, MaxHrmKey), FieldOr0(v, VitalityKey))
  }

  /** A string shorter than a key never matches it. */
  lemma ShortNoMatch(s: string, key: string)
    requires |s| < |key|
    ensures NoMatch(s, key)
  {
  }

  /** A record without a Value reads as the string "nan", whose session is all zeros. */
  lemma MissingValueSession()
    ensures SessionOf("nan") == Session(0, 0, 0, 0, 0)
  {
    ShortNoMatch("nan", CaloriesKey);
    ShortNoMatch("nan", TotalCalKey);
    ShortNoMatch("nan", DurationKey);
    ShortNoMatch("nan", AvgHrmKey);
    ShortNoMatch("nan", MaxHrmKey);
    ShortNoMatch("nan", VitalityKey);
  }

  /** The Value of a record as `str(row.get("Value", ""))` sees it in a frame where it may be missing. */
  function ValueOf(row: map<string, string>): string {
    if "Value" in row then row["Value"] else "nan"
  }

  /** Some record has a Value, so the frame built from the records has a Value column. */
  predicate HasValueColumn(rows: seq<map<string, string>>)
    decreases |rows|
  {
    rows != [] && ("Value" in rows[0] || HasValueColumn(rows[1..]))
  }

  /** One session per record, in record order. */
  function Sessions(rows: seq<map<string, string>>): (r: seq<Session>)
    ensures |r| == |rows|
    decreases |rows|
  {
    if rows == [] then [] else Sessions(rows[..|rows| - 1]) + [SessionOf(ValueOf(rows[|rows| - 1]))]
  }

  /** The k-th session is read from the k-th record. */
  lemma {:induction false} SessionsAt(rows: seq<map<string, string>>, k: nat)
    requires k < |rows|
    ensures Sessions(rows)[k] == SessionOf(ValueOf(rows[k]))
    decreases |rows|
  {
    if k < |rows| - 1 {
      SessionsAt(rows[..|rows| - 1], k);
    }
  }

  /**
    `parse_sport_sessions`: nothing for an empty frame or one without a Value
    column; otherwise one session per record, in record order.
   */
  method ParseSportSessions(rows: seq<map<string, string>>) returns (sessions: seq<Session>)
    ensures !HasValueColumn(rows) ==> sessions == []
    ensures HasValueColumn(rows) ==> sessions == Sessions(rows)
  {
    if |rows| == 0 || !HasValueColumn(rows) {
      return [];
    }
    sessions := [];
    for k := 0 to |rows|
      invariant sessions == Sessions(rows[..k])
    {
      assert rows[..k + 1][..k] == rows[..k];
      sessions := sessions + [SessionOf(ValueOf(rows[k]))];
    }
    assert rows[..|rows|] == rows;
  }

  // ---------------------------------------------------------------- raw fitness summary

  /** One row of the raw fitness export: its Key and its Value (a missing Value reads "nan"). */
  datatype FitnessRow = FitnessRow(key: string, value: string)

  const BpmKey := "bpm+ACIAIg-:"

  predicate IsHeartRate(r: FitnessRow) { KeyNorm(r.key) == "heart_rate" }
  predicate IsSteps(r: FitnessRow) { KeyNorm(r.key) == "steps" }

  /** The plain spelling of the heart-rate key is recognised. */
  lemma HeartRateKeyPlain(v: string)
    ensures IsHeartRate(FitnessRow("heart_rate", v))
  {
    var k := "heart_rate";
    ReplaceAllSkip(k, [], "+AF8-", "_");
    assert k + [] == k;
  }

  /** The encoded spelling of the heart-rate key is recognised. */
  lemma HeartRateKeyEncoded(v: string)
    ensures IsHeartRate(FitnessRow("heart+AF8-rate", v))
  {
    var w1, w2 := "heart", "rate";
    assert '+' !in w1 && '+' !in w2;
    KeyNormEncoded(w1, w2);
    assert w1 + "+AF8-" + w2 == "heart+AF8-rate" && w1 + "_" + w2 == "heart_rate";
  }

  /** Number of heart-rate rows. */
  function HeartRateCount(rows: seq<FitnessRow>): (n: nat)
    ensures n <= |rows|
    decreases |rows|
  {
    if rows == [] then 0
    else HeartRateCount(rows[..|rows| - 1]) + (if IsHeartRate(rows[|rows| - 1]) then 1 else 0)
  }

  /** The bpm readings parsed from the heart-rate rows, in row order. */
  function Bpms(rows: seq<FitnessRow>): (b: seq<nat>)
    ensures |b| <= HeartRateCount(rows)
    decreases |rows|
  {
    if rows == [] then []
    else
      var last := rows[|rows| - 1];
      Bpms(rows[..|rows| - 1])
      + (if IsHeartRate(last) && NumberAfter(last.value, BpmKey).Some? then [NumberAfter(last.value, BpmKey).value] else [])
  }

  /** No row of the frame is a steps row. */
  predicate NoStepsRow(rows: seq<FitnessRow>) {
    forall k :: 0 <= k < |rows| ==> !IsSteps(rows[k])
  }

  /** The step counts summed over the steps rows; a row without a count adds 0. */
  function StepsTotal(rows: seq<FitnessRow>): (n: nat)
    ensures NoStepsRow(rows) ==> n == 0
    decreases |rows|
  {
    if rows == [] then 0
    else
      var last := rows[|rows| - 1];
      StepsTotal(rows[..|rows| - 1]) + (if IsSteps(last) then FieldOr0(last.value, StepsKey) else 0)
  }

  /** Heart-rate statistics over the parsed readings; `avg` is the exact mean. */
  datatype HrStats = HrStats(avg: real, min: nat, max: nat)

  /**
    `stats` describes the readings `b`: its min and max are readings that
    bound all of them, and `avg` is their exact mean, between the two.
   */
  predicate Describes(b: seq<nat>, stats: HrStats)
  {
    && stats.min in b && stats.max in b
    && (forall k :: 0 <= k < |b| ==> stats.min <= b[k] <= stats.max)
    && |b| > 0 && stats.avg == Sum(b) as real / |b| as real
    && stats.min as real <= stats.avg <= stats.max as real
  }

  /** The HR statistics block of `summarize_fitness`: present exactly when some reading exists. */
  method HrStatsOf(b: seq<nat>) returns (hr: Option<HrStats>)
    ensures hr.Some? <==> |b| > 0
    ensures hr.Some? ==> Describes(b, hr.value)
  {
    hr := None;
    if |b| > 0 {
      var lo, hi := SeqMin(b), SeqMax(b);
      var avg := Sum(b) as real / |b| as real;
      MinIsLeast(b);
      MaxIsGreatest(b);
      SumBounds(b);
      MeanBetween(Sum(b), |b|, lo, hi);
      hr := Some(HrStats(avg, lo, hi));
    }
  }

  /** The summary dictionary: empty for an empty frame, otherwise the counts and, when readings exist, the statistics. */
  datatype FitnessSummary =
    | Empty
    | Summary(heartRateRecords: nat, hr: Option<HrStats>, stepsTotalRaw: nat)

  /** The heart-rate pass of `summarize_fitness`: counts the rows and collects the readable bpm values. */
  method ScanHeartRate(rows: seq<FitnessRow>) returns (records: nat, bpms: seq<nat>)
    ensures records == HeartRateCount(rows) && bpms == Bpms(rows)
  {
    records := 0;
    bpms := [];
    for k := 0 to |rows|
      invariant records == HeartRateCount(rows[..k])
      invariant bpms == Bpms(rows[..k])
    {
      assert rows[..k + 1][..k] == rows[..k];
      if IsHeartRate(rows[k]) {
        records := records + 1;
        var m := NumberAfter(rows[k].value, BpmKey);
        if m.Some? {
          bpms := bpms + [m.value];
        }
      }
    }
    assert rows[..|rows|] == rows;
  }

  /** The steps pass of `summarize_fitness`: adds the step count of each steps row. */
  method ScanSteps(rows: seq<FitnessRow>) returns (total: nat)
    ensures total == StepsTotal(rows)
  {
    total := 0;
    for k := 0 to |rows|
      invariant total == StepsTotal(rows[..k])
    {
      assert rows[..k + 1][..k] == rows[..k];
      if IsSteps(rows[k]) {
        var m := NumberAfter(rows[k].value, StepsKey);
        if m.Some? {
          total := total + m.value;
        }
      }
    }
    assert rows[..|rows|] == rows;
  }

  /**
    `summarize_fitness`: `{}` for an empty frame; otherwise the number of
    heart-rate rows (those whose bpm cannot be read included), the HR
    statistics only when some bpm was read (then min <= avg <= max, each an
    actual reading bound of all readings), and the sum of the step counts.
   */
  method SummarizeFitness(rows: seq<FitnessRow>) returns (out: FitnessSummary)
    ensures rows == [] <==> out.Empty?
    ensures out.Summary? ==> out.heartRateRecords == HeartRateCount(rows)
    ensures out.Summary? ==> out.stepsTotalRaw == StepsTotal(rows)
    ensures out.Summary? ==> (out.hr.Some? <==> |Bpms(rows)| > 0)
    ensures out.Summary? && out.hr.Some? ==> Describes(Bpms(rows), out.hr.value)
  {
    if rows == [] {
      return Empty;
    }
    var records, bpms := ScanHeartRate(rows);
    var hr := HrStatsOf(bpms);
    var total := ScanSteps(rows);
    out := Summary(records, hr, total);
  }
}
