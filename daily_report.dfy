/**
  The per-day fitness table built from the aggregated export: only rows
  tagged `daily+AF8-report` count; each distinct report date gets one line
  holding the first stand count, intensity and calorie figure recorded for
  it (0 when there is none); lines are in ascending date order.
 */
module DailyReport {
  import opened Wrappers
  import opened SeqStats
  import opened EncodedValues

  /**
    The columns of an export row the table reads. `time` is `Time` after
    `pd.to_numeric` and `int()`, `None` when it is not numeric; `value` is
    `None` for an empty cell.
   */
  datatype ExportRow = ExportRow(tag: string, key: string, time: Option<int>, value: Option<string>)

  /**
    A report date as a UTC day number; `None` for a row without a time.
    Day numbers order like the `%Y-%m-%d` strings the table is indexed by.
   */
  type Date = Option<int>

  const SecondsPerDay: int := 86400
  const ReportTag: string := "daily+AF8-report"
  const StandKey: string := "valid+AF8-stand"
  const IntensityKey: string := "intensity"
  const CaloriesKey: string := "calories"

  /** The UTC day of a timestamp: `utcfromtimestamp(int(x))` truncated to its date. */
  function DateOf(time: Option<int>): (d: Date)
    ensures d.None? <==> time.None?
    ensures d.Some? ==> d.value * SecondsPerDay <= time.value < (d.value + 1) * SecondsPerDay
  {
    if time.None? then None else Some(time.value / SecondsPerDay)
  }

  /** Two timestamps of the same UTC day have the same date. */
  lemma SameDay(t: int, u: int, day: int)
    requires day * SecondsPerDay <= t < (day + 1) * SecondsPerDay
    requires day * SecondsPerDay <= u < (day + 1) * SecondsPerDay
    ensures DateOf(Some(t)) == DateOf(Some(u)) == Some(day)
  {
  }

  /** The order of `sort_index`: real dates ascending, the missing date last. */
  predicate Before(a: Date, b: Date) {
    a.Some? && (b.None? || a.value < b.value)
  }

  predicate StrictlySorted(ds: seq<Date>) {
    forall i, j :: 0 <= i < j < |ds| ==> Before(ds[i], ds[j])
  }

  /** `Before` is a strict total order. */
  lemma BeforeTotal(a: Date, b: Date, c: Date)
    ensures !Before(a, a)
    ensures a != b ==> Before(a, b) || Before(b, a)
    ensures Before(a, b) && Before(b, c) ==> Before(a, c)
  {
  }

  /** Insert a date into a sorted list of distinct dates, unless it is already there. */
  function Insert(d: Date, ds: seq<Date>): seq<Date>
    decreases |ds|
  {
    if |ds| == 0 then [d]
    else if ds[0] == d then ds
    else if Before(d, ds[0]) then [d] + ds
    else [ds[0]] + Insert(d, ds[1..])
  }

  /** Inserting keeps the list sorted and adds exactly the one date. */
  lemma {:induction false} InsertSpec(d: Date, ds: seq<Date>)
    requires StrictlySorted(ds)
    ensures StrictlySorted(Insert(d, ds))
    ensures forall x :: x in Insert(d, ds) <==> x == d || x in ds
    decreases |ds|
  {
    if |ds| > 0 && ds[0] != d && !Before(d, ds[0]) {
      var rest := ds[1..];
      InsertSpec(d, rest);
      var r := Insert(d, ds);
      assert r == [ds[0]] + Insert(d, rest);
      assert Before(ds[0], d);
      forall x | x in ds ensures x == ds[0] || x in rest {
        var k :| 0 <= k < |ds| && ds[k] == x;
        if k > 0 {
          assert rest[k - 1] == x;
        }
      }
      forall x | x in rest ensures Before(ds[0], x) {
        var k :| 0 <= k < |rest| && rest[k] == x;
        assert ds[k + 1] == x;
      }
      forall i, j | 0 <= i < j < |r| ensures Before(r[i], r[j]) {
        if i == 0 {
          assert r[j] in Insert(d, rest);
        } else {
          assert r[i] == Insert(d, rest)[i - 1] && r[j] == Insert(d, rest)[j - 1];
        }
      }
    } else if |ds| > 0 && ds[0] != d {
      var r := Insert(d, ds);
      assert r == [d] + ds;
      forall i, j | 0 <= i < j < |r| ensures Before(r[i], r[j]) {
        if i == 0 {
          BeforeTotal(d, ds[0], ds[j - 1]);
          if j > 1 {
            assert Before(ds[0], ds[j - 1]);
          }
        } else {
          assert r[i] == ds[i - 1] && r[j] == ds[j - 1];
        }
      }
    }
  }

  predicate IsReport(r: ExportRow) {
    r.tag == ReportTag
  }

  /** The report dates, distinct and in table order (`pd.unique` followed by `sort_index`). */
  function ReportDates(rows: seq<ExportRow>): seq<Date>
    decreases |rows|
  {
    if |rows| == 0 then []
    else
      var ds := ReportDates(rows[..|rows| - 1]);
      var r := rows[|rows| - 1];
      if IsReport(r) then Insert(DateOf(r.time), ds) else ds
  }

  /** The report dates are sorted without repeats, and are exactly the dates of the report rows. */
  lemma {:induction false} ReportDatesSpec(rows: seq<ExportRow>)
    ensures StrictlySorted(ReportDates(rows))
    ensures forall d :: d in ReportDates(rows) <==> exists r :: r in rows && IsReport(r) && DateOf(r.time) == d
    decreases |rows|
  {
    if |rows| > 0 {
      var init := rows[..|rows| - 1];
      var last := rows[|rows| - 1];
      ReportDatesSpec(init);
      if IsReport(last) {
        InsertSpec(DateOf(last.time), ReportDates(init));
      }
      assert forall r :: r in rows <==> r in init || r == last;
    }
  }

  /** Row `r` feeds the figure `key` of the (real) date `d`. */
  predicate Selects(r: ExportRow, d: int, key: string) {
    IsReport(r) && r.key == key && DateOf(r.time) == Some(d)
  }

  /** `groupby('Date')[...].first()`: the figure of the first row selected for the date and key. */
  function FirstFigure(rows: seq<ExportRow>, d: int, key: string): Option<nat>
    decreases |rows|
  {
    if |rows| == 0 then None
    else if Selects(rows[0], d, key) then Some(ExtractFirstNumber(rows[0].value))
    else FirstFigure(rows[1..], d, key)
  }

  /** The figure is absent exactly when no row is selected for the date and key. */
  lemma {:induction false} FirstFigureNone(rows: seq<ExportRow>, d: int, key: string)
    ensures FirstFigure(rows, d, key).None? <==> forall j :: 0 <= j < |rows| ==> !Selects(rows[j], d, key)
    decreases |rows|
  {
    if |rows| > 0 && !Selects(rows[0], d, key) {
      FirstFigureNone(rows[1..], d, key);
      assert forall j :: 1 <= j < |rows| ==> rows[j] == rows[1..][j - 1];
    }
  }

  /** When present, the figure is read from the first selected row. */
  lemma {:induction false} FirstFigureSome(rows: seq<ExportRow>, d: int, key: string)
    requires FirstFigure(rows, d, key).Some?
    ensures exists j ::
      && 0 <= j < |rows| && FirstSelected(rows, d, key, j)
      && FirstFigure(rows, d, key).value == ExtractFirstNumber(rows[j].value)
    decreases |rows|
  {
    if Selects(rows[0], d, key) {
      assert FirstSelected(rows, d, key, 0);
    } else {
      var rest := rows[1..];
      FirstFigureSome(rest, d, key);
      var j :| 0 <= j < |rest| && FirstSelected(rest, d, key, j)
        && FirstFigure(rest, d, key).value == ExtractFirstNumber(rest[j].value);
      assert rows[j + 1] == rest[j];
      forall k | 0 <= k < j + 1 ensures !Selects(rows[k], d, key) {
        if k > 0 {
          assert rows[k] == rest[k - 1];
        }
      }
      assert FirstSelected(rows, d, key, j + 1);
    }
  }

  /** Row `j` is the first row selected for the date and key. */
  predicate FirstSelected(rows: seq<ExportRow>, d: int, key: string, j: nat)
    requires j < |rows|
  {
    Selects(rows[j], d, key) && forall k :: 0 <= k < j ==> !Selects(rows[k], d, key)
  }

  /** A table cell: the first figure, or 0 (`fillna(0)`); the missing date is dropped by `groupby`, so it always reads 0. */
  function Figure(rows: seq<ExportRow>, d: Date, key: string): nat {
    if d.None? then 0 else FirstFigure(rows, d.value, key).GetOr(0)
  }

  /** A line of the table. */
  datatype DaySummary = DaySummary(date: Date, standCount: nat, intensityMin: nat, calories: nat)

  function LineFor(rows: seq<ExportRow>): Date -> DaySummary {
    d => DaySummary(d, Figure(rows, d, StandKey), Figure(rows, d, IntensityKey), Figure(rows, d, CaloriesKey))
  }

  /**
    `clean_fitness_data` on the parsed export: one line per report date (see
    `ReportDatesSpec`), in ascending date order without repeats, each line
    holding the first figure of each kind for its date, 0 where there is none.
   */
  function CleanFitnessData(rows: seq<ExportRow>): (out: seq<DaySummary>)
    ensures |out| == |ReportDates(rows)|
    ensures forall i, j :: 0 <= i < j < |out| ==> Before(out[i].date, out[j].date)
    ensures forall i :: 0 <= i < |out| ==>
      && out[i].date == ReportDates(rows)[i]
      && out[i].standCount == Figure(rows, out[i].date, StandKey)
      && out[i].intensityMin == Figure(rows, out[i].date, IntensityKey)
      && out[i].calories == Figure(rows, out[i].date, CaloriesKey)
  {
    ReportDatesSpec(rows);
    MapAll(LineFor(rows), ReportDates(rows));
    Map(LineFor(rows), ReportDates(rows))
  }

  /** A date with no selected row of some kind reads 0 for it. */
  lemma MissingFigureIsZero(rows: seq<ExportRow>, d: Date, key: string)
    requires d.None? || forall j :: 0 <= j < |rows| ==> !Selects(rows[j], d.value, key)
    ensures Figure(rows, d, key) == 0
  {
    if d.Some? {
      FirstFigureNone(rows, d.value, key);
    }
  }

  /** Rows not tagged as daily reports change nothing in the table. */
  lemma {:induction false} OtherTagsIgnored(rows: seq<ExportRow>, r: ExportRow)
    requires !IsReport(r)
    ensures CleanFitnessData(rows + [r]) == CleanFitnessData(rows)
  {
    var all := rows + [r];
    assert all[..|all| - 1] == rows;
    assert ReportDates(all) == ReportDates(rows);
    forall d: Date, key: string ensures Figure(all, d, key) == Figure(rows, d, key) {
      if d.Some? {
        FigureIgnores(rows, r, d.value, key);
      }
    }
    var ds := ReportDates(rows);
    forall i | 0 <= i < |ds| ensures Map(LineFor(all), ds)[i] == Map(LineFor(rows), ds)[i] {
      MapAt(LineFor(all), ds, i);
      MapAt(LineFor(rows), ds, i);
    }
  }

  /** Appending a row that is not selected leaves the first figure unchanged. */
  lemma {:induction false} FigureIgnores(rows: seq<ExportRow>, r: ExportRow, d: int, key: string)
    requires !Selects(r, d, key)
    ensures FirstFigure(rows + [r], d, key) == FirstFigure(rows, d, key)
    decreases |rows|
  {
    if |rows| == 0 {
      assert FirstFigure([r], d, key) == FirstFigure([r][1..], d, key);
    } else {
      assert (rows + [r])[1..] == rows[1..] + [r];
      FigureIgnores(rows[1..], r, d, key);
    }
  }
}
