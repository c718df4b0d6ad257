/**
  The training-data preprocessor: raw fitness records are bucketed into
  fixed-width time windows starting at the earliest timestamp, each
  non-empty window is aggregated into calories, steps, distance, heart-rate
  statistics and sleep, and each aggregate is rendered as a one-line
  natural-language summary.
 */
module TimeWindows {
  import opened Wrappers
  import opened Strings
  import opened SeqStats

  /** One parsed row of the raw fitness export: its Key, its Time and its decoded JSON fields. */
  datatype FitnessRecord = FitnessRecord(key: string, time: int, parsed: map<string, int>)

  /** `value.get(field, 0)`. */
  function Get(parsed: map<string, int>, field: string): int {
    if field in parsed then parsed[field] else 0
  }

  /** The aggregate of one window; the `datetime` text of the start is not part of this model. */
  datatype Window = Window(
    timestamp: int,
    calories: int,
    steps: int,
    distance: int,
    hrAvg: real,
    hrMax: int,
    hrMin: int,
    hrReadings: nat,
    sleepDuration: int,
    activeMinutes: int)

  // ---------------------------------------------------------------- arithmetic

  lemma MulAtLeast(d: int, ws: int)
    requires ws > 0
    ensures d >= 1 ==> d * ws >= ws
    ensures d <= -1 ==> d * ws <= -ws
  {
    if d >= 1 {
      assert d * ws == (d - 1) * ws + ws;
    } else if d <= -1 {
      assert d * ws == (d + 1) * ws - ws;
    }
  }

  /** Euclidean remainder is determined by any quotient/remainder decomposition. */
  lemma ModUnique(x: int, ws: int, q: int, r: int)
    requires ws > 0 && x == q * ws + r && 0 <= r < ws
    ensures x % ws == r
  {
    var q' := x / ws;
    var d := q - q';
    assert d * ws == q * ws - q' * ws;
    MulAtLeast(d, ws);
  }

  lemma ModShift(a: int, ws: int)
    requires ws > 0
    ensures (a + ws) % ws == a % ws
  {
    ModUnique(a + ws, ws, a / ws + 1, a % ws);
  }

  // ---------------------------------------------------------------- per-window aggregation

  /** Sum of `value.get(field, 0)` over the rows whose Key is `key`. */
  function SumField(rows: seq<FitnessRecord>, key: string, field: string): int
    decreases |rows|
  {
    if rows == [] then 0
    else
      var last := rows[|rows| - 1];
      SumField(rows[..|rows| - 1], key, field) + (if last.key == key then Get(last.parsed, field) else 0)
  }

  /** The positive bpm readings of the heart_rate rows, in row order. */
  function PositiveBpms(rows: seq<FitnessRecord>): seq<nat>
    decreases |rows|
  {
    if rows == [] then []
    else
      var last := rows[|rows| - 1];
      var bpm := Get(last.parsed, "bpm");
      PositiveBpms(rows[..|rows| - 1]) + (if last.key == "heart_rate" && bpm > 0 then [bpm as nat] else [])
  }

  /** There are at most as many readings as rows, and every reading is positive. */
  lemma {:induction false} BpmsPositive(rows: seq<FitnessRecord>)
    ensures |PositiveBpms(rows)| <= |rows|
    ensures forall k :: 0 <= k < |PositiveBpms(rows)| ==> PositiveBpms(rows)[k] > 0
    decreases |rows|
  {
    if rows != [] {
      BpmsPositive(rows[..|rows| - 1]);
    }
  }

  /**
    What a window's aggregate is, stated without the running updates:
    calories from the calories rows plus the calories of the steps rows,
    steps and distance from the steps rows, sleep from the sleep rows, the
    count, minimum, maximum and exact mean of the positive bpm readings
    (all 0 when there is none), and no active minutes.
   */
  function AggSpec(rows: seq<FitnessRecord>, start: int): (w: Window)
    ensures w.timestamp == start && w.activeMinutes == 0
    ensures w.hrReadings <= |rows|
  {
    BpmsPositive(rows);
    var b := PositiveBpms(rows);
    Window(start, Calories(rows), SumField(rows, "steps", "steps"), SumField(rows, "steps", "distance"),
      MeanBpm(b), MaxBpm(b), MinBpm(b), |b|, SumField(rows, "sleep", "duration"), 0)
  }

  /** Calories from the calories rows plus the calories of the steps rows. */
  function Calories(rows: seq<FitnessRecord>): int {
    SumField(rows, "calories", "calories") + SumField(rows, "steps", "calories")
  }

  /** The exact mean of the readings, 0 without one. */
  function MeanBpm(b: seq<nat>): real {
    if b == [] then 0.0 else Sum(b) as real / |b| as real
  }

  /** The largest reading, 0 without one. */
  function MaxBpm(b: seq<nat>): int {
    if b == [] then 0 else SeqMax(b)
  }

  /** The smallest reading, 0 without one. */
  function MinBpm(b: seq<nat>): int {
    if b == [] then 0 else SeqMin(b)
  }

  /**
    Statistics of positive readings: all 0 without a reading; otherwise a
    positive minimum, and the mean between minimum and maximum.
   */
  lemma ReadingStats(b: seq<nat>)
    requires forall k :: 0 <= k < |b| ==> b[k] > 0
    ensures b == [] ==> MeanBpm(b) == 0.0 && MinBpm(b) == 0 && MaxBpm(b) == 0
    ensures b != [] ==> 0 < MinBpm(b) <= MaxBpm(b)
    ensures b != [] ==> MinBpm(b) as real <= MeanBpm(b) <= MaxBpm(b) as real
  {
    if b != [] {
      MeanWithinRange(b);
      MinIsLeast(b);
      MaxIsGreatest(b);
    }
  }

  /** The heart-rate fields of an aggregate, which follow from `ReadingStats`. */
  lemma AggSpecHeartRate(rows: seq<FitnessRecord>, start: int)
    ensures var w := AggSpec(rows, start);
      && (w.hrReadings == 0 ==> w.hrAvg == 0.0 && w.hrMin == 0 && w.hrMax == 0)
      && (w.hrReadings > 0 ==> 0 < w.hrMin <= w.hrMax && w.hrMin as real <= w.hrAvg <= w.hrMax as real)
  {
    BpmsPositive(rows);
    ReadingStats(PositiveBpms(rows));
  }

  function IntMin(a: int, b: int): int { if a <= b then a else b }
  function IntMax(a: int, b: int): int { if a >= b then a else b }

  /** The first reading sets the minimum, the maximum and the mean to itself. */
  lemma FirstReading(bpm: nat)
    ensures MinBpm([bpm]) == bpm && MaxBpm([bpm]) == bpm
    ensures MeanBpm([bpm]) == bpm as real
  {
    assert [bpm][..0] == [];
    assert Sum([bpm]) == bpm;
    assert |[bpm]| as real == 1.0;
  }

  /** A later reading extends the minimum and the maximum. */
  lemma NextReadingRange(b: seq<nat>, bpm: nat)
    requires b != []
    ensures MinBpm(b + [bpm]) == IntMin(MinBpm(b), bpm)
    ensures MaxBpm(b + [bpm]) == IntMax(MaxBpm(b), bpm)
  {
    assert (b + [bpm])[..|b|] == b;
  }

  /** The running update of a mean `avg` of `n` readings by one more reading `x`. */
  function RunningAvg(avg: real, n: nat, x: int): real {
    (avg * n as real + x as real) / (n + 1) as real
  }

  /** The running update of the mean is the mean with the new reading added. */
  lemma NextReadingMean(b: seq<nat>, bpm: nat)
    requires b != []
    ensures MeanBpm(b + [bpm]) == RunningAvg(MeanBpm(b), |b|, bpm)
  {
    assert (b + [bpm])[..|b|] == b;
    var sum, n, x := Sum(b) as real, |b| as real, bpm as real;
    assert Sum(b + [bpm]) as real == sum + x;
    assert |b + [bpm]| as real == n + 1.0;
    assert (|b| + 1) as real == n + 1.0;
    assert MeanBpm(b) == sum / n;
    RunningMean(sum, n, x);
  }

  /** `sum / n * n` is `sum` again. */
  lemma RunningMean(sum: real, n: real, x: real)
    requires n > 0.0
    ensures (sum / n * n + x) / (n + 1.0) == (sum + x) / (n + 1.0)
  {
    assert sum / n * n == sum;
  }

  /** One more row adds its field to the sum exactly when its key matches. */
  lemma SumFieldSnoc(rows: seq<FitnessRecord>, r: FitnessRecord, key: string, field: string)
    ensures SumField(rows + [r], key, field)
         == SumField(rows, key, field) + (if r.key == key then Get(r.parsed, field) else 0)
  {
    assert (rows + [r])[..|rows|] == rows;
  }

  /** One more row adds its calories when it is a calories or a steps row. */
  lemma CaloriesSnoc(rows: seq<FitnessRecord>, r: FitnessRecord)
    ensures Calories(rows + [r])
         == Calories(rows) + (if r.key == "calories" || r.key == "steps" then Get(r.parsed, "calories") else 0)
  {
    SumFieldSnoc(rows, r, "calories", "calories");
    SumFieldSnoc(rows, r, "steps", "calories");
  }

  /** One more row adds a reading exactly when it is a heart_rate row with a positive bpm. */
  lemma BpmsSnoc(rows: seq<FitnessRecord>, r: FitnessRecord)
    ensures var bpm := Get(r.parsed, "bpm");
      PositiveBpms(rows + [r])
      == PositiveBpms(rows) + (if r.key == "heart_rate" && bpm > 0 then [bpm as nat] else [])
  {
    assert (rows + [r])[..|rows|] == rows;
  }

  /** `_aggregate_window`: the running aggregate over the rows of one window, updated field by field per row. */
  method AggregateWindow(rows: seq<FitnessRecord>, start: int) returns (agg: Window)
    ensures agg == AggSpec(rows, start)
  {
    agg := Window(start, 0, 0, 0, 0.0, 0, 0, 0, 0, 0);
    for i := 0 to |rows|
      invariant agg == AggSpec(rows[..i], start)
    {
      assert rows[..i + 1] == rows[..i] + [rows[i]];
      agg := AddRecord(agg, rows[..i], rows[i], start);
    }
    assert rows[..|rows|] == rows;
  }

  /** One turn of the `_aggregate_window` loop: fold one more record into the running aggregate. */
  method AddRecord(agg: Window, ghost pre: seq<FitnessRecord>, row: FitnessRecord, start: int) returns (next: Window)
    requires agg == AggSpec(pre, start)
    ensures next == AggSpec(pre + [row], start)
  {
    CaloriesSnoc(pre, row);
    SumFieldSnoc(pre, row, "steps", "steps");
    SumFieldSnoc(pre, row, "steps", "distance");
    SumFieldSnoc(pre, row, "sleep", "duration");
    BpmsSnoc(pre, row);
    assert row.key != "heart_rate" ==> PositiveBpms(pre + [row]) == PositiveBpms(pre);
    var value := row.parsed;
    next := agg;
    if row.key == "calories" {
      next := next.(calories := next.calories + Get(value, "calories"));
    } else if row.key == "steps" {
      next := next.(steps := next.steps + Get(value, "steps"));
      next := next.(distance := next.distance + Get(value, "distance"));
      next := next.(calories := next.calories + Get(value, "calories"));
    } else if row.key == "heart_rate" {
      next := AddHeartRate(agg, pre, row, start);
    } else if row.key == "sleep" {
      next := next.(sleepDuration := next.sleepDuration + Get(value, "duration"));
    }
  }

  /** The heart-rate branch: a positive bpm updates min, max, the running mean and the count. */
  method AddHeartRate(agg: Window, ghost pre: seq<FitnessRecord>, row: FitnessRecord, start: int) returns (next: Window)
    requires agg == AggSpec(pre, start) && row.key == "heart_rate"
    ensures next == AggSpec(pre + [row], start)
  {
    CaloriesSnoc(pre, row);
    SumFieldSnoc(pre, row, "steps", "steps");
    SumFieldSnoc(pre, row, "steps", "distance");
    SumFieldSnoc(pre, row, "sleep", "duration");
    BpmsSnoc(pre, row);
    ghost var b := PositiveBpms(pre);
    var bpm := Get(row.parsed, "bpm");
    next := agg;
    if bpm > 0 {
      assert PositiveBpms(pre + [row]) == b + [bpm as nat];
      if agg.hrReadings == 0 {
        assert b + [bpm as nat] == [bpm as nat];
        FirstReading(bpm);
        next := next.(hrMin := bpm, hrMax := bpm, hrAvg := bpm as real);
      } else {
        NextReadingRange(b, bpm);
        NextReadingMean(b, bpm);
        next := next.(hrMin := IntMin(agg.hrMin, bpm), hrMax := IntMax(agg.hrMax, bpm),
                      hrAvg := RunningAvg(agg.hrAvg, agg.hrReadings, bpm));
      }
      next := next.(hrReadings := agg.hrReadings + 1);
    } else {
      assert PositiveBpms(pre + [row]) == b;
    }
  }

  // ---------------------------------------------------------------- windows

  /** The records with `lo <= Time < hi`, in record order (the boolean-mask selection). */
  function InWindow(records: seq<FitnessRecord>, lo: int, hi: int): seq<FitnessRecord>
    decreases |records|
  {
    if records == [] then []
    else
      var last := records[|records| - 1];
      InWindow(records[..|records| - 1], lo, hi) + (if lo <= last.time < hi then [last] else [])
  }

  /** Every selected record is a record whose time lies in the window. */
  lemma {:induction false} InWindowOnly(records: seq<FitnessRecord>, lo: int, hi: int, r: FitnessRecord)
    requires r in InWindow(records, lo, hi)
    ensures r in records && lo <= r.time < hi
    decreases |records|
  {
    if records != [] {
      var init := records[..|records| - 1];
      if r in InWindow(init, lo, hi) {
        InWindowOnly(init, lo, hi, r);
        assert r in records by { var k :| 0 <= k < |init| && init[k] == r; assert records[k] == r; }
      }
    }
  }

  /** A record whose time lies in the window is selected for it. */
  lemma {:induction false} InWindowHas(records: seq<FitnessRecord>, lo: int, hi: int, k: nat)
    requires k < |records| && lo <= records[k].time < hi
    ensures records[k] in InWindow(records, lo, hi)
    decreases |records|
  {
    if k < |records| - 1 {
      InWindowHas(records[..|records| - 1], lo, hi, k);
    }
  }

  /** Some record's time lies in `[lo, hi)`. */
  predicate Occupied(records: seq<FitnessRecord>, lo: int, hi: int)
    decreases |records|
  {
    |records| > 0 &&
    (lo <= records[|records| - 1].time < hi || Occupied(records[..|records| - 1], lo, hi))
  }

  /** A window is occupied exactly when its selection is not empty. */
  lemma {:induction false} OccupiedIff(records: seq<FitnessRecord>, lo: int, hi: int)
    ensures Occupied(records, lo, hi) <==> |InWindow(records, lo, hi)| > 0
    decreases |records|
  {
    if |records| > 0 {
      OccupiedIff(records[..|records| - 1], lo, hi);
    }
  }

  /** A record whose time lies in `[lo, hi)` makes that window occupied. */
  lemma {:induction false} OccupiedHas(records: seq<FitnessRecord>, lo: int, hi: int, k: nat)
    requires k < |records| && lo <= records[k].time < hi
    ensures Occupied(records, lo, hi)
    decreases |records|
  {
    if k < |records| - 1 {
      OccupiedHas(records[..|records| - 1], lo, hi, k);
    }
  }

  /** `self.fitness_data['Time'].min()`. */
  function MinTime(records: seq<FitnessRecord>): int
    requires records != []
    decreases |records|
  {
    if |records| == 1 then records[0].time
    else IntMin(MinTime(records[..|records| - 1]), records[|records| - 1].time)
  }

  /** `self.fitness_data['Time'].max()`. */
  function MaxTime(records: seq<FitnessRecord>): int
    requires records != []
    decreases |records|
  {
    if |records| == 1 then records[0].time
    else IntMax(MaxTime(records[..|records| - 1]), records[|records| - 1].time)
  }

  /** The earliest time is the time of some record and no record is earlier. */
  lemma {:induction false} MinTimeIsLeast(records: seq<FitnessRecord>)
    requires records != []
    ensures forall k :: 0 <= k < |records| ==> MinTime(records) <= records[k].time
    ensures exists k :: 0 <= k < |records| && records[k].time == MinTime(records)
    decreases |records|
  {
    if |records| == 1 {
      assert records[0].time == MinTime(records);
    } else {
      var init := records[..|records| - 1];
      MinTimeIsLeast(init);
      assert forall k :: 0 <= k < |init| ==> init[k] == records[k];
      if MinTime(records) == MinTime(init) {
        var k :| 0 <= k < |init| && init[k].time == MinTime(init);
        assert records[k].time == MinTime(records);
      } else {
        assert records[|records| - 1].time == MinTime(records);
      }
    }
  }

  /** The latest time is the time of some record and no record is later. */
  lemma {:induction false} MaxTimeIsGreatest(records: seq<FitnessRecord>)
    requires records != []
    ensures forall k :: 0 <= k < |records| ==> records[k].time <= MaxTime(records)
    ensures exists k :: 0 <= k < |records| && records[k].time == MaxTime(records)
    decreases |records|
  {
    if |records| == 1 {
      assert records[0].time == MaxTime(records);
    } else {
      var init := records[..|records| - 1];
      MaxTimeIsGreatest(init);
      assert forall k :: 0 <= k < |init| ==> init[k] == records[k];
      if MaxTime(records) == MaxTime(init) {
        var k :| 0 <= k < |init| && init[k].time == MaxTime(init);
        assert records[k].time == MaxTime(records);
      } else {
        assert records[|records| - 1].time == MaxTime(records);
      }
    }
  }

  /**
    The starts of the windows the loop emits from `cur` on: while
    `cur < maxT`, the start `cur` is kept if `[cur, cur + ws)` holds a
    record, then `cur` advances by `ws`.
   */
  function WindowStarts(records: seq<FitnessRecord>, cur: int, maxT: int, ws: int): seq<int>
    requires ws > 0 || cur >= maxT
    decreases maxT - cur
  {
    if cur >= maxT then []
    else
      (if Occupied(records, cur, cur + ws) then [cur] else []) + WindowStarts(records, cur + ws, maxT, ws)
  }

  /** The aggregate of the window `[s, s + ws)` for a start `s`. */
  function WindowAt(records: seq<FitnessRecord>, ws: int): int -> Window {
    s => AggSpec(InWindow(records, s, s + ws), s)
  }

  lemma WindowAtIs(records: seq<FitnessRecord>, ws: int, s: int)
    ensures WindowAt(records, ws)(s) == AggSpec(InWindow(records, s, s + ws), s)
  {
  }

  /** The windows emitted from start `cur` on: the aggregate of each window start. */
  function WindowsFrom(records: seq<FitnessRecord>, cur: int, maxT: int, ws: int): (windows: seq<Window>)
    requires ws > 0 || cur >= maxT
    ensures |windows| == |WindowStarts(records, cur, maxT, ws)|
  {
    Map(WindowAt(records, ws), WindowStarts(records, cur, maxT, ws))
  }

  /** The window at each position is the aggregate of the records of its own interval. */
  lemma WindowsFromAt(records: seq<FitnessRecord>, cur: int, maxT: int, ws: int, k: nat)
    requires ws > 0 || cur >= maxT
    requires k < |WindowStarts(records, cur, maxT, ws)|
    ensures var t := WindowStarts(records, cur, maxT, ws)[k];
      WindowsFrom(records, cur, maxT, ws)[k] == AggSpec(InWindow(records, t, t + ws), t)
    ensures WindowsFrom(records, cur, maxT, ws)[k].timestamp == WindowStarts(records, cur, maxT, ws)[k]
  {
    MapAt(WindowAt(records, ws), WindowStarts(records, cur, maxT, ws), k);
  }

  lemma AppendAssoc<T>(a: seq<T>, b: seq<T>, c: seq<T>)
    ensures a + (b + c) == (a + b) + c
  {
  }

  /** The window a loop turn emits, as a list of zero or one windows. */
  function Emitted(w: Option<Window>): seq<Window> {
    if w.Some? then [w.value] else []
  }

  /**
    One turn of the loop body: the records of `[start, start + ws)` are
    selected, and aggregated when there is at least one.
   */
  method WindowOf(records: seq<FitnessRecord>, start: int, ws: int) returns (w: Option<Window>)
    ensures w.None? <==> !Occupied(records, start, start + ws)
    ensures w.Some? ==> w.value == WindowAt(records, ws)(start)
  {
    var windowData := InWindow(records, start, start + ws);
    OccupiedIff(records, start, start + ws);
    if |windowData| > 0 {
      var agg := AggregateWindow(windowData, start);
      WindowAtIs(records, ws, start);
      return Some(agg);
    }
    return None;
  }

  /**
    The windows from `cur` on are the window at `cur`, when it is occupied,
    followed by the windows from the next start on.
   */
  lemma WindowsFromStep(records: seq<FitnessRecord>, cur: int, maxT: int, ws: int)
    requires ws > 0 && cur < maxT
    ensures Occupied(records, cur, cur + ws) ==>
      WindowsFrom(records, cur, maxT, ws) == [WindowAt(records, ws)(cur)] + WindowsFrom(records, cur + ws, maxT, ws)
    ensures !Occupied(records, cur, cur + ws) ==>
      WindowsFrom(records, cur, maxT, ws) == WindowsFrom(records, cur + ws, maxT, ws)
  {
    StartsStep(records, cur, maxT, ws);
    MapCons(WindowAt(records, ws), cur, WindowStarts(records, cur + ws, maxT, ws));
  }

  /**
    `create_time_windows`: None where the source fails on a dataset with no
    record (the frame then has no Time column); otherwise the non-empty
    windows of `window_hours * 3600` seconds starting at the earliest time,
    while the start is before the latest time. A non-positive width is only
    admitted when every record has the same time, since the loop never ends
    otherwise.
   */
  method CreateTimeWindows(records: seq<FitnessRecord>, windowHours: int) returns (r: Option<seq<Window>>)
    requires windowHours > 0 || records == [] || MinTime(records) == MaxTime(records)
    ensures records == [] <==> r.None?
    ensures r.Some? ==> r.value == WindowsFrom(records, MinTime(records), MaxTime(records), windowHours * 3600)
  {
    if records == [] {
      return None;
    }
    var windowSeconds := windowHours * 3600;
    var minTime := MinTime(records);
    var maxTime := MaxTime(records);
    var windows: seq<Window> := [];
    var current := minTime;
    while current < maxTime
      invariant windowSeconds > 0 || current >= maxTime
      invariant windows + WindowsFrom(records, current, maxTime, windowSeconds)
             == WindowsFrom(records, minTime, maxTime, windowSeconds)
      decreases maxTime - current
    {
      var w := WindowOf(records, current, windowSeconds);
      var next := current + windowSeconds;
      WindowsFromStep(records, current, maxTime, windowSeconds);
      AppendAssoc(windows, Emitted(w), WindowsFrom(records, next, maxTime, windowSeconds));
      windows := windows + Emitted(w);
      current := next;
    }
    assert windows + [] == windows;
    return Some(windows);
  }

  /** Some window `[s, s + ws)` of the starts `s` contains the instant `t`. */
  ghost predicate Covered(starts: seq<int>, t: int, ws: int) {
    exists i :: 0 <= i < |starts| && starts[i] <= t < starts[i] + ws
  }

  /** `t` is `base` plus a whole number of widths. */
  predicate Aligned(t: int, base: int, ws: int)
    requires ws > 0
    decreases t - base
  {
    t == base || (t > base && Aligned(t, base + ws, ws))
  }

  /** Alignment is the remainder test `(t - base) % ws == 0` on `t >= base`. */
  lemma {:induction false} AlignedMod(t: int, base: int, ws: int)
    requires ws > 0
    ensures Aligned(t, base, ws) <==> t >= base && (t - base) % ws == 0
    decreases t - base
  {
    if t > base {
      AlignedMod(t, base + ws, ws);
      ModShift(t - (base + ws), ws);
      if t < base + ws {
        ModUnique(t - base, ws, 0, t - base);
      }
    } else if t < base {
      assert !Aligned(t, base, ws);
    }
  }

  /** One turn of the loop: the start `cur` is kept exactly when its window holds a record. */
  lemma StartsStep(records: seq<FitnessRecord>, cur: int, maxT: int, ws: int)
    requires ws > 0 && cur < maxT
    ensures Occupied(records, cur, cur + ws) ==>
      WindowStarts(records, cur, maxT, ws) == [cur] + WindowStarts(records, cur + ws, maxT, ws)
    ensures !Occupied(records, cur, cur + ws) ==>
      WindowStarts(records, cur, maxT, ws) == WindowStarts(records, cur + ws, maxT, ws)
  {
  }

  /** Covering is preserved by putting starts in front, and a cover comes from the front or the rest. */
  lemma CoveredConcat(h: seq<int>, rest: seq<int>, t: int, ws: int)
    ensures Covered(h + rest, t, ws) <==> Covered(h, t, ws) || Covered(rest, t, ws)
  {
    if Covered(rest, t, ws) {
      var i :| 0 <= i < |rest| && rest[i] <= t < rest[i] + ws;
      assert (h + rest)[|h| + i] == rest[i];
    }
    if Covered(h, t, ws) {
      var i :| 0 <= i < |h| && h[i] <= t < h[i] + ws;
      assert (h + rest)[i] == h[i];
    }
    if Covered(h + rest, t, ws) {
      var i :| 0 <= i < |h + rest| && (h + rest)[i] <= t < (h + rest)[i] + ws;
      if i < |h| {
        assert h[i] == (h + rest)[i];
      } else {
        assert rest[i - |h|] == (h + rest)[i];
      }
    }
  }

  /** Every window start lies at or after `cur` and before `maxT`. */
  lemma {:induction false} StartsRange(records: seq<FitnessRecord>, cur: int, maxT: int, ws: int, i: nat)
    requires ws > 0 && i < |WindowStarts(records, cur, maxT, ws)|
    ensures cur <= WindowStarts(records, cur, maxT, ws)[i] < maxT
    decreases maxT - cur
  {
    StartsStep(records, cur, maxT, ws);
    if !Occupied(records, cur, cur + ws) {
      StartsRange(records, cur + ws, maxT, ws, i);
    } else if i > 0 {
      StartsRange(records, cur + ws, maxT, ws, i - 1);
    }
  }

  /** Every window start lies a whole number of widths after `cur`. */
  lemma {:induction false} StartsAligned(records: seq<FitnessRecord>, cur: int, maxT: int, ws: int, i: nat)
    requires ws > 0 && i < |WindowStarts(records, cur, maxT, ws)|
    ensures Aligned(WindowStarts(records, cur, maxT, ws)[i], cur, ws)
    decreases maxT - cur
  {
    StartsStep(records, cur, maxT, ws);
    var s := WindowStarts(records, cur, maxT, ws);
    if !Occupied(records, cur, cur + ws) || i > 0 {
      var j := if !Occupied(records, cur, cur + ws) then i else i - 1;
      StartsAligned(records, cur + ws, maxT, ws, j);
      StartsRange(records, cur + ws, maxT, ws, j);
    }
  }

  /** The window of every start holds at least one record. */
  lemma {:induction false} StartsOccupied(records: seq<FitnessRecord>, cur: int, maxT: int, ws: int, i: nat)
    requires ws > 0 && i < |WindowStarts(records, cur, maxT, ws)|
    ensures var t := WindowStarts(records, cur, maxT, ws)[i];
      Occupied(records, t, t + ws)
    decreases maxT - cur
  {
    StartsStep(records, cur, maxT, ws);
    if !Occupied(records, cur, cur + ws) {
      StartsOccupied(records, cur + ws, maxT, ws, i);
    } else if i > 0 {
      StartsOccupied(records, cur + ws, maxT, ws, i - 1);
    }
  }

  /** Window starts are at least one width apart, in increasing order. */
  lemma {:induction false} StartsOrdered(records: seq<FitnessRecord>, cur: int, maxT: int, ws: int, i: nat, j: nat)
    requires ws > 0 && i < j < |WindowStarts(records, cur, maxT, ws)|
    ensures var s := WindowStarts(records, cur, maxT, ws);
      s[i] + ws <= s[j]
    decreases maxT - cur
  {
    StartsStep(records, cur, maxT, ws);
    if !Occupied(records, cur, cur + ws) {
      StartsOrdered(records, cur + ws, maxT, ws, i, j);
    } else if i > 0 {
      StartsOrdered(records, cur + ws, maxT, ws, i - 1, j - 1);
    } else {
      StartsRange(records, cur + ws, maxT, ws, j - 1);
    }
  }

  /** Every record at or after `cur` and before `maxT` lies in some emitted window. */
  lemma {:induction false} StartsCover(records: seq<FitnessRecord>, cur: int, maxT: int, ws: int, k: nat)
    requires ws > 0 && k < |records| && cur <= records[k].time < maxT
    ensures Covered(WindowStarts(records, cur, maxT, ws), records[k].time, ws)
    decreases maxT - cur
  {
    var t := records[k].time;
    StartsStep(records, cur, maxT, ws);
    var rest := WindowStarts(records, cur + ws, maxT, ws);
    if t < cur + ws {
      OccupiedHas(records, cur, cur + ws, k);
      CoveredConcat([cur], rest, t, ws);
      assert Covered([cur], t, ws) by { assert [cur][0] == cur; }
    } else {
      StartsCover(records, cur + ws, maxT, ws, k);
      if Occupied(records, cur, cur + ws) {
        CoveredConcat([cur], rest, t, ws);
      }
    }
  }

  /**
    With a record at the latest time `maxT`, that instant is covered exactly
    when `maxT` is not `cur` plus a whole number of widths.
   */
  lemma {:induction false} LastInstantCovered(records: seq<FitnessRecord>, cur: int, maxT: int, ws: int, k: nat)
    requires ws > 0 && k < |records| && records[k].time == maxT && cur <= maxT
    ensures Covered(WindowStarts(records, cur, maxT, ws), maxT, ws) <==> !Aligned(maxT, cur, ws)
    decreases maxT - cur
  {
    var s := WindowStarts(records, cur, maxT, ws);
    if cur == maxT {
      assert s == [];
      assert Aligned(maxT, cur, ws);
    } else {
      StartsStep(records, cur, maxT, ws);
      var rest := WindowStarts(records, cur + ws, maxT, ws);
      assert Aligned(maxT, cur, ws) == Aligned(maxT, cur + ws, ws);
      if maxT < cur + ws {
        OccupiedHas(records, cur, cur + ws, k);
        CoveredConcat([cur], rest, maxT, ws);
        assert Covered([cur], maxT, ws) by { assert [cur][0] == cur; }
        assert Covered(s, maxT, ws);
        assert !Aligned(maxT, cur + ws, ws);
      } else {
        LastInstantCovered(records, cur + ws, maxT, ws, k);
        if Occupied(records, cur, cur + ws) {
          CoveredConcat([cur], rest, maxT, ws);
          assert !Covered([cur], maxT, ws);
        }
        assert Covered(s, maxT, ws) == Covered(rest, maxT, ws);
      }
    }
  }

  /**
    The window starts of a dataset: each lies a whole number of widths after
    the earliest time and before the latest time, its window holds at least
    one record, and the starts strictly increase.
   */
  lemma DatasetWindowStarts(records: seq<FitnessRecord>, ws: int, i: nat, j: nat)
    requires records != [] && ws > 0
    requires i < j < |WindowStarts(records, MinTime(records), MaxTime(records), ws)|
    ensures var minT, s := MinTime(records), WindowStarts(records, MinTime(records), MaxTime(records), ws);
      && minT <= s[i] < MaxTime(records)
      && (s[i] - minT) % ws == 0
      && Occupied(records, s[i], s[i] + ws)
      && s[i] < s[j]
  {
    var minT, maxT := MinTime(records), MaxTime(records);
    var s := WindowStarts(records, minT, maxT, ws);
    StartsRange(records, minT, maxT, ws, i);
    StartsAligned(records, minT, maxT, ws, i);
    StartsOccupied(records, minT, maxT, ws, i);
    AlignedMod(s[i], minT, ws);
    StartsOrdered(records, minT, maxT, ws, i, j);
  }

  /** Every record earlier than the latest time lies in exactly one emitted window. */
  lemma EarlierRecordsCoveredOnce(records: seq<FitnessRecord>, ws: int, k: nat)
    requires ws > 0 && k < |records| && records[k].time < MaxTime(records)
    ensures Covered(WindowStarts(records, MinTime(records), MaxTime(records), ws), records[k].time, ws)
    ensures var s, t := WindowStarts(records, MinTime(records), MaxTime(records), ws), records[k].time;
      forall i, j :: 0 <= i < |s| && 0 <= j < |s| && s[i] <= t < s[i] + ws && s[j] <= t < s[j] + ws ==> i == j
  {
    var minT, maxT := MinTime(records), MaxTime(records);
    var s := WindowStarts(records, minT, maxT, ws);
    var t := records[k].time;
    MinTimeIsLeast(records);
    StartsCover(records, minT, maxT, ws, k);
    forall i, j | 0 <= i < |s| && 0 <= j < |s| && s[i] <= t < s[i] + ws && s[j] <= t < s[j] + ws
      ensures i == j
    {
      if j < i {
        StartsOrdered(records, minT, maxT, ws, j, i);
      } else if i < j {
        StartsOrdered(records, minT, maxT, ws, i, j);
      }
    }
  }

  /**
    The records at the latest time lie in an emitted window exactly when the
    time span is not a whole number of widths; in particular a dataset whose
    records all share one time yields no window at all.
   */
  lemma LatestRecordsCoveredIff(records: seq<FitnessRecord>, ws: int)
    requires records != [] && ws > 0
    ensures Covered(WindowStarts(records, MinTime(records), MaxTime(records), ws), MaxTime(records), ws)
        <==> (MaxTime(records) - MinTime(records)) % ws != 0
    ensures MinTime(records) == MaxTime(records) ==> WindowsFrom(records, MinTime(records), MaxTime(records), ws) == []
  {
    MaxTimeIsGreatest(records);
    MinTimeIsLeast(records);
    var k :| 0 <= k < |records| && records[k].time == MaxTime(records);
    LastInstantCovered(records, MinTime(records), MaxTime(records), ws, k);
    AlignedMod(MaxTime(records), MinTime(records), ws);
  }

  /** With a non-positive width the loop guard stays true forever once the span is non-empty. */
  lemma NonPositiveWidthNeverEnds(minT: int, maxT: int, ws: int, steps: nat)
    requires ws <= 0 && minT < maxT
    ensures minT + steps * ws < maxT
  {
    if ws < 0 {
      MulAtLeast(steps, -ws);
      assert steps * ws == -(steps * -ws);
    }
  }

  // ---------------------------------------------------------------- summary text

  function Header(date: string): string {
    "Health summary for " + date + ":"
  }

  function OptPart(c: bool, part: string): seq<string> {
    if c then [part] else []
  }

  /** The steps part: the step count and the distance in meters. */
  function StepsPart(w: Window): string {
    IntToString(w.steps) + " steps covering " + IntToString(w.distance) + " meters"
  }

  /** The calories part. */
  function CaloriesPart(w: Window): string {
    IntToString(w.calories) + " calories burned"
  }

  /** The heart-rate part: the mean with no decimal, then the range. */
  function HeartRatePart(w: Window, fmt0: real -> string): string {
    "heart rate averaged " + fmt0(w.hrAvg) + " bpm (range: " + IntToString(w.hrMin) + "-" + IntToString(w.hrMax) + ")"
  }

  /** The sleep part: the minutes of sleep as hours with one decimal. */
  function SleepPart(w: Window, fmt1: real -> string): string {
    fmt1(w.sleepDuration as real / 60.0) + " hours of sleep"
  }

  /**
    The parts of a window's summary: the header, then the steps, calories,
    heart-rate and sleep parts, each only when its quantity is positive.
    `fmt0` and `fmt1` render a float with no and with one decimal.
   */
  function SummaryParts(w: Window, date: string, fmt0: real -> string, fmt1: real -> string): (p: seq<string>)
    ensures 1 <= |p| <= 5 && p[0] == Header(date)
  {
    [Header(date)]
    + OptPart(w.steps > 0, StepsPart(w))
    + OptPart(w.calories > 0, CaloriesPart(w))
    + OptPart(w.hrReadings > 0, HeartRatePart(w, fmt0))
    + OptPart(w.sleepDuration > 0, SleepPart(w, fmt1))
  }

  /** The summary sentence: it opens with the header and ends with a full stop. */
  function SummaryText(w: Window, date: string, fmt0: real -> string, fmt1: real -> string): (text: string)
    ensures StartsWith(text, Header(date)) && EndsWith(text, ".")
  {
    SummaryStartsWithHeader(SummaryParts(w, date, fmt0, fmt1), ". ");
    Join(SummaryParts(w, date, fmt0, fmt1), ". ") + "."
  }

  /** `_create_summary_text`: the parts appended one by one, joined by ". ", closed by ".". */
  method CreateSummaryText(w: Window, date: string, fmt0: real -> string, fmt1: real -> string) returns (text: string)
    ensures text == SummaryText(w, date, fmt0, fmt1)
    ensures StartsWith(text, Header(date)) && EndsWith(text, ".")
  {
    var parts := [Header(date)];
    if w.steps > 0 {
      parts := parts + [StepsPart(w)];
    }
    assert parts == [Header(date)] + OptPart(w.steps > 0, StepsPart(w));
    ghost var upTo := parts;
    if w.calories > 0 {
      parts := parts + [CaloriesPart(w)];
    }
    assert parts == upTo + OptPart(w.calories > 0, CaloriesPart(w));
    upTo := parts;
    if w.hrReadings > 0 {
      parts := parts + [HeartRatePart(w, fmt0)];
    }
    assert parts == upTo + OptPart(w.hrReadings > 0, HeartRatePart(w, fmt0));
    upTo := parts;
    if w.sleepDuration > 0 {
      parts := parts + [SleepPart(w, fmt1)];
    }
    assert parts == upTo + OptPart(w.sleepDuration > 0, SleepPart(w, fmt1));
    text := Join(parts, ". ") + ".";
    SummaryStartsWithHeader(parts, ". ");
  }

  /** A join starts with its first part. */
  lemma SummaryStartsWithHeader(parts: seq<string>, sep: string)
    requires parts != []
    ensures StartsWith(Join(parts, sep) + ".", parts[0])
  {
    if |parts| > 1 {
      assert Join(parts, sep) + "." == parts[0] + (sep + Join(parts[1..], sep) + ".");
    }
  }

  /** The summary is the bare header exactly when no quantity of the window is positive. */
  lemma HeaderOnlyExactly(w: Window, date: string, fmt0: real -> string, fmt1: real -> string)
    ensures SummaryText(w, date, fmt0, fmt1) == Header(date) + "."
        <==> w.steps <= 0 && w.calories <= 0 && w.hrReadings == 0 && w.sleepDuration <= 0
  {
    var p := SummaryParts(w, date, fmt0, fmt1);
    if |p| > 1 {
      assert Join(p, ". ") == p[0] + ". " + Join(p[1..], ". ");
      assert |SummaryText(w, date, fmt0, fmt1)| > |Header(date) + "."|;
    }
  }

  /** `generate_text_summaries`: one (text, window) pair per window, in order. */
  method GenerateTextSummaries(windows: seq<Window>, dateOf: int -> string, fmt0: real -> string, fmt1: real -> string)
    returns (summaries: seq<(string, Window)>)
    ensures |summaries| == |windows|
    ensures forall i :: 0 <= i < |windows| ==>
      summaries[i] == (SummaryText(windows[i], dateOf(windows[i].timestamp), fmt0, fmt1), windows[i])
  {
    summaries := [];
    for i := 0 to |windows|
      invariant |summaries| == i
      invariant forall j :: 0 <= j < i ==>
        summaries[j] == (SummaryText(windows[j], dateOf(windows[j].timestamp), fmt0, fmt1), windows[j])
    {
      var text := CreateSummaryText(windows[i], dateOf(windows[i].timestamp), fmt0, fmt1);
      summaries := summaries + [(text, windows[i])];
    }
  }
}
