# elixir_edge health data pipeline, modelled in Dafny

elixir_edge runs on wearables and edge devices. It reads the CSV exports
of a smartwatch, turns them into daily and per-window summaries, labels
each day with a heat-stress or fatigue risk, and trains and exports a
small text classifier for that risk. It also runs an in-memory "world"
entity service behind a gRPC interface.

This project models the parts of that pipeline with exact integer and
string behaviour, and proves properties of them. One Dafny module
corresponds to each piece:

- `RiskRules`: the rule-based risk labeller, its fixed recommendations,
  the sentence rendering of a day's vitals, and the assembly of the
  training rows (data/build_health_risk_dataset.py).
- `EncodedValues`: the "first number after a literal key" extraction used
  on the device's encoded `Value` strings. It serves
  data/health_insights.py and src/aggregated_fitness_data.py.
- `HealthInsights`: several pieces of data/health_insights.py:
  - the value-in-the-middle CSV reader;
  - the steps-row and sport-session field extraction;
  - the raw fitness summary (record count, bpm statistics, step total).
- `TimeWindows`: the fixed-width time windows of the preprocessing
  pipeline, the per-window aggregate and the text summaries
  (data/preprocessing_pipeline.py).
- `FitnessCsv`: several pieces of src/all_fitness_data.py:
  - the quote-aware character-loop CSV splitter and its row filter;
  - the heart-rate regex patterns of `extract_values`;
  - the average-heart-rate status bands.
- `DailyReport`: the per-day table of src/aggregated_fitness_data.py.
  Each row is filtered on the daily-report tag, the first figure per date
  is taken, missing figures read 0, and the table is sorted by date.
- `EntityStore`: the `entities` dictionary of mesh/proto/server.py and
  its four operations, `Push`, `GetEntity`, `ExpireEntity` and
  `ListEntities`, as a class whose methods update the dictionary and its
  iteration order.
- `TfliteExport`: three pieces of ml/export_to_tflite.py:
  - the label-to-index mapping;
  - the vocabulary lines;
  - the recognition of input-tensor names.
- `Finetune`: several pieces of ml/finetune_mobilebert_health.py:
  - the label mapping and the recommendation table;
  - the column check;
  - the replication of a small dataset;
  - the batch slicing and the batch count.
- `Strings`, `SeqStats`, `Wrappers`: the Python built-ins the pieces rely on. These are `strip`,
  `split`, `join`, `lower`/`upper`, `str(n)`, `sum`, `min` and `max`,
  together with generic sequence lemmas.

Conventions used throughout:

- A pandas NaN or a missing cell is `None` of an `Option`.
- The regular expressions are literal keys followed by `(\d+)`. They are
  modelled as "the leftmost occurrence of the key that is followed by a
  digit, then the maximal run of ASCII digits". The alternation patterns
  of `extract_values` are modelled as "an alternative, then non-colons,
  then a colon followed by a digit".
- The UTF-7 spellings `+AF8-` and `+ACIAIg-` that appear in the keys are
  kept as literal text, as the code itself only ever matches them
  literally.
- Timestamps and vitals are unbounded integers. Means are exact reals.

Behaviour worth knowing:

- In `create_time_windows`, a record whose time equals the latest time
  belongs to an emitted window only when the span from the earliest time
  is not a whole number of windows. In particular, a dataset whose
  records all share one time yields no window
  (`TimeWindows.LatestRecordsCoveredIff`).
- The third heart-rate pattern of `extract_values` (`HR[^:]*:(\d+)`) can
  never be the one that decides the result: wherever it matches, the
  first pattern matches too (`FitnessCsv.ThirdImpliesFirst`).

## Model

| member | source | states |
|---|---|---|
| RiskRules.Recommendation | data/build_health_risk_dataset.py:98-103 | the advice of a risk is one of the three fixed texts of `_rec_green`, `_rec_yellow` and `_rec_red` |
| RiskRules.RecommendationInjective | data/build_health_risk_dataset.py:88-95 | two risks get the same advice exactly when they are the same risk, so the advice identifies the level |
| RiskRules.AssignRisk | data/build_health_risk_dataset.py:58-95 | the result is one of green, yellow or red, and the returned text is always the advice of the returned level |
| RiskRules.NoDataIsGreen | data/build_health_risk_dataset.py:71-73 | with average and maximum heart rate, SpO2 and intensity all at most 0, the day is green with the green advice, whatever the steps and sleep cells hold |
| RiskRules.NoData | data/build_health_risk_dataset.py:71-72 | the early test holds exactly when average HR, max HR, SpO2 and intensity are each missing or a number at most 0; a NaN cell never passes it |
| RiskRules.RedSign | data/build_health_risk_dataset.py:76-78 | a red sign never holds on a "no data" day |
| RiskRules.YellowSign | data/build_health_risk_dataset.py:79-93 | a yellow sign never holds on a "no data" day |
| RiskRules.NoDataGuardRedundant | data/build_health_risk_dataset.py:71-86 | the level is red if a red sign holds, else yellow if a yellow sign holds, else green; the early "no data" return never changes that outcome |
| RiskRules.RedExactly | data/build_health_risk_dataset.py:76-78 | a day is red exactly when hr_avg > 100, hr_max > 120, 0 < SpO2 < 90, or intensity > 45 with sleep < 30 |
| RiskRules.YellowExactly | data/build_health_risk_dataset.py:79-93 | a day is yellow exactly when no red condition and some yellow condition holds, and green exactly when neither does |
| RiskRules.ZeroSpO2NeverRaises | data/build_health_risk_dataset.py:72-82 | a SpO2 of 0 gives a level no higher than any other SpO2 cell in the same day |
| RiskRules.HrAvgMonotone | data/build_health_risk_dataset.py:77-84 | raising the average heart rate never lowers the level |
| RiskRules.SleepAntitone | data/build_health_risk_dataset.py:77-84 | less sleep never lowers the level |
| RiskRules.RestingAndCaloriesIgnored | data/build_health_risk_dataset.py:63-69 | resting heart rate and calories play no part in the level or the advice |
| RiskRules.SleepFragmentSplitsMinutes | data/build_health_risk_dataset.py:49-52 | the sleep fragment is `sleep {h}h{m}m` with h*60 + m equal to the total minutes and m < 60 |
| RiskRules.Fragment | data/build_health_risk_dataset.py:35-48 | a column contributes a fragment exactly when its cell holds a positive number |
| RiskRules.SleepPart | data/build_health_risk_dataset.py:49-52 | the sleep fragment is present exactly when the sleep minutes are positive |
| RiskRules.AppendIfPositive | data/build_health_risk_dataset.py:35-36 | one step of the sentence builder appends the column's fragment when present and leaves the list as it was otherwise |
| RiskRules.VitalsToText | data/build_health_risk_dataset.py:32-55 | the appending loop produces the fragments of the positive columns, in column order (HR average, HR max, resting HR, SpO2, steps, active, calories, sleep), joined by single spaces, or the no-vitals sentence |
| RiskRules.VitalsText | data/build_health_risk_dataset.py:32-55 | the no-vitals sentence when no fragment is present, and otherwise a sentence that opens with the first fragment |
| RiskRules.JoinStartsWithFirst | data/build_health_risk_dataset.py:55 | the joined sentence begins with its first fragment |
| RiskRules.FragmentLead | data/build_health_risk_dataset.py:35-48 | a present fragment begins with its column name, never with "N" |
| RiskRules.SleepLead | data/build_health_risk_dataset.py:49-52 | a present sleep fragment begins with "sleep" |
| RiskRules.FragmentsLead | data/build_health_risk_dataset.py:34-53 | the fragment list is non-empty exactly when some column is positive, and no fragment begins with "N" |
| RiskRules.NoVitalsExactly | data/build_health_risk_dataset.py:53-55 | the sentence is "No vital signs recorded." exactly when no column is positive |
| RiskRules.SyntheticExamples | data/build_health_risk_dataset.py:106-155 | there are 39 synthetic rows |
| RiskRules.SyntheticExamplesShape | data/build_health_risk_dataset.py:111-155 | each synthetic row carries the label of its position, and its recommendation is the advice of that label |
| RiskRules.ConcatConsistent | data/build_health_risk_dataset.py:165 | appending the synthetic rows keeps every row's recommendation equal to the advice of its label |
| RiskRules.DayRow | data/build_health_risk_dataset.py:160-163 | the row built from a day has the advice of its own label |
| RiskRules.BuildDayRow | data/build_health_risk_dataset.py:160-163 | one loop turn builds the day's text, label and advice |
| RiskRules.BuildDayRows | data/build_health_risk_dataset.py:159-163 | the loop yields one row per day, in input order |
| RiskRules.DayRowsConsistent | data/build_health_risk_dataset.py:160-163 | every row built from a day has the advice of its own label |
| RiskRules.BuildDataset | data/build_health_risk_dataset.py:158-166 | one row per input day in input order, then the 39 synthetic rows; every row's recommendation is the advice of its label |
| EncodedValues.FirstMatchFrom | data/health_insights.py:97-99 | the scan finds the leftmost position at or after the start where the key is followed by a digit, or reports that there is none |
| EncodedValues.NumberAfter | data/health_insights.py:97-104 | no number exactly when the key is never followed by a digit; otherwise the maximal digit run after the first such occurrence |
| EncodedValues.FirstMatchIsUnique | data/health_insights.py:97-99 | the scan from the start finds the unique first match, and nothing exactly when there is no match |
| EncodedValues.FieldOr0 | data/health_insights.py:100-104 | `int(m.group(1)) if m else 0`: 0 without a match, otherwise the digit run after the first match |
| EncodedValues.ExtractFirstNumber | data/health_insights.py:19-24 | `extract_first_number`, and the identical `extract_number_after_colon` of src/aggregated_fitness_data.py (lines 5-9): 0 for NaN and when no `:` is followed by a digit, otherwise the digit run after the first `:` that is |
| EncodedValues.ReadsBackWrittenNumber | data/health_insights.py:92-104 | a number written after a key, with no earlier match and no digit right after it, is read back exactly |
| EncodedValues.NumberAtFirstMatch | data/health_insights.py:97-99 | the search returns the digit run that starts right after its first match |
| EncodedValues.KeyNormPlain | data/health_insights.py:243 | replacing `+AF8-` by `_` leaves a key without that spelling unchanged |
| EncodedValues.KeyNorm | data/health_insights.py:243 | normalising a key never lengthens it and adds no character other than `_` |
| EncodedValues.KeyNormEncoded | data/health_insights.py:243 | an encoded underscore between two plain words becomes `_`, so `heart+AF8-rate` reads as `heart_rate` |
| HealthInsights.JoinMiddle | data/health_insights.py:54-56 | gluing the middle fields into one Value and joining with commas gives the same text as joining all fields |
| HealthInsights.SplitValueInMiddle | data/health_insights.py:51-56 | a line with fewer than start+end fields is skipped; otherwise the leading and trailing fields hold no comma, and start ++ [Value] ++ end joined by commas gives back the line, with an empty Value when there are exactly start+end fields |
| HealthInsights.RowOf | data/health_insights.py:57-68 | the last header name holds the first trailing field and "Value" holds the Value; a five-name header gives exactly the keys at 0, 1, 2, "Value" and 4; each leading header name that no later key overwrites holds the leading field at its own position |
| HealthInsights.Zip | data/health_insights.py:66 | `dict(zip(names, values))` has exactly the names that are paired with a value |
| HealthInsights.ZipValues | data/health_insights.py:66 | a name that does not occur again later holds the value at its own position |
| HealthInsights.ParseRowsAppend | data/health_insights.py:50-69 | rows keep the order of their lines: the rows of two blocks of lines are the rows of the first followed by those of the second |
| HealthInsights.ParseRowsBound | data/health_insights.py:50-53 | each line yields at most one row, and lines that all have too few fields yield none |
| HealthInsights.NonBlank | data/health_insights.py:44 | the kept lines are stripped and non-empty, and no more numerous than the file's lines |
| HealthInsights.RowsOfLines | data/health_insights.py:49-70 | the loop over the data lines builds one row per line with enough fields, in line order |
| HealthInsights.ReadCsvValueInMiddle | data/health_insights.py:38-70 | no rows for a file with no non-blank line; otherwise the first kept line is the header and the rows are those of the later kept lines; there are fewer rows than file lines |
| HealthInsights.ParseStepsRow | data/health_insights.py:92-104 | (steps, distance, calories) in that order; (0, 0, 0) for NaN; each is 0 when its key is absent and otherwise the digits after its first match |
| HealthInsights.FirstCharAbsent | data/health_insights.py:97-99 | a key whose first character does not occur in the value is not found |
| HealthInsights.StepsOnlyRow | data/health_insights.py:92-104 | a value carrying only a step count parses as (steps, 0, 0) |
| HealthInsights.SessionOf | data/health_insights.py:205-222 | calories come from the `calories` key, falling back to `total+AF8-cal` only when the first finds nothing; duration, average HR, max HR and vitality are each the number after their own key, 0 when it is absent |
| HealthInsights.ShortNoMatch | data/health_insights.py:209-213 | a value shorter than a key never matches it |
| HealthInsights.MissingValueSession | data/health_insights.py:205 | a record without a Value reads as "nan" and gives a session of zeros |
| HealthInsights.Sessions | data/health_insights.py:204-222 | one session per record |
| HealthInsights.SessionsAt | data/health_insights.py:204-222 | the k-th session is read from the k-th record's Value |
| HealthInsights.ParseSportSessions | data/health_insights.py:199-223 | no sessions when the frame has no Value column; otherwise one session per record, in record order |
| HealthInsights.Bpms | data/health_insights.py:248-252 | there are no more bpm readings than heart-rate rows |
| HealthInsights.HeartRateCount | data/health_insights.py:245-246 | there are no more heart-rate rows than rows |
| HealthInsights.StepsTotal | data/health_insights.py:258-264 | a frame without a steps row totals 0 steps |
| HealthInsights.HeartRateKeyPlain | data/health_insights.py:243-245 | a row keyed `heart_rate` is a heart-rate row |
| HealthInsights.HeartRateKeyEncoded | data/health_insights.py:243-245 | a row keyed `heart+AF8-rate` is a heart-rate row too |
| HealthInsights.HrStatsOf | data/health_insights.py:253-256 | the statistics exist exactly when some bpm was read; then min and max are readings that bound all readings, and the exact mean lies between them |
| HealthInsights.ScanHeartRate | data/health_insights.py:245-252 | the heart-rate pass counts every heart-rate row and collects the readable bpm values in row order |
| HealthInsights.ScanSteps | data/health_insights.py:258-264 | the steps pass sums the step counts of the steps rows, a row without a count adding 0 |
| HealthInsights.SummarizeFitness | data/health_insights.py:238-265 | `{}` exactly for an empty frame; otherwise the heart-rate record count (unreadable rows included), the step total, and HR statistics exactly when some bpm was read, with min <= avg <= max |
| TimeWindows.BpmsPositive | data/preprocessing_pipeline.py:91-102 | a window has no more readings than rows, and every reading counted is a positive bpm |
| TimeWindows.ReadingStats | data/preprocessing_pipeline.py:73-101 | without readings the mean, minimum and maximum are 0; with readings 0 < min <= max and min <= mean <= max |
| TimeWindows.AggSpecHeartRate | data/preprocessing_pipeline.py:91-102 | in a window's aggregate, no readings means 0 for the heart-rate fields, and otherwise 0 < min <= max with the mean between them |
| TimeWindows.FirstReading | data/preprocessing_pipeline.py:94-97 | the first reading sets the minimum, the maximum and the mean to itself |
| TimeWindows.NextReadingRange | data/preprocessing_pipeline.py:99-100 | a later reading updates the minimum and the maximum by `min` and `max` |
| TimeWindows.NextReadingMean | data/preprocessing_pipeline.py:101 | the running update `(avg * n + bpm) / (n + 1)` is the exact mean of the readings so far |
| TimeWindows.SumFieldSnoc | data/preprocessing_pipeline.py:85-104 | one more row adds its field to a sum exactly when its key is the sum's key |
| TimeWindows.CaloriesSnoc | data/preprocessing_pipeline.py:85-90 | one more row adds its calories when it is a calories row or a steps row, and nothing otherwise |
| TimeWindows.BpmsSnoc | data/preprocessing_pipeline.py:91-102 | one more row adds a reading exactly when it is a heart_rate row with a positive bpm |
| TimeWindows.AggregateWindow | data/preprocessing_pipeline.py:65-106 | the field-by-field loop yields the window's aggregate: calories from calories and steps rows, steps and distance from steps rows, sleep from sleep rows, and count, min, max and exact mean of the positive bpms; other keys change nothing |
| TimeWindows.AggSpec | data/preprocessing_pipeline.py:65-106 | the aggregate is stamped with the window start, has no active minutes, and counts no more bpm readings than the window has rows |
| TimeWindows.AddRecord | data/preprocessing_pipeline.py:81-104 | one loop turn folds one more row into the aggregate of the rows before it |
| TimeWindows.AddHeartRate | data/preprocessing_pipeline.py:91-102 | the heart-rate branch keeps the aggregate equal to that of the rows so far |
| TimeWindows.InWindowOnly | data/preprocessing_pipeline.py:53-56 | every selected row is a record whose time lies in `[start, end)` |
| TimeWindows.InWindowHas | data/preprocessing_pipeline.py:53-56 | every record whose time lies in `[start, end)` is selected |
| TimeWindows.OccupiedIff | data/preprocessing_pipeline.py:58 | `len(window_data) > 0` holds exactly when some record's time lies in the window |
| TimeWindows.MinTimeIsLeast | data/preprocessing_pipeline.py:45 | the earliest time is some record's time and no record is earlier |
| TimeWindows.MaxTimeIsGreatest | data/preprocessing_pipeline.py:46 | the latest time is some record's time and no record is later |
| TimeWindows.WindowsFromAt | data/preprocessing_pipeline.py:51-61 | each emitted window is the aggregate of the records of its own interval, stamped with its start |
| TimeWindows.WindowsFrom | data/preprocessing_pipeline.py:51-61 | one window is emitted per window start |
| TimeWindows.WindowOf | data/preprocessing_pipeline.py:52-59 | one loop turn emits a window exactly when the interval holds a record, and then its aggregate |
| TimeWindows.WindowsFromStep | data/preprocessing_pipeline.py:51-61 | the windows from a start on are that start's window, when occupied, followed by the windows from the next start |
| TimeWindows.CreateTimeWindows | data/preprocessing_pipeline.py:40-63 | fails (None) on a dataset without records; otherwise the occupied windows of `window_hours * 3600` seconds from the earliest time while the start is before the latest time |
| TimeWindows.AlignedMod | data/preprocessing_pipeline.py:49-61 | a time is reached by whole steps from the start exactly when it is not earlier and the difference is a multiple of the width |
| TimeWindows.StartsRange | data/preprocessing_pipeline.py:49-61 | every window start lies at or after the first start and before the latest time |
| TimeWindows.StartsAligned | data/preprocessing_pipeline.py:49-61 | every window start is the first start plus a whole number of widths |
| TimeWindows.StartsOccupied | data/preprocessing_pipeline.py:58-59 | the window of every emitted start holds a record |
| TimeWindows.StartsOrdered | data/preprocessing_pipeline.py:49-61 | window starts strictly increase, at least one width apart |
| TimeWindows.StartsCover | data/preprocessing_pipeline.py:51-56 | every record between the first start and the latest time lies in some emitted window |
| TimeWindows.LastInstantCovered | data/preprocessing_pipeline.py:51-56 | a record at the latest time is covered exactly when that time is not a whole number of widths after the first start |
| TimeWindows.DatasetWindowStarts | data/preprocessing_pipeline.py:42-61 | window starts are min_time + k * width, before max_time, each occupied, and strictly increasing |
| TimeWindows.EarlierRecordsCoveredOnce | data/preprocessing_pipeline.py:51-56 | every record earlier than the latest time lies in exactly one emitted window |
| TimeWindows.LatestRecordsCoveredIff | data/preprocessing_pipeline.py:51-56 | records at the latest time are covered exactly when the span is not a multiple of the width; one shared time gives no window |
| TimeWindows.NonPositiveWidthNeverEnds | data/preprocessing_pipeline.py:51-61 | with a width of at most 0 and a non-empty span, the loop guard stays true after any number of turns |
| TimeWindows.SummaryParts | data/preprocessing_pipeline.py:123-136 | the parts start with the header "Health summary for {date}:" and hold at most four more |
| TimeWindows.CreateSummaryText | data/preprocessing_pipeline.py:118-138 | the parts appended one by one (steps, calories, heart rate, sleep, each only when positive) joined by ". " and closed by "."; the text starts with the header and ends with "." |
| TimeWindows.SummaryText | data/preprocessing_pipeline.py:118-138 | the summary opens with the header and ends with "." |
| TimeWindows.SummaryStartsWithHeader | data/preprocessing_pipeline.py:138 | the joined and closed text starts with the first part |
| TimeWindows.HeaderOnlyExactly | data/preprocessing_pipeline.py:123-138 | the summary is the bare header and "." exactly when no steps, calories, heart-rate readings or sleep are positive |
| TimeWindows.GenerateTextSummaries | data/preprocessing_pipeline.py:108-116 | one (text, window) pair per window, in window order, each text the window's summary |
| FitnessCsv.JoinExtendLast | src/all_fitness_data.py:28-29 | adding a character to the open field adds it to the end of the joined text |
| FitnessCsv.JoinCloseField | src/all_fitness_data.py:25-27 | closing a field at an unquoted comma adds the comma to the joined text |
| FitnessCsv.ScanJoin | src/all_fitness_data.py:21-31 | the raw fields joined by commas are the line with every `"` removed: commas between quotes stay inside their field |
| FitnessCsv.ScanCounts | src/all_fitness_data.py:21-30 | the quote flag is the parity of the quotes read, and every comma outside quotes closes one field |
| FitnessCsv.ScanNoQuotes | src/all_fitness_data.py:23-24 | no raw field holds a `"` |
| FitnessCsv.StripKeepsOut | src/all_fitness_data.py:26 | stripping never brings in a character that was not in the field |
| FitnessCsv.FieldsFacts | src/all_fitness_data.py:17-31 | a line has one field more than it has commas outside quotes; every field is stripped and holds no `"` |
| FitnessCsv.SplitLine | src/all_fitness_data.py:17-31 | the character loop yields 1 + (commas outside quotes) fields, each stripped and quote-free |
| FitnessCsv.Fields | src/all_fitness_data.py:17-31 | a line has at least one field, one per raw field of the scan |
| FitnessCsv.ExpIndex | src/all_fitness_data.py:36 | the exponent marker of a float literal is the first `e` or `E`, or there is none |
| FitnessCsv.LineRecordExactly | src/all_fitness_data.py:33-39 | a line yields a row exactly when it has at least four fields and the second parses as a float; the row holds exactly the first four fields |
| FitnessCsv.LineRecord | src/all_fitness_data.py:33-39 | a line yields at most one row, and its Time parses as a float |
| FitnessCsv.ContentClean | src/all_fitness_data.py:10-12 | every kept line is stripped, non-empty and does not start with `#` |
| FitnessCsv.KeptLineClean | src/all_fitness_data.py:10-12 | a single line is kept only in its stripped, non-blank, non-comment form |
| FitnessCsv.ReadStep | src/all_fitness_data.py:9-39 | reading one more file line adds its kept form to the content and, once the header is behind, its row |
| FitnessCsv.RecordOfLine | src/all_fitness_data.py:17-39 | the loop body splits a data line and keeps its row when it has one |
| FitnessCsv.ReadFitnessCsv | src/all_fitness_data.py:4-40 | blank and `#` lines are skipped, the first remaining line is dropped as the header, and each later line yields its row, if any, in file order |
| FitnessCsv.LineRecordWellFormed | src/all_fitness_data.py:33-39 | a line yields at most one row, with a numeric Time and no `"` in any field |
| FitnessCsv.RecordsWellFormed | src/all_fitness_data.py:4-40 | there are at most as many rows as data lines, and every row is well formed |
| FitnessCsv.ColonFrom | src/all_fitness_data.py:47-49 | the first `:` at or after a position, or none |
| FitnessCsv.ColonSkip | src/all_fitness_data.py:47-49 | colon-free text does not move the first colon |
| FitnessCsv.FirstAlt | src/all_fitness_data.py:47 | the first alternative, in order, that matches at a position, or none when no alternative matches there |
| FitnessCsv.AltValueIndependent | src/all_fitness_data.py:47-49 | whichever alternative matches at a position, `(\d+)` captures the digits after the first colon there |
| FitnessCsv.SearchFromNone | src/all_fitness_data.py:53 | `re.search` finds nothing exactly when the pattern matches at no position |
| FitnessCsv.SearchFromSome | src/all_fitness_data.py:53-55 | a found number is the digits after the first colon following the leftmost matching position |
| FitnessCsv.ExtractValues | src/all_fitness_data.py:42-61 | the record is kept, heart_rate is the number of the first pattern in order that matches the upper-cased Value (0 when none does), and calories, steps and distance are 0 |
| FitnessCsv.ThirdImpliesFirst | src/all_fitness_data.py:47-49 | wherever the third pattern matches, the first matches too |
| FitnessCsv.PatternsColonFree | src/all_fitness_data.py:46-50 | no alternative of the three patterns holds a colon |
| FitnessCsv.HeartRateSpec | src/all_fitness_data.py:44-58 | heart_rate is 0 when neither the first nor the second pattern matches; otherwise it is the number after the leftmost match of the first pattern, or of the second when the first matches nowhere |
| FitnessCsv.HeartRateOf | src/all_fitness_data.py:44-58 | a Value without a colon gives heart rate 0, since every pattern ends in `:(\d+)` |
| FitnessCsv.StatusOf | src/all_fitness_data.py:104-112 | the bands < 60, [60, 70), [70, 80) and >= 80 are disjoint and exhaustive; a NaN average falls to "Monitor" |
| FitnessCsv.StatusMonotone | src/all_fitness_data.py:105-112 | a higher average never earns a better band |
| FitnessCsv.HrValuesPositive | src/all_fitness_data.py:83 | the selected heart rates are positive and each comes from some reading |
| FitnessCsv.HrValues | src/all_fitness_data.py:83 | readings that all have heart rate 0 select no rate |
| FitnessCsv.AverageHr | src/all_fitness_data.py:104 | the average is NaN exactly when no heart rate is positive, and otherwise lies between the smallest and the largest selected rate |
| FitnessCsv.CardioStatusNoReadings | src/all_fitness_data.py:83-112 | with no positive heart rate at all, the printed status is "Monitor" |
| DailyReport.DateOf | src/aggregated_fitness_data.py:13-16 | a row without a numeric time has no date; otherwise the date is the UTC day containing the timestamp |
| DailyReport.SameDay | src/aggregated_fitness_data.py:14-16 | two timestamps of the same UTC day get the same date |
| DailyReport.BeforeTotal | src/aggregated_fitness_data.py:42 | the table order on dates is a strict total order |
| DailyReport.InsertSpec | src/aggregated_fitness_data.py:22 | adding a date keeps the list sorted without repeats and adds exactly that date |
| DailyReport.ReportDatesSpec | src/aggregated_fitness_data.py:19-22 | the table dates are sorted without repeats and are exactly the dates of the rows tagged `daily+AF8-report` |
| DailyReport.FirstFigureNone | src/aggregated_fitness_data.py:25-39 | a date has no figure of a kind exactly when no report row of that date carries that key |
| DailyReport.FirstFigureSome | src/aggregated_fitness_data.py:25-39 | a present figure is the number after the first colon of the first report row with that date and key |
| DailyReport.CleanFitnessData | src/aggregated_fitness_data.py:11-42 | one line per report date, in ascending date order without repeats; each line holds the first stand, intensity and calorie figure of its date, 0 where there is none |
| DailyReport.MissingFigureIsZero | src/aggregated_fitness_data.py:42 | a date with no row of some kind reads 0 for it (`fillna(0)`) |
| DailyReport.OtherTagsIgnored | src/aggregated_fitness_data.py:19 | rows not tagged `daily+AF8-report` change nothing in the table |
| DailyReport.FigureIgnores | src/aggregated_fitness_data.py:25-39 | a later row that is not selected for a date and key leaves that figure unchanged |
| EntityStore.MatchesFacts | mesh/proto/server.py:100-106 | an empty filter matches everything; an entity passes when the id filter is empty or equal to its id and the label filter is empty or occurs anywhere in its label; a non-empty label filter that does not occur rejects; a non-empty id filter different from the entity's id rejects |
| EntityStore.Matches | mesh/proto/server.py:100-106 | a label filter longer than the label never matches |
| EntityStore.PushLastWins | mesh/proto/server.py:44-47 | after a push, each id of the request holds the last entity of the request with that id; every other id keeps its entity or stays absent |
| EntityStore.RemoveKey | mesh/proto/server.py:56 | deleting an id removes exactly that id from the iteration order |
| EntityStore.RemoveKeyDistinct | mesh/proto/server.py:56 | the iteration order stays free of repeats after a delete |
| EntityStore.ListingSpec | mesh/proto/server.py:21-28 | the listing holds exactly the stored entities that pass the filter, at most one per stored id |
| EntityStore.ListingAll | mesh/proto/server.py:21-28 | with an empty filter, the listing is every stored entity, in iteration order |
| EntityStore.Store.constructor | mesh/proto/server.py:17 | the store starts empty |
| EntityStore.Store.Put | mesh/proto/server.py:45 | `entities[id] = entity` overwrites or adds the id; a new id goes to the end of the iteration order, a known one keeps its place |
| EntityStore.Store.Push | mesh/proto/server.py:41-51 | every change is stored in request order, and the reply is accepted with every request id in order, duplicates included |
| EntityStore.Store.GetEntity | mesh/proto/server.py:30-39 | the stored entity with status OK when present, otherwise nothing with NOT_FOUND; the store is not modified |
| EntityStore.Store.ExpireEntity | mesh/proto/server.py:53-61 | status OK exactly when the id was present; exactly that id is removed, and an absent id leaves the store unchanged |
| EntityStore.Store.ListEntities | mesh/proto/server.py:21-28 | the loop returns the stored entities that pass the filter, in iteration order |
| EntityStore.RemoveAbsent | mesh/proto/server.py:59-61 | removing an absent id changes nothing |
| EntityStore.ExpireIdempotent | mesh/proto/server.py:53-61 | expiring an id twice has the same effect on the store as expiring it once |
| TfliteExport.IndexOf | ml/export_to_tflite.py:41 | `list.index` finds the first position holding the value, and fails exactly when it is absent |
| TfliteExport.RiskToId | ml/export_to_tflite.py:39-41 | the id is 0, 1 or 2; a label (after strip and lower) maps to its own position, anything else to 0 |
| TfliteExport.RiskToIdPadded | ml/export_to_tflite.py:39-41 | surrounding whitespace and letter case do not change the id of a label |
| TfliteExport.DefaultSize | ml/export_to_tflite.py:88 | the tokenizer's own vocab size when present and non-zero, and 30522 when it is missing or 0 |
| TfliteExport.MaxId | ml/export_to_tflite.py:89 | the largest id of a non-empty vocabulary is some item's id and bounds them all |
| TfliteExport.IdToTokenSpec | ml/export_to_tflite.py:90 | an id maps to the token of its last item in iteration order, and only ids of items are mapped |
| TfliteExport.VocabLinesSpec | ml/export_to_tflite.py:88-91 | there are max(default size, max id + 1) lines (the default size for an empty vocabulary); line i is the token of the last item with id i, or `[unused{i}]` |
| TfliteExport.VocabLines | ml/export_to_tflite.py:88-91 | the file has at least the declared number of lines and a line for every id of the vocabulary |
| TfliteExport.RoleOfSpec | ml/export_to_tflite.py:309-315 | lower-cased, a name is ids when it contains "ids" but neither "segment" nor "mask"; else mask when it contains "mask"; else segment when it contains "segment" |
| TfliteExport.RoleOf | ml/export_to_tflite.py:309-315 | a name gets a role exactly when, lower-cased, it contains "ids", "mask" or "segment" |
| TfliteExport.ScanStep | ml/export_to_tflite.py:308-315 | one more name changes only the last name of its own role |
| TfliteExport.ScanRoles | ml/export_to_tflite.py:307-315 | after the loop each role holds the last name recognised for it, or nothing |
| TfliteExport.GetTfliteInputNames | ml/export_to_tflite.py:299-320 | the constants when the metadata library is missing; otherwise, per role, the last recognised name, else the name at the role's position, else the constant |
| TfliteExport.RolesDistinct | ml/export_to_tflite.py:310-313 | the same name is never recognised both as ids and as mask |
| Finetune.RecommendationsMatchBuilder | ml/finetune_mobilebert_health.py:20-26 | the table has exactly one entry per label, each equal to the advice the dataset builder gives that risk |
| Finetune.RiskToIdAgrees | ml/finetune_mobilebert_health.py:40-44 | the training script maps every string to the same class as the export script, so green, yellow and red map to 0, 1 and 2 and anything else to 0 |
| Finetune.RiskToId | ml/finetune_mobilebert_health.py:40-44 | the id is a label position, and a stripped, lower-cased label maps to its own position |
| Finetune.LoadDataset | ml/finetune_mobilebert_health.py:29-37 | the dataset loads exactly when the file exists and has both the text and risk_level columns; a present file without either gives the ValueError |
| Finetune.Repeat | ml/finetune_mobilebert_health.py:73-74 | `xs * n` has n times the length of xs |
| Finetune.ZipAppend | ml/finetune_mobilebert_health.py:72-74 | zipping two concatenations zips the parts |
| Finetune.ZipProjections | ml/finetune_mobilebert_health.py:72-74 | the first and second components of the pairs give back the texts and the labels |
| Finetune.RepeatZip | ml/finetune_mobilebert_health.py:72-74 | repeating two lists alike repeats their pairing |
| Finetune.ReplicateKeepsPairs | ml/finetune_mobilebert_health.py:72-74 | below 30 examples the (text, label) pairs are the input's pairs four times over, and otherwise unchanged; each text stays with its own label |
| Finetune.Replicate | ml/finetune_mobilebert_health.py:72-74 | below 30 texts both lists become four times as long; otherwise they are unchanged |
| Finetune.FloorDiv | ml/finetune_mobilebert_health.py:110 | Python's `//` rounds toward negative infinity |
| Finetune.NBatches | ml/finetune_mobilebert_health.py:110 | `n_batches` is at least 1, and for data and a positive batch size it is the ceiling of length / batch size |
| Finetune.BatchesOf | ml/finetune_mobilebert_health.py:91-93 | every slice holds between 1 and the batch size examples |
| Finetune.BatchesOfStep | ml/finetune_mobilebert_health.py:91-93 | the batches are the first slice of b examples, then the batches of the rest |
| Finetune.BatchesOfConcat | ml/finetune_mobilebert_health.py:91-93 | the batches concatenated give back the data |
| Finetune.BatchesOfSizes | ml/finetune_mobilebert_health.py:91-93 | every batch holds between 1 and the batch size examples, and all but the last exactly the batch size |
| Finetune.BatchesOfCount | ml/finetune_mobilebert_health.py:91-93 | there are no batches exactly for no data, and the number of batches is the ceiling of length / batch size |
| Finetune.Batches | ml/finetune_mobilebert_health.py:91-93 | the slicing loop fails (ValueError) for a batch size of 0, gives no batch for a negative one, and otherwise yields the slices `[i, i + b)` for i = 0, b, 2b, ... |
| Finetune.NBatchesCountsBatches | ml/finetune_mobilebert_health.py:110 | `n_batches` is the number of batches, and 1 for an empty dataset |
| Strings.Trim | data/health_insights.py:44 | `strip` keeps an infix of the text that neither starts nor ends with a dropped character |
| Strings.TrimIdempotent | data/health_insights.py:44 | stripping twice is stripping once |
| Strings.Split | data/health_insights.py:51 | `line.split(",")` gives at least one field, none holding a comma, and joining them with commas gives back the line |
| Strings.NatToStringRoundTrip | data/build_health_risk_dataset.py:36 | a number rendered in decimal reads back as the same number |
| Strings.Lower | ml/export_to_tflite.py:40 | `lower` keeps the length and each letter (ignoring case) and leaves no upper-case letter |
| Strings.Upper | src/all_fitness_data.py:44 | `upper` keeps the length and each letter (ignoring case) and leaves no lower-case letter |
| Strings.LowerIdempotent | ml/export_to_tflite.py:40 | lower-casing twice is lower-casing once |
| Strings.LowerUpper | ml/export_to_tflite.py:40 | lower-casing ignores case: upper-casing first changes nothing |
| Strings.ReplaceAll | data/health_insights.py:243 | `replace` with a replacement no longer than the pattern never lengthens the text, and adds only characters of the replacement |
| SeqStats.MeanWithinRange | data/health_insights.py:254-256 | the mean of a non-empty list of readings lies between its minimum and its maximum |
| SeqStats.LastWhereSpec | ml/export_to_tflite.py:308-315 | the last element satisfying a test is found exactly when one exists, and no later element satisfies it |

## Left out

- File and console I/O are left out: opening and reading the CSV files, writing the dataset, the vocabulary file, the cleaned heart-rate CSV and the models. So are every `print`, `display_fitness_summary`, `print_health_report` and the argparse `main` functions. Each operation takes the file's lines or the frame's rows as its input.
- pandas reading and coercion are not modelled: `read_csv` with `on_bad_lines="skip"`, `pd.to_numeric(errors="coerce")`, `dropna` and `astype`. The rows come in already parsed; a non-numeric time is `None` where the code keeps such rows.
- Date and time formatting are not modelled: `utcfromtimestamp`, `strftime` and `fromisoformat`. A report date is a UTC day number, and the summary date is a parameter.
- DailyReport.CleanFitnessData orders dates as day numbers. The code orders `%Y-%m-%d` strings, which agree with that from year 1000 on; earlier years print with fewer digits and are not modelled.
- Float text is not modelled: the `.0f` and `.1f` renderings in `_create_summary_text` are function parameters, and the `int()` truncation of float vitals is replaced by integer vitals.
- Python's `float()` is modelled for ASCII text only. Underscores between digits, non-ASCII digits and whitespace other than Python's ASCII set are not accepted.
- The file decoding (`encoding="utf-8", errors="ignore"`) is not modelled: lines are already text.
- `str.lower`, `str.upper` and `\d` are modelled on ASCII letters and digits only.
- A pandas NaN is `None` and is not a float value. In `assign_risk_and_recommendation`, a NaN cell is kept apart from a missing one, because `NaN or 0` is NaN.
- HealthInsights.SessionOf does not produce the session date string, which is `strftime` of the record time.
- HealthInsights.ReadCsvValueInMiddle requires at least 3 leading fields and 1 trailing field, the only values its callers pass. With fewer leading fields the five-name header branch raises IndexError, and with 0 trailing fields Python's `parts[-0:]` slicing behaves differently; neither is modelled.
- TimeWindows.CreateTimeWindows requires a positive window width unless all records share one time (or there are none). With a non-positive width and a non-empty span the loop never ends, which `NonPositiveWidthNeverEnds` states.
- TimeWindows.CreateTimeWindows does not model the `datetime` text of a window. The `active_minutes` field is always 0, as in the code.
- The decoding of `ParsedValue` (`html.unescape` and `json.loads`) is not modelled: each record arrives with its decoded field map.
- FitnessCsv.AverageHr bounds the float mean between the smallest and largest selected rate instead of computing the float mean. FitnessCsv.StatusOf takes that average as an exact real. The minimum, the 25% quantile and the printed peak are left out.
- FitnessCsv.ExtractValues works on the record's Value only. The other columns of the pandas row pass through unchanged and are not represented.
- EntityStore: entity components other than id and label are opaque text. A missing label is the empty string, as `entity.label or ""` reads it.
- EntityStore.Store.Push does not model the `debug` string of the reply (its formatting of the id list). The reply carries the ids themselves.
- The gRPC server setup, `serve()`, concurrent calls and the status details text are left out. `GetLocalNode` only returns a constant, and `RunTask` reads the wall clock; both are left out.
- TfliteExport: `_write_vocab_txt` is modelled from the vocabulary's items in iteration order; the introspection of the tokenizer object (`get_vocab`, `vocab`, `vocab_size` attributes) is replaced by those items and an optional vocab size.
- TfliteExport.GetTfliteInputNames models a missing metadata library as `None`. Reading the tensor names out of the model buffer is a foreign call; the names are its input.
- Model training, export and inference are left out: tokenizer calls, the optimizer, the loss accumulation `total_loss`, TensorFlow conversion and MediaPipe metadata. Only the batch slicing and `n_batches` are modelled.
- The serial link engine (the byte-stream framer and the connection state machine) is not part of this model: no file of the repository implements it.
- `src/sport_record_analysis.py` is not part of this model: its fields come from lazy wildcard regular expressions and float rounding.
