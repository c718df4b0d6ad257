/**
  The raw-export reader of the fitness analysis script: the quote-aware
  comma splitter and row filter of `read_fitness_csv`, the heart-rate
  extraction of `extract_values`, and the cardiovascular status bands.
 */
module FitnessCsv {
  import opened Wrappers
  import opened Strings
  import opened SeqStats

  // ---------------------------------------------------------------- reference definitions

  /** The line with every `"` removed. */
  function RemoveQuotes(s: string): string
    decreases |s|
  {
    if |s| == 0 then "" else RemoveQuotes(s[..|s| - 1]) + (if s[|s| - 1] == '"' then "" else [s[|s| - 1]])
  }

  /** The number of `"` characters in `s`. */
  function QuoteCount(s: string): nat
    decreases |s|
  {
    if |s| == 0 then 0 else QuoteCount(s[..|s| - 1]) + (if s[|s| - 1] == '"' then 1 else 0)
  }

  /** The number of commas outside quotes: those preceded by an even number of `"`. */
  function CommasOutside(s: string): nat
    decreases |s|
  {
    if |s| == 0 then 0
    else
      var init := s[..|s| - 1];
      CommasOutside(init) + (if s[|s| - 1] == ',' && QuoteCount(init) % 2 == 0 then 1 else 0)
  }

  // ---------------------------------------------------------------- the splitter

  /** The splitter's state: the closed fields (not yet stripped), the open field and the quote flag. */
  datatype SplitState = SplitState(fields: seq<string>, current: string, inQuotes: bool)

  /** One character of the splitting loop. */
  function Step(st: SplitState, c: char): SplitState {
    if c == '"' then st.(inQuotes := !st.inQuotes)
    else if c == ',' && !st.inQuotes then SplitState(st.fields + [st.current], "", st.inQuotes)
    else st.(current := st.current + [c])
  }

  /** The state after the loop has read all of `s`. */
  function Scan(s: string): SplitState
    decreases |s|
  {
    if |s| == 0 then SplitState([], "", false) else Step(Scan(s[..|s| - 1]), s[|s| - 1])
  }

  /** The fields of a line before stripping: the closed ones and the last open one. */
  function RawFields(line: string): seq<string> {
    Scan(line).fields + [Scan(line).current]
  }

  /** The fields `read_fitness_csv` splits a line into. */
  function Fields(line: string): (fields: seq<string>)
    ensures |fields| == |RawFields(line)| >= 1
  {
    Map(Strip, RawFields(line))
  }

  /** Adding one character to an open field extends the join by that character. */
  lemma JoinExtendLast(fields: seq<string>, current: string, c: char, sep: string)
    ensures Join(fields + [current + [c]], sep) == Join(fields + [current], sep) + [c]
  {
    if |fields| == 0 {
      assert fields + [current + [c]] == [current + [c]];
      assert fields + [current] == [current];
    } else {
      JoinAppend(fields, [current + [c]], sep);
      JoinAppend(fields, [current], sep);
    }
  }

  /** Closing a field adds the separator to the join. */
  lemma JoinCloseField(fields: seq<string>, current: string, sep: string)
    ensures Join(fields + [current] + [""], sep) == Join(fields + [current], sep) + sep
  {
    JoinAppend(fields + [current], [""], sep);
  }

  /**
    The splitter loses nothing but the quotes: its raw fields joined with `,`
    give back the line without its `"` characters, so commas between quotes
    stay inside their field.
   */
  lemma {:induction false} ScanJoin(s: string)
    ensures Join(RawFields(s), ",") == RemoveQuotes(s)
    decreases |s|
  {
    if |s| > 0 {
      var init, c := s[..|s| - 1], s[|s| - 1];
      ScanJoin(init);
      var st := Scan(init);
      if c == '"' {
      } else if c == ',' && !st.inQuotes {
        JoinCloseField(st.fields, st.current, ",");
      } else {
        JoinExtendLast(st.fields, st.current, c, ",");
      }
    }
  }

  /** The quote flag is the parity of the quotes read, and every comma outside quotes closes one field. */
  lemma {:induction false} ScanCounts(s: string)
    ensures Scan(s).inQuotes <==> QuoteCount(s) % 2 == 1
    ensures |Scan(s).fields| == CommasOutside(s)
    decreases |s|
  {
    if |s| > 0 {
      ScanCounts(s[..|s| - 1]);
    }
  }

  /** No raw field holds a `"`. */
  lemma {:induction false} ScanNoQuotes(s: string)
    ensures forall k :: 0 <= k < |RawFields(s)| ==> '"' !in RawFields(s)[k]
    decreases |s|
  {
    if |s| > 0 {
      var init, c := s[..|s| - 1], s[|s| - 1];
      ScanNoQuotes(init);
      var st := Scan(init);
      assert RawFields(init) == st.fields + [st.current];
      assert forall k :: 0 <= k < |st.fields| ==> '"' !in st.fields[k] by {
        forall k | 0 <= k < |st.fields| ensures '"' !in st.fields[k] {
          assert st.fields[k] == RawFields(init)[k];
        }
      }
      assert '"' !in st.current by {
        assert st.current == RawFields(init)[|st.fields|];
      }
    }
  }

  /** Stripping never brings in a character that was not there. */
  lemma StripKeepsOut(s: string, c: char)
    requires c !in s
    ensures c !in Strip(s)
  {
    var r := Strip(s);
    var k :| OccursAt(s, r, k);
    forall j | 0 <= j < |r| ensures r[j] != c {
      assert s[k + j] == r[j];
    }
  }

  /** Each field is stripped and holds no quote. */
  lemma FieldsClean(line: string)
    ensures forall k :: 0 <= k < |Fields(line)| ==> '"' !in Fields(line)[k] && Strip(Fields(line)[k]) == Fields(line)[k]
  {
    ScanNoQuotes(line);
    var raw := RawFields(line);
    forall k | 0 <= k < |raw|
      ensures '"' !in Fields(line)[k] && Strip(Fields(line)[k]) == Fields(line)[k]
    {
      MapAt(Strip, raw, k);
      StripKeepsOut(raw[k], '"');
      TrimIdempotent(raw[k], IsSpace);
    }
  }

  /** A line has one field more than it has commas outside quotes; each field is stripped and quote-free. */
  lemma FieldsFacts(line: string)
    ensures |Fields(line)| == 1 + CommasOutside(line)
    ensures forall k :: 0 <= k < |Fields(line)| ==> '"' !in Fields(line)[k] && Strip(Fields(line)[k]) == Fields(line)[k]
  {
    ScanCounts(line);
    FieldsClean(line);
  }

  /** The character loop of `read_fitness_csv` on one stripped line. */
  method SplitLine(line: string) returns (parts: seq<string>)
    ensures parts == Fields(line)
    ensures |parts| == 1 + CommasOutside(line)
    ensures forall k :: 0 <= k < |parts| ==> '"' !in parts[k] && Strip(parts[k]) == parts[k]
  {
    parts := [];
    var current := "";
    var inQuotes := false;
    var i := 0;
    while i < |line|
      invariant 0 <= i <= |line|
      invariant parts == Map(Strip, Scan(line[..i]).fields)
      invariant current == Scan(line[..i]).current && inQuotes == Scan(line[..i]).inQuotes
    {
      var c := line[i];
      assert line[..i + 1][..i] == line[..i];
      if c == '"' {
        inQuotes := !inQuotes;
      } else if c == ',' && !inQuotes {
        MapSnoc(Strip, Scan(line[..i]).fields, current);
        parts := parts + [Strip(current)];
        current := "";
      } else {
        current := current + [c];
      }
      i := i + 1;
    }
    assert line[..i] == line;
    MapSnoc(Strip, Scan(line).fields, current);
    parts := parts + [Strip(current)];
    FieldsFacts(line);
  }

  // ---------------------------------------------------------------- numbers

  /** An optional leading sign removed. */
  function Unsigned(t: string): string {
    if |t| > 0 && (t[0] == '+' || t[0] == '-') then t[1..] else t
  }

  /** Digits with at most one `.` and at least one digit. */
  predicate IsMantissa(m: string) {
    && (forall i :: 0 <= i < |m| ==> IsDigit(m[i]) || m[i] == '.')
    && (forall i, j :: 0 <= i < j < |m| && m[i] == '.' ==> m[j] != '.')
    && (exists i :: 0 <= i < |m| && IsDigit(m[i]))
  }

  /** The position of the first `e` or `E`, or the length when there is none. */
  function ExpIndex(b: string): (e: nat)
    ensures e <= |b|
    ensures forall i :: 0 <= i < e ==> b[i] != 'e' && b[i] != 'E'
    ensures e < |b| ==> b[e] == 'e' || b[e] == 'E'
    decreases |b|
  {
    if |b| == 0 || b[0] == 'e' || b[0] == 'E' then 0 else 1 + ExpIndex(b[1..])
  }

  /** A decimal literal: a mantissa, then optionally `e`, a sign and digits. */
  predicate IsDecimal(b: string) {
    var e := ExpIndex(b);
    IsMantissa(b[..e]) && (e == |b| || (|Unsigned(b[e + 1..])| > 0 && AllDigits(Unsigned(b[e + 1..]))))
  }

  /**
    `float(t)` succeeds on the stripped text `t`: a signed decimal literal,
    or `inf`, `infinity` or `nan` in any case.
   */
  predicate IsFloatText(t: string) {
    var b := Unsigned(t);
    Lower(b) == "inf" || Lower(b) == "infinity" || Lower(b) == "nan" || IsDecimal(b)
  }

  // ---------------------------------------------------------------- rows

  /** One row of the result frame: Key, Time, Value and UpdateTime, as text. */
  datatype Record = Record(key: string, time: string, value: string, updateTime: string)

  /** The row a data line yields: none unless it has four fields and a numeric Time. */
  function LineRecord(line: string): (rows: seq<Record>)
    ensures |rows| <= 1
    ensures forall r :: r in rows ==> IsFloatText(r.time)
  {
    var p := Fields(line);
    if |p| >= 4 && IsFloatText(Strip(Trim(p[1], IsQuote))) then
      [Record(Trim(p[0], IsQuote), Strip(Trim(p[1], IsQuote)), Trim(p[2], IsQuote), Trim(p[3], IsQuote))]
    else []
  }

  /** A kept line yields a row exactly when it has at least four fields and its second parses; the row holds the first four fields as split. */
  lemma LineRecordExactly(line: string)
    ensures var p := Fields(line);
      LineRecord(line) == if |p| >= 4 && IsFloatText(p[1]) then [Record(p[0], p[1], p[2], p[3])] else []
  {
    var p := Fields(line);
    FieldsClean(line);
    if |p| >= 4 {
      forall k | 0 <= k < 4 ensures Trim(p[k], IsQuote) == p[k] {
        TrimNoop(p[k], IsQuote);
      }
    }
  }

  /** The stripped line, when it is neither blank nor a comment. */
  function KeptLine(line: string): seq<string> {
    var t := Strip(line);
    if |t| == 0 || t[0] == '#' then [] else [t]
  }

  /** The stripped non-blank, non-comment lines, in file order. */
  function Content(lines: seq<string>): seq<string> {
    FlatMap(KeptLine, lines)
  }

  /** The content lines after the first one, which is the header. */
  function DataLines(lines: seq<string>): seq<string> {
    if |Content(lines)| == 0 then [] else Content(lines)[1..]
  }

  /** Content lines are stripped, non-empty and do not start with `#`. */
  lemma ContentClean(lines: seq<string>)
    ensures forall x :: x in Content(lines) ==> Clean(x)
  {
    forall x | x in Content(lines) ensures Clean(x) {
      FlatMapFrom(KeptLine, lines, x);
      var l :| l in lines && x in KeptLine(l);
      KeptLineClean(l);
    }
  }

  /** A kept line: stripped, non-empty and not a comment. */
  predicate Clean(x: string) {
    |x| > 0 && x[0] != '#' && Strip(x) == x
  }

  lemma KeptLineClean(l: string)
    ensures forall x :: x in KeptLine(l) ==> Clean(x)
  {
    TrimIdempotent(l, IsSpace);
  }

  /** Reading one more file line adds its kept form to the content, and its rows once the header is behind. */
  lemma ReadStep(lines: seq<string>, n: nat)
    requires n < |lines|
    ensures Content(lines[..n + 1]) == Content(lines[..n]) + KeptLine(lines[n])
    ensures FlatMap(LineRecord, DataLines(lines[..n + 1]))
         == FlatMap(LineRecord, DataLines(lines[..n]))
          + (if |Content(lines[..n])| > 0 then FlatMap(LineRecord, KeptLine(lines[n])) else [])
  {
    FlatMapPrefix(KeptLine, lines, n);
    var before := Content(lines[..n]);
    var kept := KeptLine(lines[n]);
    if |before| > 0 {
      assert DataLines(lines[..n + 1]) == before[1..] + kept;
      FlatMapAppend(LineRecord, before[1..], kept);
    } else {
      assert DataLines(lines[..n + 1]) == [];
    }
  }

  /** The body of the file loop for a kept data line: split it, then keep its row if it has one. */
  method RecordOfLine(line: string) returns (recs: seq<Record>)
    ensures recs == LineRecord(line)
  {
    recs := [];
    var parts := SplitLine(line);
    if |parts| >= 4 {
      var timeVal := Strip(Trim(parts[1], IsQuote));
      if IsFloatText(timeVal) {
        recs := [Record(Trim(parts[0], IsQuote), timeVal, Trim(parts[2], IsQuote), Trim(parts[3], IsQuote))];
      }
    }
  }

  /**
    `read_fitness_csv` on the lines of a file: blank and `#` lines are
    skipped, the first remaining line is dropped as the header, and each
    later line yields its row, if any, in file order.
   */
  method ReadFitnessCsv(fileLines: seq<string>) returns (rows: seq<Record>)
    ensures rows == FlatMap(LineRecord, DataLines(fileLines))
  {
    rows := [];
    var headerSkipped := false;
    for n := 0 to |fileLines|
      invariant headerSkipped <==> |Content(fileLines[..n])| > 0
      invariant rows == FlatMap(LineRecord, DataLines(fileLines[..n]))
    {
      var line := Strip(fileLines[n]);
      ReadStep(fileLines, n);
      if |line| == 0 || line[0] == '#' {
        assert KeptLine(fileLines[n]) == [];
        continue;
      }
      assert KeptLine(fileLines[n]) == [line];
      FlatMapOne(LineRecord, line);
      if !headerSkipped {
        headerSkipped := true;
        continue;
      }
      var recs := RecordOfLine(line);
      rows := rows + recs;
    }
    assert fileLines[..|fileLines|] == fileLines;
  }

  /** What every row of the frame satisfies: a numeric Time and no `"` in any field. */
  predicate WellFormedRecord(r: Record) {
    IsFloatText(r.time) && '"' !in r.key && '"' !in r.time && '"' !in r.value && '"' !in r.updateTime
  }

  /** A line yields at most one row, and that row is well formed. */
  lemma LineRecordWellFormed(line: string)
    ensures |LineRecord(line)| <= 1
    ensures forall r :: r in LineRecord(line) ==> WellFormedRecord(r)
  {
    var p := Fields(line);
    LineRecordExactly(line);
    FieldsClean(line);
    forall r | r in LineRecord(line) ensures WellFormedRecord(r) {
      assert r == Record(p[0], p[1], p[2], p[3]);
      assert p[0] == Fields(line)[0] && p[1] == Fields(line)[1];
      assert p[2] == Fields(line)[2] && p[3] == Fields(line)[3];
    }
  }

  /** Each data line yields at most one row, and every row is well formed. */
  lemma RecordsWellFormed(lines: seq<string>)
    ensures |FlatMap(LineRecord, DataLines(lines))| <= |DataLines(lines)|
    ensures forall r :: r in FlatMap(LineRecord, DataLines(lines)) ==> WellFormedRecord(r)
  {
    forall l ensures |LineRecord(l)| <= 1 {
      LineRecordWellFormed(l);
    }
    FlatMapAtMostOne(LineRecord, DataLines(lines));
    forall r | r in FlatMap(LineRecord, DataLines(lines)) ensures WellFormedRecord(r) {
      FlatMapFrom(LineRecord, DataLines(lines), r);
      var l :| l in DataLines(lines) && r in LineRecord(l);
      LineRecordWellFormed(l);
    }
  }

  // ---------------------------------------------------------------- heart rate

  /**
    The alternatives of the three patterns `extract_values` tries, in order:
    `(?:BPM|HRT|HR|HEART_RATE|RESTING-HEART-RATE)[^:]*:(\d+)`,
    `HEART[^:]*:(\d+)` and `HR[^:]*:(\d+)`.
   */
  function HrPatterns(): seq<seq<string>> {
    [["BPM", "HRT", "HR", "HEART_RATE", "RESTING-HEART-RATE"], ["HEART"], ["HR"]]
  }

  /** No alternative holds a colon. */
  predicate ColonFree(alts: seq<string>) {
    forall a :: a in alts ==> ':' !in a
  }

  /** The first `:` at or after `q`. */
  function ColonFrom(s: string, q: nat): (c: Option<nat>)
    ensures c.Some? ==> q <= c.value < |s| && s[c.value] == ':'
    ensures c.Some? ==> forall k :: q <= k < c.value ==> s[k] != ':'
    ensures c.None? ==> forall k :: q <= k < |s| ==> s[k] != ':'
    decreases |s| - q
  {
    if q >= |s| then None else if s[q] == ':' then Some(q) else ColonFrom(s, q + 1)
  }

  /** Colon-free text before `q` does not move the first colon. */
  lemma {:induction false} ColonSkip(s: string, p: nat, q: nat)
    requires p <= q <= |s|
    requires forall k :: p <= k < q ==> s[k] != ':'
    ensures ColonFrom(s, p) == ColonFrom(s, q)
    decreases q - p
  {
    if p < q {
      ColonSkip(s, p + 1, q);
    }
  }

  /**
    `lit[^:]*:(\d+)` matches at `p`: the literal is there, and the first
    colon after it is followed by a digit (`[^:]*` cannot pass a colon).
   */
  predicate AltMatchAt(s: string, lit: string, p: nat) {
    && OccursAt(s, lit, p)
    && ColonFrom(s, p + |lit|).Some?
    && ColonFrom(s, p + |lit|).value + 1 < |s|
    && IsDigit(s[ColonFrom(s, p + |lit|).value + 1])
  }

  /** The number `(\d+)` captures when the alternative matches at `p`. */
  function AltValue(s: string, lit: string, p: nat): nat
    requires AltMatchAt(s, lit, p)
  {
    DigitsValue(DigitRun(s, ColonFrom(s, p + |lit|).value + 1))
  }

  /** Some alternative of the pattern matches at `p`. */
  ghost predicate PatternMatchAt(s: string, alts: seq<string>, p: nat) {
    exists a :: a in alts && AltMatchAt(s, a, p)
  }

  /** The first alternative, in order, that matches at `p`. */
  function FirstAlt(s: string, alts: seq<string>, p: nat): (r: Option<string>)
    ensures r.Some? ==> r.value in alts && AltMatchAt(s, r.value, p)
    ensures r.None? ==> forall a :: a in alts ==> !AltMatchAt(s, a, p)
    decreases |alts|
  {
    if |alts| == 0 then None
    else if AltMatchAt(s, alts[0], p) then Some(alts[0])
    else FirstAlt(s, alts[1..], p)
  }

  /** `re.search` from position `p` on: the number captured at the leftmost matching position. */
  function SearchFrom(s: string, alts: seq<string>, p: nat): Option<nat>
    decreases |s| + 1 - p
  {
    if p > |s| then None
    else
      match FirstAlt(s, alts, p)
      case Some(a) => Some(AltValue(s, a, p))
      case None => SearchFrom(s, alts, p + 1)
  }

  /** Python's `re.search(pattern, s)` followed by `int(match.group(1))`. */
  function Search(s: string, alts: seq<string>): Option<nat> {
    SearchFrom(s, alts, 0)
  }

  /** Whichever alternative matches at a position, the captured number is the same: the digits after the first colon there. */
  lemma AltValueIndependent(s: string, alts: seq<string>, a: string, p: nat)
    requires ColonFree(alts) && a in alts && AltMatchAt(s, a, p)
    ensures ColonFrom(s, p).Some? && ColonFrom(s, p).value + 1 < |s|
    ensures AltValue(s, a, p) == DigitsValue(DigitRun(s, ColonFrom(s, p).value + 1))
  {
    forall k | p <= k < p + |a| ensures s[k] != ':' {
      assert s[k] == a[k - p];
    }
    ColonSkip(s, p, p + |a|);
  }

  /** `q` is the leftmost position at or after `p` where the pattern matches. */
  ghost predicate LeftmostFrom(s: string, alts: seq<string>, p: nat, q: nat) {
    && p <= q <= |s|
    && PatternMatchAt(s, alts, q)
    && forall r :: p <= r < q ==> !PatternMatchAt(s, alts, r)
  }

  /** The digits after the first colon at or after `q`. */
  function NumberAfterColon(s: string, q: nat): Option<nat> {
    match ColonFrom(s, q)
    case Some(c) => if c + 1 < |s| then Some(DigitsValue(DigitRun(s, c + 1))) else None
    case None => None
  }

  /** The search finds nothing exactly when the pattern matches nowhere from `p` on. */
  lemma {:induction false} SearchFromNone(s: string, alts: seq<string>, p: nat)
    ensures SearchFrom(s, alts, p).None? <==> forall q :: p <= q <= |s| ==> !PatternMatchAt(s, alts, q)
    decreases |s| + 1 - p
  {
    if p <= |s| {
      match FirstAlt(s, alts, p)
      case Some(a) =>
        assert PatternMatchAt(s, alts, p);
      case None =>
        SearchFromNone(s, alts, p + 1);
        assert !PatternMatchAt(s, alts, p);
    }
  }

  /**
    When the search finds something, it is the number after the first colon
    that follows the leftmost matching position.
   */
  lemma {:induction false} SearchFromSome(s: string, alts: seq<string>, p: nat)
    requires ColonFree(alts) && SearchFrom(s, alts, p).Some?
    ensures exists q :: LeftmostFrom(s, alts, p, q) && SearchFrom(s, alts, p) == NumberAfterColon(s, q)
    decreases |s| + 1 - p
  {
    match FirstAlt(s, alts, p)
    case Some(a) =>
      AltValueIndependent(s, alts, a, p);
      assert LeftmostFrom(s, alts, p, p);
    case None =>
      SearchFromSome(s, alts, p + 1);
      var q :| LeftmostFrom(s, alts, p + 1, q) && SearchFrom(s, alts, p + 1) == NumberAfterColon(s, q);
      assert !PatternMatchAt(s, alts, p);
      assert LeftmostFrom(s, alts, p, q);
  }

  /** The number the first pattern, in order, that matches anywhere captures. */
  function FirstSearch(v: string, pats: seq<seq<string>>): Option<nat>
    decreases |pats|
  {
    if |pats| == 0 then None
    else if Search(v, pats[0]).Some? then Search(v, pats[0])
    else FirstSearch(v, pats[1..])
  }

  /** The heart rate `extract_values` reads from a `Value` cell; 0 when no pattern matches. */
  function HeartRateOf(value: string): (hr: nat)
    ensures ':' !in value ==> hr == 0
  {
    var u := Upper(value);
    assert ':' in u ==> ':' in value by {
      if ':' in u {
        var i :| 0 <= i < |u| && u[i] == ':';
        assert LowerChar(value[i]) == ':';
      }
    }
    FirstSearchColon(u, HrPatterns());
    FirstSearch(u, HrPatterns()).GetOr(0)
  }

  /** A search only finds a number after a colon, so text without a colon gives none. */
  lemma {:induction false} SearchFromColon(s: string, alts: seq<string>, p: nat)
    ensures SearchFrom(s, alts, p).Some? ==> ':' in s
    decreases |s| + 1 - p
  {
    if p <= |s| {
      match FirstAlt(s, alts, p)
      case Some(a) =>
        assert s[ColonFrom(s, p + |a|).value] == ':';
      case None =>
        SearchFromColon(s, alts, p + 1);
    }
  }

  /** Trying several patterns in order finds nothing in text without a colon. */
  lemma {:induction false} FirstSearchColon(v: string, pats: seq<seq<string>>)
    ensures FirstSearch(v, pats).Some? ==> ':' in v
    decreases |pats|
  {
    if |pats| > 0 {
      SearchFromColon(v, pats[0], 0);
      FirstSearchColon(v, pats[1..]);
    }
  }

  /** A record with the columns `extract_values` adds. */
  datatype Reading = Reading(record: Record, heartRate: nat, calories: nat, steps: nat, distance: nat)

  /** `extract_values`: try the patterns in order, stop at the first that matches. */
  method ExtractValues(rec: Record) returns (row: Reading)
    ensures row.record == rec && row.heartRate == HeartRateOf(rec.value)
    ensures row.calories == 0 && row.steps == 0 && row.distance == 0
  {
    var value := Upper(rec.value);
    var patterns := HrPatterns();
    var heartRate := 0;
    for k := 0 to |patterns|
      invariant heartRate == 0
      invariant FirstSearch(value, patterns) == FirstSearch(value, patterns[k..])
    {
      assert patterns[k..][0] == patterns[k] && patterns[k..][1..] == patterns[k + 1..];
      var found := Search(value, patterns[k]);
      if found.Some? {
        heartRate := found.value;
        break;
      }
    }
    row := Reading(rec, heartRate, 0, 0, 0);
  }

  /** Where the third pattern matches, the first matches too (its `HR` alternative). */
  lemma ThirdImpliesFirst(u: string, q: nat)
    requires PatternMatchAt(u, HrPatterns()[2], q)
    ensures PatternMatchAt(u, HrPatterns()[0], q)
  {
    var a :| a in HrPatterns()[2] && AltMatchAt(u, a, q);
    assert a == "HR";
    assert a in HrPatterns()[0];
  }

  /** No alternative of any heart-rate pattern holds a colon. */
  lemma PatternsColonFree()
    ensures forall k :: 0 <= k < 3 ==> ColonFree(HrPatterns()[k])
  {
    forall k, a | 0 <= k < 3 && a in HrPatterns()[k] ensures ':' !in a {
      assert a in ["BPM", "HRT", "HR", "HEART_RATE", "RESTING-HEART-RATE", "HEART"];
    }
  }

  /** The pattern matches somewhere in `u`. */
  ghost predicate MatchesSomewhere(u: string, alts: seq<string>) {
    exists q :: 0 <= q <= |u| && PatternMatchAt(u, alts, q)
  }

  /**
    The heart rate of a cell, against the leftmost-match reading of the
    patterns on the upper-cased text: the number after the first colon that
    follows the leftmost match of the first pattern, else of the second; 0
    when neither matches anywhere. The third pattern never decides.
   */
  lemma HeartRateSpec(value: string)
    ensures !MatchesSomewhere(Upper(value), HrPatterns()[0]) && !MatchesSomewhere(Upper(value), HrPatterns()[1])
      ==> HeartRateOf(value) == 0
    ensures MatchesSomewhere(Upper(value), HrPatterns()[0]) ==>
      exists q :: LeftmostFrom(Upper(value), HrPatterns()[0], 0, q)
        && NumberAfterColon(Upper(value), q) == Some(HeartRateOf(value))
    ensures !MatchesSomewhere(Upper(value), HrPatterns()[0]) && MatchesSomewhere(Upper(value), HrPatterns()[1]) ==>
      exists q :: LeftmostFrom(Upper(value), HrPatterns()[1], 0, q)
        && NumberAfterColon(Upper(value), q) == Some(HeartRateOf(value))
  {
    var u := Upper(value);
    var pats := HrPatterns();
    PatternsColonFree();
    SearchFromNone(u, pats[0], 0);
    SearchFromNone(u, pats[1], 0);
    SearchFromNone(u, pats[2], 0);
    assert pats[1..][0] == pats[1] && pats[1..][1..] == pats[2..];
    assert pats[2..][0] == pats[2] && pats[2..][1..] == [];
    if Search(u, pats[0]).Some? {
      SearchFromSome(u, pats[0], 0);
    } else if Search(u, pats[1]).Some? {
      SearchFromSome(u, pats[1], 0);
    } else {
      forall q | 0 <= q <= |u| ensures !PatternMatchAt(u, pats[2], q) {
        if PatternMatchAt(u, pats[2], q) {
          ThirdImpliesFirst(u, q);
        }
      }
    }
  }

  // ---------------------------------------------------------------- assessment

  /** The cardiovascular assessment printed at the end of the analysis. */
  datatype HrStatus = AthleteLevel | Excellent | Good | Monitor

  /**
    The assessment of an average heart rate. `None` stands for the NaN mean
    of an empty selection: every comparison with NaN is false, so it falls
    through to `Monitor`.
   */
  function StatusOf(avg: Option<real>): (st: HrStatus)
    ensures st == AthleteLevel <==> avg.Some? && avg.value < 60.0
    ensures st == Excellent <==> avg.Some? && 60.0 <= avg.value < 70.0
    ensures st == Good <==> avg.Some? && 70.0 <= avg.value < 80.0
    ensures st == Monitor <==> avg.None? || 80.0 <= avg.value
  {
    if avg.Some? && avg.value < 60.0 then AthleteLevel
    else if avg.Some? && avg.value < 70.0 then Excellent
    else if avg.Some? && avg.value < 80.0 then Good
    else Monitor
  }

  /** How far an assessment is from the best band. */
  function Severity(st: HrStatus): nat {
    match st
    case AthleteLevel => 0
    case Excellent => 1
    case Good => 2
    case Monitor => 3
  }

  /** A higher average never earns a better assessment. */
  lemma StatusMonotone(a: real, b: real)
    requires a <= b
    ensures Severity(StatusOf(Some(a))) <= Severity(StatusOf(Some(b)))
  {
  }

  /** `hr_data`: the heart rates of the readings whose rate is positive. */
  function PositiveRate(r: Reading): seq<nat> {
    if r.heartRate > 0 then [r.heartRate] else []
  }

  function HrValues(readings: seq<Reading>): (rates: seq<nat>)
    ensures (forall k :: 0 <= k < |readings| ==> readings[k].heartRate == 0) ==> rates == []
  {
    assert (forall k :: 0 <= k < |readings| ==> readings[k].heartRate == 0) ==> FlatMap(PositiveRate, readings) == [] by {
      if forall k :: 0 <= k < |readings| ==> readings[k].heartRate == 0 {
        FlatMapNone(PositiveRate, readings);
      }
    }
    FlatMap(PositiveRate, readings)
  }

  /** Every selected rate is positive and comes from some reading. */
  lemma HrValuesPositive(readings: seq<Reading>)
    ensures |HrValues(readings)| <= |readings|
    ensures forall x :: x in HrValues(readings) ==> x > 0 && exists r :: r in readings && r.heartRate == x
  {
    FlatMapAtMostOne(PositiveRate, readings);
    forall x | x in HrValues(readings) ensures x > 0 && exists r :: r in readings && r.heartRate == x {
      FlatMapFrom(PositiveRate, readings, x);
    }
  }

  /** The mean of the selected rates; `None` (NaN) when there are none. */
  function AverageHr(readings: seq<Reading>): (avg: Option<real>)
    ensures avg.None? <==> HrValues(readings) == []
    ensures avg.Some? ==>
      SeqMin(HrValues(readings)) as real <= avg.value <= SeqMax(HrValues(readings)) as real
  {
    var hr := HrValues(readings);
    if hr == [] then None
    else
      MeanWithinRange(hr);
      Some(Sum(hr) as real / |hr| as real)
  }

  /** The printed assessment: `Monitor` when there is no heart-rate reading at all. */
  lemma CardioStatusNoReadings(readings: seq<Reading>)
    requires forall i :: 0 <= i < |readings| ==> readings[i].heartRate == 0
    ensures StatusOf(AverageHr(readings)) == Monitor
  {
    forall r | r in readings ensures PositiveRate(r) == [] {
      var i :| 0 <= i < |readings| && readings[i] == r;
    }
    FlatMapNone(PositiveRate, readings);
  }
}
