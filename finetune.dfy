/**
  The data handling of the fine-tuning script: the dataset column check,
  the label mapping, the recommendation table, the replication of a small
  dataset and the slicing of the examples into batches. The training
  itself is not part of this model.
 */
module Finetune {
  import opened Wrappers
  import opened Strings
  import opened SeqStats
  import RiskRules
  import TfliteExport

  const RiskLabels: seq<string> := ["green", "yellow", "red"]

  /** `RECOMMENDATIONS`: the advice shown for each label. */
  const Recommendations: map<string, string> := map[
    "green" := "Continue normal activity. Stay hydrated.",
    "yellow" := "Monitor vital signs. Consider rest and hydration soon.",
    "red" := "Heat stress or fatigue risk. Rest and rehydrate. Seek shade. Recommend rest in 10 min."
  ]

  /** The table has one entry per label, and each is the advice the dataset builder attaches to that risk. */
  lemma RecommendationsMatchBuilder()
    ensures Recommendations.Keys == set l | l in RiskLabels
    ensures forall r: RiskRules.Risk ::
      RiskRules.RiskName(r) in Recommendations && Recommendations[RiskRules.RiskName(r)] == RiskRules.Recommendation(r)
  {
    forall r: RiskRules.Risk ensures RiskRules.RiskName(r) in Recommendations
      && Recommendations[RiskRules.RiskName(r)] == RiskRules.Recommendation(r) {
      match r
      case Green =>
      case Yellow =>
      case Red =>
    }
  }

  /** `risk_to_id`: 0 for anything that is not a label once stripped and lower-cased. */
  function RiskToId(risk: string): (id: nat)
    ensures id < |RiskLabels|
    ensures Lower(Strip(risk)) in RiskLabels ==> RiskLabels[id] == Lower(Strip(risk))
  {
    var r := Lower(Strip(risk));
    if r !in RiskLabels then 0
    else TfliteExport.IndexOf(RiskLabels, r).value
  }

  /** The training script and the export script map every string to the same class index, and the labels to 0, 1 and 2. */
  lemma RiskToIdAgrees(risk: string)
    ensures RiskToId(risk) == TfliteExport.RiskToId(risk)
    ensures RiskToId(risk) < 3
  {
    assert RiskLabels == TfliteExport.RiskLabels;
  }

  /** What `load_dataset` does with the file. */
  datatype LoadOutcome = Loaded | FileNotFound | MissingColumns

  /** `load_dataset`: `fileExists` is whether the file is there, `columns` the header `read_csv` finds. */
  function LoadDataset(fileExists: bool, columns: seq<string>): (o: LoadOutcome)
    ensures o == Loaded <==> fileExists && "text" in columns && "risk_level" in columns
    ensures o == MissingColumns <==> fileExists && ("text" !in columns || "risk_level" !in columns)
  {
    if !fileExists then FileNotFound
    else if "text" !in columns || "risk_level" !in columns then MissingColumns
    else Loaded
  }

  /** Python's `xs * n`. */
  function Repeat<T>(xs: seq<T>, n: nat): (r: seq<T>)
    ensures |r| == |xs| * n
    decreases n
  {
    if n == 0 then [] else Repeat(xs, n - 1) + xs
  }

  /** The pairs at equal positions of two lists of equal length. */
  function Zip<A, B>(a: seq<A>, b: seq<B>): (z: seq<(A, B)>)
    requires |a| == |b|
    ensures |z| == |a| && forall i :: 0 <= i < |a| ==> z[i] == (a[i], b[i])
  {
    seq(|a|, i requires 0 <= i < |a| => (a[i], b[i]))
  }

  /** Zipping two concatenations zips the parts. */
  lemma ZipAppend<A, B>(a: seq<A>, b: seq<B>, c: seq<A>, d: seq<B>)
    requires |a| == |b| && |c| == |d|
    ensures Zip(a + c, b + d) == Zip(a, b) + Zip(c, d)
  {
    var z, w := Zip(a + c, b + d), Zip(a, b) + Zip(c, d);
    forall i | 0 <= i < |z| ensures z[i] == w[i] {
      if i >= |a| {
        assert (a + c)[i] == c[i - |a|] && (b + d)[i] == d[i - |a|];
      }
    }
  }

  /** Taking the first and the second components of the pairs gives back the two lists. */
  lemma ZipProjections<A, B>(a: seq<A>, b: seq<B>)
    requires |a| == |b|
    ensures Map((p: (A, B)) => p.0, Zip(a, b)) == a
    ensures Map((p: (A, B)) => p.1, Zip(a, b)) == b
  {
    var z := Zip(a, b);
    forall i | 0 <= i < |a| ensures Map((p: (A, B)) => p.0, z)[i] == a[i] && Map((p: (A, B)) => p.1, z)[i] == b[i] {
      MapAt((p: (A, B)) => p.0, z, i);
      MapAt((p: (A, B)) => p.1, z, i);
    }
  }

  /** Repeating two lists alike repeats their pairing. */
  lemma {:induction false} RepeatZip<A, B>(a: seq<A>, b: seq<B>, n: nat)
    requires |a| == |b|
    ensures Zip(Repeat(a, n), Repeat(b, n)) == Repeat(Zip(a, b), n)
    decreases n
  {
    if n > 0 {
      RepeatZip(a, b, n - 1);
      var x, y := Repeat(a, n - 1), Repeat(b, n - 1);
      assert |x| == |y|;
      ZipAppend(x, y, a, b);
    }
  }

  /** The threshold under which the examples are replicated. */
  const SmallDataset: nat := 30
  const Replication: nat := 4

  /** `texts * 4` and `labels * 4` when there are fewer than 30 texts. */
  function Replicate(texts: seq<string>, labels: seq<nat>): (r: (seq<string>, seq<nat>))
    ensures |texts| < SmallDataset ==> |r.0| == Replication * |texts| && |r.1| == Replication * |labels|
    ensures |texts| >= SmallDataset ==> r == (texts, labels)
  {
    if |texts| < SmallDataset then (Repeat(texts, Replication), Repeat(labels, Replication))
    else (texts, labels)
  }

  /**
    Replication keeps each text paired with its own label: the pairs of the
    result are the input's pairs, four times over for a small dataset.
   */
  lemma ReplicateKeepsPairs(texts: seq<string>, labels: seq<nat>)
    requires |texts| == |labels|
    ensures var (ts, ls) := Replicate(texts, labels);
      && |ts| == |ls|
      && Zip(ts, ls) == if |texts| < SmallDataset then Repeat(Zip(texts, labels), Replication) else Zip(texts, labels)
  {
    if |texts| < SmallDataset {
      RepeatZip(texts, labels, Replication);
    }
  }

  /** Python's `a // b`, which rounds toward negative infinity. */
  function FloorDiv(a: int, b: int): (q: int)
    requires b != 0
    ensures b > 0 ==> q * b <= a < (q + 1) * b
    ensures b < 0 ==> q * b >= a > (q + 1) * b
  {
    if b > 0 then a / b else (-a) / (-b)
  }

  /** `n_batches = max(1, (len(texts) + batch_size - 1) // batch_size)`. */
  function NBatches(n: nat, batchSize: int): (c: int)
    requires batchSize != 0
    ensures c >= 1
    ensures batchSize > 0 && n > 0 ==> (c - 1) * batchSize < n <= c * batchSize
  {
    var q := FloorDiv(n + batchSize - 1, batchSize);
    if q > 1 then q else 1
  }

  function Concat<T>(parts: seq<seq<T>>): seq<T>
    decreases |parts|
  {
    if |parts| == 0 then [] else parts[0] + Concat(parts[1..])
  }

  /** The slices `xs[i : i + b]` for `i` in `range(0, len(xs), b)`. */
  function BatchesOf<T>(xs: seq<T>, b: nat): (bs: seq<seq<T>>)
    requires b > 0
    ensures forall k :: 0 <= k < |bs| ==> 0 < |bs[k]| <= b
    decreases |xs|
  {
    if |xs| == 0 then []
    else if |xs| <= b then [xs]
    else [xs[..b]] + BatchesOf(xs[b..], b)
  }

  /** One step of `BatchesOf`: the first slice, then the batches of the rest. */
  lemma BatchesOfStep<T>(xs: seq<T>, b: nat)
    requires b > 0 && |xs| > b
    ensures BatchesOf(xs, b) == [xs[..b]] + BatchesOf(xs[b..], b)
    ensures xs == xs[..b] + xs[b..]
  {
  }

  /** The batches put back together are the data. */
  lemma {:induction false} BatchesOfConcat<T>(xs: seq<T>, b: nat)
    requires b > 0
    ensures Concat(BatchesOf(xs, b)) == xs
    decreases |xs|
  {
    if |xs| > b {
      BatchesOfStep(xs, b);
      BatchesOfConcat(xs[b..], b);
      var bs := BatchesOf(xs, b);
      assert bs[0] == xs[..b] && bs[1..] == BatchesOf(xs[b..], b);
    } else if |xs| > 0 {
      assert Concat([xs]) == xs + Concat([xs][1..]);
    }
  }

  /** Each batch holds between 1 and `b` examples, all but the last exactly `b`. */
  lemma {:induction false} BatchesOfSizes<T>(xs: seq<T>, b: nat)
    requires b > 0
    ensures forall k :: 0 <= k < |BatchesOf(xs, b)| ==> 0 < |BatchesOf(xs, b)[k]| <= b
    ensures forall k :: 0 <= k < |BatchesOf(xs, b)| - 1 ==> |BatchesOf(xs, b)[k]| == b
    decreases |xs|
  {
    if |xs| > b {
      BatchesOfStep(xs, b);
      BatchesOfSizes(xs[b..], b);
      var bs := BatchesOf(xs, b);
      var rest := BatchesOf(xs[b..], b);
      forall k | 1 <= k < |bs| ensures bs[k] == rest[k - 1] {
      }
    }
  }

  /** There are `ceil(n / b)` batches. */
  lemma {:induction false} BatchesOfCount<T>(xs: seq<T>, b: nat)
    requires b > 0
    ensures |BatchesOf(xs, b)| == 0 <==> |xs| == 0
    ensures (|BatchesOf(xs, b)| - 1) * b < |xs| <= |BatchesOf(xs, b)| * b
    decreases |xs|
  {
    if |xs| > b {
      BatchesOfStep(xs, b);
      BatchesOfCount(xs[b..], b);
      MulSucc(|BatchesOf(xs[b..], b)|, b);
    }
  }

  /** The loop `for i in range(0, len(xs), batch_size)` slicing `xs[i : i + batch_size]`; `None` is the `ValueError` of a zero step. */
  method Batches<T>(xs: seq<T>, batchSize: int) returns (batches: Option<seq<seq<T>>>)
    ensures batches.None? <==> batchSize == 0
    ensures batchSize < 0 ==> batches == Some([])
    ensures batchSize > 0 ==> batches == Some(BatchesOf(xs, batchSize))
  {
    if batchSize == 0 {
      return None;
    }
    if batchSize < 0 {
      return Some([]);
    }
    var out: seq<seq<T>> := [];
    var i := 0;
    while i < |xs|
      invariant 0 <= i <= |xs|
      invariant out + BatchesOf(xs[i..], batchSize) == BatchesOf(xs, batchSize)
      decreases |xs| - i
    {
      var end := if i + batchSize < |xs| then i + batchSize else |xs|;
      var batch := xs[i..end];
      if |xs[i..]| <= batchSize {
        assert end == |xs| && xs[i..] == batch;
      } else {
        assert xs[i..][batchSize..] == xs[end..] && xs[i..][..batchSize] == batch;
      }
      assert BatchesOf(xs[i..], batchSize) == [batch] + BatchesOf(xs[end..], batchSize);
      out := out + [batch];
      i := end;
    }
    assert BatchesOf(xs[i..], batchSize) == [];
    assert out + [] == out;
    return Some(out);
  }

  /** `x * b` is monotone in `x` for a positive `b`. */
  lemma MulOrder(x: int, y: int, b: int)
    requires b > 0
    ensures x <= y ==> x * b <= y * b
    ensures x * b < y * b ==> x < y
  {
  }

  /** `n_batches` is the number of batches, and 1 for an empty dataset so that the mean loss is defined. */
  lemma NBatchesCountsBatches(n: nat, c: nat, b: int)
    requires b > 0
    requires (c == 0 <==> n == 0) && (c - 1) * b < n <= c * b
    ensures n > 0 ==> NBatches(n, b) == c
    ensures n == 0 ==> NBatches(n, b) == 1
  {
    var q := FloorDiv(n + b - 1, b);
    MulOrder(q, c + 1, b);
    MulOrder(c, q + 1, b);
  }
}
